/** The plain sound-event record of the `engmsc` library: a producer
    reference with a volume and a pitch, and a private play position. */
module SoundEvents {

  datatype SoundEvent<P> = SoundEvent(producer: P, volume: real, pitch: real, samplePos: real)

  /** The constructor stores the producer, volume and pitch it is given
      (both default to 1.0); the play position starts at 0.0. */
  function NewSoundEvent<P>(producer: P, volume: real := 1.0, pitch: real := 1.0): (e: SoundEvent<P>)
    ensures e.producer == producer && e.volume == volume && e.pitch == pitch
    ensures e.samplePos == 0.0
  {
    SoundEvent(producer, volume, pitch, 0.0)
  }

  /** Two events built from the same arguments are the same event, and
      one built with the defaults plays at unit volume and pitch. */
  lemma NewSoundEventDefaults<P>(producer: P)
    ensures NewSoundEvent(producer) == NewSoundEvent(producer, 1.0, 1.0)
    ensures NewSoundEvent(producer).volume == 1.0 && NewSoundEvent(producer).pitch == 1.0
  {
  }
}
