/** The legacy mixer's event values: sound events that are either backed by
    a decoded buffer or by a synthesizer callback, the test for an event
    that has played through, the four-point interpolation that reads a
    buffer, and the engine's RPM reading. */
module LegacyApi {
  import opened Common

  datatype EventType = Unknown | Buffered | Synthesized

  /** A decoded buffer: its length in samples and one sample array per channel. */
  datatype AudioBuffer = AudioBuffer(samples: int, data: seq<seq<real>>)

  /** A synthesizer: the sample generator, called with a channel and a
      position, and the termination test on a position. */
  datatype Synthesizer = Synthesizer(generator: (int, real) -> real, terminator: real -> bool)

  datatype SoundEvent = SoundEvent(
    pitch: real,
    volume: real,
    reversed: bool,
    buffer: Option<AudioBuffer>,
    synth: Option<Synthesizer>,
    kind: EventType)

  /** What the constructors guarantee: a buffered event has a buffer and a
      synthesized event has a synthesizer. */
  predicate WellFormed(se: SoundEvent)
  {
    (se.kind == Buffered ==> se.buffer.Some?) && (se.kind == Synthesized ==> se.synth.Some?)
  }

  /** The default constructor: no source, unit pitch and volume. */
  function DefaultSoundEvent(): (se: SoundEvent)
    ensures WellFormed(se) && se.kind == Unknown
    ensures se.pitch == 1.0 && se.volume == 1.0 && !se.reversed
    ensures se.buffer.None? && se.synth.None?
  {
    SoundEvent(1.0, 1.0, false, None, None, Unknown)
  }

  /** The buffer constructor. */
  function BufferedSoundEvent(buf: AudioBuffer, volume: real := 1.0, pitch: real := 1.0): (se: SoundEvent)
    ensures WellFormed(se) && se.kind == Buffered && se.buffer == Some(buf)
    ensures se.volume == volume && se.pitch == pitch && !se.reversed
  {
    SoundEvent(pitch, volume, false, Some(buf), None, Buffered)
  }

  /** The synthesizer constructor. */
  function SynthSoundEvent(synth: Synthesizer, volume: real := 1.0, pitch: real := 1.0): (se: SoundEvent)
    ensures WellFormed(se) && se.kind == Synthesized && se.synth == Some(synth)
    ensures se.volume == volume && se.pitch == pitch && !se.reversed
  {
    SoundEvent(pitch, volume, false, None, Some(synth), Synthesized)
  }

  /** A scheduled event: the sound and its play position in samples. */
  datatype PlayingEvent = PlayingEvent(sound: SoundEvent, samplePos: real)

  /** `playedThrough`: a buffered event is done outside a window of 256
      samples of slack around its buffer; a synthesized one when it is
      before that window or its synthesizer says so; an event with no
      source always is. */
  function PlayedThrough(ev: PlayingEvent): (done: bool)
    requires WellFormed(ev.sound)
    ensures ev.sound.kind == Buffered ==>
      (!done <==> -256.0 <= ev.samplePos <= (ev.sound.buffer.value.samples + 256) as real)
    ensures ev.sound.kind == Synthesized ==>
      (done <==> ev.samplePos < -256.0 || ev.sound.synth.value.terminator(ev.samplePos))
    ensures ev.sound.kind == Unknown ==> done
  {
    match ev.sound.kind
    case Buffered => ev.samplePos < -256.0 || (ev.sound.buffer.value.samples + 256) as real < ev.samplePos
    case Synthesized => ev.samplePos < -256.0 || ev.sound.synth.value.terminator(ev.samplePos)
    case Unknown => true
  }

  /** Past the end of its buffer, a buffered event stays played through. */
  lemma PlayedThroughStays(ev: PlayingEvent, later: real)
    requires WellFormed(ev.sound) && ev.sound.kind == Buffered
    requires PlayedThrough(ev) && ev.samplePos >= 0.0 && later >= ev.samplePos
    ensures PlayedThrough(ev.(samplePos := later))
  {
  }

  /** The four sample indices `interpolate` reads: the clamped, truncated
      position and the next three, each falling back to the first when it
      would run off the end. */
  function Indices(samples: int, wavePos: real): (r: (int, int, int, int))
    ensures samples >= 1 ==>
      0 <= r.0 < samples && 0 <= r.1 < samples && 0 <= r.2 < samples && 0 <= r.3 < samples
    ensures r.1 == (if r.0 + 1 < samples then r.0 + 1 else r.0)
    ensures r.2 == (if r.0 + 2 < samples then r.0 + 2 else r.0)
    ensures r.3 == (if r.0 + 3 < samples then r.0 + 3 else r.0)
    ensures samples >= 1 && 0.0 <= wavePos <= (samples - 1) as real ==> r.0 == wavePos.Floor
    ensures samples >= 1 && wavePos >= (samples - 1) as real ==> r.0 == samples - 1
    ensures wavePos <= 0.0 ==> r.0 == 0
  {
    var p1 := TruncToInt(MaxReal(0.0, MinReal(wavePos, (samples - 1) as real)));
    (p1,
     if p1 + 1 >= samples then p1 else p1 + 1,
     if p1 + 2 >= samples then p1 else p1 + 2,
     if p1 + 3 >= samples then p1 else p1 + 3)
  }

  /** The cubic through four samples at fraction `frac`. */
  function Cubic(s1: real, s2: real, s3: real, s4: real, frac: real): (c: real)
    ensures frac == 0.0 ==> c == s2
  {
    var a1 := s4 - s3 - s1 + s2;
    var a2 := s1 - s2 - a1;
    var a3 := s3 - s1;
    var a4 := s2;
    a1 * frac * (frac * frac) + a2 * (frac * frac) + a3 * frac + a4
  }

  /** What a buffered read needs: at least one sample and a channel that
      holds them all. */
  predicate Readable(buf: AudioBuffer, channel: int)
  {
    buf.samples >= 1 && 0 <= channel < |buf.data| && |buf.data[channel]| >= buf.samples
  }

  /** `interpolate`: a buffered event reads the cubic through the four
      indexed samples at the fractional part of the position (truncated
      toward zero); a synthesized one asks its generator; an event with no
      source is silent. At a whole position the cubic lands on the sample
      after the clamped one. */
  function Interpolate(ev: PlayingEvent, channel: int, wavePos: real): (r: real)
    requires WellFormed(ev.sound)
    requires ev.sound.kind == Buffered ==> Readable(ev.sound.buffer.value, channel)
    ensures ev.sound.kind == Unknown ==> r == 0.0
    ensures ev.sound.kind == Synthesized ==> r == ev.sound.synth.value.generator(channel, wavePos)
    ensures ev.sound.kind == Buffered && wavePos == wavePos.Floor as real ==>
      r == ev.sound.buffer.value.data[channel][Indices(ev.sound.buffer.value.samples, wavePos).1]
  {
    match ev.sound.kind
    case Buffered =>
      var buf := ev.sound.buffer.value;
      var ix := Indices(buf.samples, wavePos);
      var d := buf.data[channel];
      var frac := wavePos - TruncToInt(wavePos) as real;
      TruncWhole(wavePos);
      Cubic(d[ix.0], d[ix.1], d[ix.2], d[ix.3], frac)
    case Synthesized => ev.sound.synth.value.generator(channel, wavePos)
    case Unknown => 0.0
  }

  /** At whole position `k` inside the buffer, the read is the sample at
      `k + 1` (or `k` itself at the last sample), not the one at `k`. */
  lemma WholePositionReadsNext(ev: PlayingEvent, channel: int, k: int)
    requires WellFormed(ev.sound) && ev.sound.kind == Buffered
    requires Readable(ev.sound.buffer.value, channel)
    requires 0 <= k < ev.sound.buffer.value.samples
    ensures var d := ev.sound.buffer.value.data[channel];
            Interpolate(ev, channel, k as real) == (if k + 1 < ev.sound.buffer.value.samples then d[k + 1] else d[k])
  {
    assert (k as real).Floor == k;
  }

  /** A constant buffer interpolates to the constant everywhere. */
  lemma ConstantSignalPreserved(ev: PlayingEvent, channel: int, wavePos: real, c: real)
    requires WellFormed(ev.sound) && ev.sound.kind == Buffered
    requires Readable(ev.sound.buffer.value, channel)
    requires forall i :: 0 <= i < ev.sound.buffer.value.samples ==> ev.sound.buffer.value.data[channel][i] == c
    ensures Interpolate(ev, channel, wavePos) == c
  {
    var buf := ev.sound.buffer.value;
    var ix := Indices(buf.samples, wavePos);
    var d := buf.data[channel];
    assert d[ix.0] == c && d[ix.1] == c && d[ix.2] == c && d[ix.3] == c;
  }

  /** The legacy engine's starting angular velocity. */
  const InitialAngularVelocity: real := 17.0

  /** `getRPM`: the magnitude of the angular velocity per minute. */
  function GetRPM(angularVelocity: real): (rpm: real)
    ensures rpm >= 0.0
    ensures rpm == 60.0 * Abs(angularVelocity)
  {
    Abs(angularVelocity * 60.0)
  }

  /** The reading does not depend on the direction of rotation, and a new
      engine reads 1020 RPM. */
  lemma GetRPMSymmetric(angularVelocity: real)
    ensures GetRPM(-angularVelocity) == GetRPM(angularVelocity)
    ensures GetRPM(InitialAngularVelocity) == 1020.0
  {
  }
}
