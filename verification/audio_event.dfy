/** EMAudioEvent: a producer reference with per-instance gain and pitch, plus
    the start time and started flag that only the stream writes. */
module AudioEvent {

  datatype Event<P> = Event(
    producer: P,
    gain: real,
    pitch: real,
    samplePos: real,
    startTime: real,
    hasStarted: bool)
  {
    function Gain(): real { gain }

    function Pitch(): real { pitch }

    function Producer(): P { producer }
  }

  /** The constructor initialises producer, gain, pitch and the sample
      position. It leaves `m_hasStarted` and `m_startTime` uninitialised;
      whatever those bytes hold is passed in explicitly as
      `unsetStarted` / `unsetStartTime`, so no lemma may rely on them. */
  function NewEvent<P>(producer: P, unsetStarted: bool, unsetStartTime: real,
                       gain: real := 1.0, pitch: real := 1.0): (e: Event<P>)
    ensures e.Producer() == producer && e.Gain() == gain && e.Pitch() == pitch
    ensures e.samplePos == 0.0
    ensures e.hasStarted == unsetStarted && e.startTime == unsetStartTime
  {
    Event(producer, gain, pitch, 0.0, unsetStartTime, unsetStarted)
  }

  /** `setGain` replaces the gain and nothing else. */
  function SetGain<P>(e: Event<P>, gain: real): (r: Event<P>)
    ensures r.Gain() == gain
    ensures r.Pitch() == e.Pitch() && r.Producer() == e.Producer()
    ensures r.startTime == e.startTime && r.hasStarted == e.hasStarted && r.samplePos == e.samplePos
  {
    e.(gain := gain)
  }

  /** `setPitch` replaces the pitch and nothing else. */
  function SetPitch<P>(e: Event<P>, pitch: real): (r: Event<P>)
    ensures r.Pitch() == pitch
    ensures r.Gain() == e.Gain() && r.Producer() == e.Producer()
    ensures r.startTime == e.startTime && r.hasStarted == e.hasStarted && r.samplePos == e.samplePos
  {
    e.(pitch := pitch)
  }

  /** Setting gain and pitch commute: they touch disjoint fields. */
  lemma SettersCommute<P>(e: Event<P>, g: real, p: real)
    ensures SetGain(SetPitch(e, p), g) == SetPitch(SetGain(e, g), p)
  {
  }
}
