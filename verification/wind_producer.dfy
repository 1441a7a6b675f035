/** WindProducer: low-pass filtered noise whose loudness follows the wind
    velocity. It is a static producer (duration 0.0), always serves the
    whole request and expires only when told to. The Butterworth filter and
    `rand()` are folded into an opaque noise signal. */
module WindProducer {
  import opened Common
  import opened AudioEvent
  import opened AudioInsert

  /** The largest amplitude factor. */
  const MaxAmplitude: real := 0.9

  datatype Wind = Wind(expired: bool, velocity: real)

  /** A fresh producer: not expired, no wind. */
  function NewWind(): (w: Wind)
    ensures !HasExpired(w) && w.velocity == 0.0
  {
    Wind(false, 0.0)
  }

  /** `std::min(m_windVelocity / 150.0, 0.9)`. */
  function Amplitude(velocity: real): (a: real)
    ensures a <= MaxAmplitude
    ensures 0.0 <= velocity ==> 0.0 <= a
    ensures velocity <= 135.0 ==> a == velocity / 150.0
    ensures 135.0 <= velocity ==> a == MaxAmplitude
  {
    MinReal(velocity / 150.0, 0.9)
  }

  /** `produceSamples`: the first `n` entries become filtered noise scaled
      by the amplitude; the whole request is served. `noise(i)` is the
      filter output for the `i`-th sample of this request. */
  function ProduceSamples(w: Wind, buffer: seq<real>, n: nat, noise: nat -> real): (r: (seq<real>, nat))
    requires n <= |buffer|
    ensures r.1 == n && |r.0| == |buffer|
    ensures forall i :: 0 <= i < n ==> r.0[i] == noise(i) * Amplitude(w.velocity)
    ensures forall i :: n <= i < |buffer| ==> r.0[i] == buffer[i]
  {
    (seq(n, i requires 0 <= i < n => noise(i) * Amplitude(w.velocity)) + buffer[n..], n)
  }

  /** `addOntoSamples`: adds the same scaled noise; the `gain` argument is
      accepted and ignored. */
  function AddOntoSamples(w: Wind, buffer: seq<real>, n: nat, gain: real, noise: nat -> real): (r: (seq<real>, nat))
    requires n <= |buffer|
    ensures r.1 == n && |r.0| == |buffer|
    ensures forall i :: 0 <= i < n ==> r.0[i] == buffer[i] + noise(i) * Amplitude(w.velocity)
    ensures forall i :: n <= i < |buffer| ==> r.0[i] == buffer[i]
  {
    (seq(n, i requires 0 <= i < n => buffer[i] + noise(i) * Amplitude(w.velocity)) + buffer[n..], n)
  }

  /** Adding onto silence is producing: the two render methods agree. */
  lemma AddOntoSilenceIsProduce(w: Wind, n: nat, gain: real, noise: nat -> real)
    ensures AddOntoSamples(w, seq(n, i => 0.0), n, gain, noise) == ProduceSamples(w, seq(n, i => 0.0), n, noise)
  {
    var a := AddOntoSamples(w, seq(n, i => 0.0), n, gain, noise);
    var p := ProduceSamples(w, seq(n, i => 0.0), n, noise);
    assert a.0 == p.0 by {
      forall i | 0 <= i < n ensures a.0[i] == p.0[i] {
        assert a.0[i] == 0.0 + noise(i) * Amplitude(w.velocity);
      }
    }
  }

  /** Each sample added has magnitude at most 0.9 times the noise. */
  lemma AddedSampleBounded(w: Wind, buffer: seq<real>, n: nat, gain: real, noise: nat -> real, i: nat)
    requires n <= |buffer| && i < n && 0.0 <= w.velocity
    ensures Abs(AddOntoSamples(w, buffer, n, gain, noise).0[i] - buffer[i]) <= MaxAmplitude * Abs(noise(i))
  {
    var a := Amplitude(w.velocity);
    var x := noise(i);
    assert AddOntoSamples(w, buffer, n, gain, noise).0[i] - buffer[i] == x * a;
    assert 0.0 <= a <= MaxAmplitude;
    if x >= 0.0 {
      MulNonNeg(x, MaxAmplitude - a);
      MulNonNeg(x, a);
    } else {
      MulNonNeg(-x, MaxAmplitude - a);
      MulNonNeg(-x, a);
    }
  }

  /** `getDuration()`: 0.0, a static producer. */
  function GetDuration(w: Wind): real { 0.0 }

  /** `hasExpired()`. */
  function HasExpired(w: Wind): bool { w.expired }

  /** `expire()`: the producer is expired from now on. */
  function Expire(w: Wind): (r: Wind)
    ensures HasExpired(r) && r.velocity == w.velocity
  {
    w.(expired := true)
  }

  /** `setWindVelocity`: only the velocity changes. */
  function SetWindVelocity(w: Wind, velocity: real): (r: Wind)
    ensures r.velocity == velocity && HasExpired(r) == HasExpired(w)
  {
    w.(velocity := velocity)
  }

  lemma ExpireIdempotent(w: Wind)
    ensures Expire(Expire(w)) == Expire(w)
  {
  }

  /** Only `expire` sets the flag: a velocity change never expires the
      producer, and nothing un-expires it. */
  lemma ExpiryOnlyByExpire(w: Wind, v: real)
    ensures HasExpired(SetWindVelocity(w, v)) <==> HasExpired(w)
    ensures HasExpired(SetWindVelocity(Expire(w), v))
  {
  }

  /** The producer as the mixer sees it. */
  function WindOps(noise: nat -> real): (ops: ProducerOps<Wind>)
    ensures forall w: Wind :: !(ops.duration(w) > 0.0) && ops.expired(w) == w.expired
  {
    ProducerOps(
      (w: Wind, n: nat) => (w, seq(n, i requires 0 <= i < n => noise(i) * Amplitude(w.velocity))),
      (w: Wind) => GetDuration(w),
      (w: Wind) => HasExpired(w))
  }
}
