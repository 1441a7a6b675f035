/** KickProducer: a one-shot 0.25 s drum hit. Every request is clipped to
    what is left of the hit; the request that crosses the end flags the
    producer as expired. The waveform itself (`genSample`, built from
    `sin` and `rand`) is a generator given as a parameter, indexed by the
    sample position; a kick never asks for the same position twice. */
module KickProducer {
  import opened Common
  import opened AudioEvent
  import opened AudioInsert
  import opened AudioMix

  /** `getDuration()`, in seconds. */
  const Duration: real := 0.25

  /** The hit's length in samples, `getDuration() * SAMPLE_RATE`. */
  const DurationSamples: nat := 11025

  datatype Kick = Kick(factor: real, factor2: real, hasExpired: bool, samplePos: nat)

  /** The sample position never runs past the end of the hit. */
  predicate Valid(k: Kick)
  {
    k.samplePos <= DurationSamples
  }

  /** The constructor: the two shape parameters are mapped affinely, the
      hit starts at sample 0 and is not expired. */
  function NewKick(factor: real := 1.0, factor2: real := 1.0): (k: Kick)
    ensures Valid(k) && !k.hasExpired && k.samplePos == 0
    ensures k.factor - 80.0 == 600.0 * factor && k.factor2 - 20.0 == 180.0 * factor2
    ensures 0.0 <= factor <= 1.0 ==> 80.0 <= k.factor <= 680.0
    ensures 0.0 <= factor2 <= 1.0 ==> 20.0 <= k.factor2 <= 200.0
  {
    Kick(80.0 + factor * 600.0, 20.0 + factor2 * 180.0, false, 0)
  }

  lemma DurationIsWholeSamples()
    ensures Duration * SampleRate as real == DurationSamples as real
  {
  }

  /** The clipping test and the clipped count exactly as the source
      computes them: in seconds, with a strict `>`, and the remaining
      length truncated back to an integer. The result is the number of
      samples served and whether the producer expires. */
  function Clip(k: Kick, n: nat): (r: (nat, bool))
    requires Valid(k)
    ensures r.1 <==> k.samplePos + n > DurationSamples
    ensures r.1 ==> r.0 == DurationSamples - k.samplePos
    ensures !r.1 ==> r.0 == n
    ensures r.0 <= n && k.samplePos + r.0 <= DurationSamples
  {
    if (k.samplePos + n) as real / SampleRate as real > Duration then
      var left := TruncToInt(Duration * SampleRate as real) - k.samplePos;
      (left, true)
    else
      (n, false)
  }

  /** The producer state after serving a request of `n` samples. */
  function Advance(k: Kick, n: nat): (r: Kick)
    requires Valid(k)
    ensures Valid(r)
    ensures r.samplePos == k.samplePos + Clip(k, n).0
    ensures r.hasExpired <==> k.hasExpired || k.samplePos + n > DurationSamples
    ensures r.factor == k.factor && r.factor2 == k.factor2
  {
    var c := Clip(k, n);
    k.(samplePos := k.samplePos + c.0, hasExpired := k.hasExpired || c.1)
  }

  /** `produceSamples`: overwrites the first `count` entries of the buffer
      with consecutive samples of the hit and returns `count`; the rest of
      the buffer is not touched. `gen(p)` is the hit's sample at position `p`. */
  method ProduceSamples(k: Kick, buffer: seq<real>, n: nat, gen: nat -> real)
    returns (k': Kick, buffer': seq<real>, count: nat)
    requires Valid(k) && n <= |buffer|
    ensures count == Clip(k, n).0 && k' == Advance(k, n)
    ensures k'.samplePos == k.samplePos + count
    ensures |buffer'| == |buffer|
    ensures forall i :: 0 <= i < count ==> buffer'[i] == gen(k.samplePos + i)
    ensures forall i :: count <= i < |buffer| ==> buffer'[i] == buffer[i]
  {
    var c := Clip(k, n);
    count := c.0;
    k' := k.(hasExpired := k.hasExpired || c.1);
    buffer' := buffer;
    var i := 0;
    while i < count
      invariant 0 <= i <= count
      invariant k' == k.(hasExpired := k.hasExpired || c.1, samplePos := k.samplePos + i)
      invariant |buffer'| == |buffer|
      invariant forall j :: 0 <= j < i ==> buffer'[j] == gen(k.samplePos + j)
      invariant forall j :: i <= j < |buffer| ==> buffer'[j] == buffer[j]
    {
      buffer' := buffer'[i := gen(k'.samplePos)];
      k' := k'.(samplePos := k'.samplePos + 1);
      i := i + 1;
    }
  }

  /** `addOntoSamples`: the same clipping, but each sample is scaled by
      `gain` and added onto the buffer. */
  method AddOntoSamples(k: Kick, buffer: seq<real>, n: nat, gain: real, gen: nat -> real)
    returns (k': Kick, buffer': seq<real>, count: nat)
    requires Valid(k) && n <= |buffer|
    ensures count == Clip(k, n).0 && k' == Advance(k, n)
    ensures k'.samplePos == k.samplePos + count
    ensures |buffer'| == |buffer|
    ensures forall i :: 0 <= i < count ==> buffer'[i] == buffer[i] + gen(k.samplePos + i) * gain
    ensures forall i :: count <= i < |buffer| ==> buffer'[i] == buffer[i]
  {
    var c := Clip(k, n);
    count := c.0;
    k' := k.(hasExpired := k.hasExpired || c.1);
    buffer' := buffer;
    var i := 0;
    while i < count
      invariant 0 <= i <= count
      invariant k' == k.(hasExpired := k.hasExpired || c.1, samplePos := k.samplePos + i)
      invariant |buffer'| == |buffer|
      invariant forall j :: 0 <= j < i ==> buffer'[j] == buffer[j] + gen(k.samplePos + j) * gain
      invariant forall j :: i <= j < |buffer| ==> buffer'[j] == buffer[j]
    {
      buffer' := buffer'[i := buffer'[i] + gen(k'.samplePos) * gain];
      k' := k'.(samplePos := k'.samplePos + 1);
      i := i + 1;
    }
  }

  /** `hasExpired()`. */
  function HasExpired(k: Kick): bool { k.hasExpired }

  /** A request that ends exactly on the last sample is served in full and
      does not expire the hit; only the next non-empty request does, and it
      is served nothing. */
  lemma ExactEndThenExpire(k: Kick, m: nat)
    requires Valid(k) && !k.hasExpired && m >= 1
    ensures var k1 := Advance(k, DurationSamples - k.samplePos);
            Clip(k, DurationSamples - k.samplePos).0 == DurationSamples - k.samplePos &&
            !HasExpired(k1) && Clip(k1, m) == (0, true) && HasExpired(Advance(k1, m))
  {
  }

  /** Expiry is never cleared. */
  lemma ExpiryMonotone(k: Kick, n: nat)
    requires Valid(k)
    ensures HasExpired(k) ==> HasExpired(Advance(k, n))
  {
  }

  /** Serving a whole sequence of requests. */
  function Serve(k: Kick, requests: seq<nat>): (r: (Kick, nat))
    requires Valid(k)
    ensures Valid(r.0)
    decreases |requests|
  {
    if requests == [] then (k, 0)
    else
      var rest := Serve(Advance(k, requests[0]), requests[1..]);
      (rest.0, Clip(k, requests[0]).0 + rest.1)
  }

  /** Whatever the requests, a hit delivers at most its 11025 samples in
      total, and exactly the distance its position moved. */
  lemma {:induction false} ServeBounded(k: Kick, requests: seq<nat>)
    requires Valid(k)
    ensures Serve(k, requests).0.samplePos == k.samplePos + Serve(k, requests).1
    ensures k.samplePos + Serve(k, requests).1 <= DurationSamples
    decreases |requests|
  {
    if requests != [] {
      ServeBounded(Advance(k, requests[0]), requests[1..]);
    }
  }

  /** The hit seen through the interface the mixer uses: a request for `n`
      samples yields the served samples, the duration is 0.25 s and expiry
      is the stored flag. */
  function KickOps(gen: nat -> real): (ops: ProducerOps<Kick>)
    ensures forall k: Kick :: ops.duration(k) == Duration && ops.expired(k) == k.hasExpired
  {
    ProducerOps(
      (k: Kick, n: nat) =>
        if Valid(k) then
          var c := Clip(k, n).0;
          (Advance(k, n), seq(c, i requires 0 <= i < c => gen(k.samplePos + i)))
        else (k, []),
      (k: Kick) => Duration,
      (k: Kick) => k.hasExpired)
  }
}
