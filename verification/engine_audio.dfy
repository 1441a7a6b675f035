/** The engine-log producer: a process-wide singleton that turns the
    physics simulation's log of engine readings (a deque filled at 2000
    readings per second) into audio at 44100 samples per second by holding
    the most recent reading (`i_sampleFromLog`). It is static and never
    expires. */
module EngineAudio {
  import opened Common
  import opened AudioEvent
  import opened AudioInsert
  import opened AudioMix
  import opened AudioStream

  /** Seconds between two log readings, `1.0 / 2000.0`. */
  const TickDelta: real := 1.0 / 2000.0

  /** Seconds per output sample, `1.0 / EMSAMPLE_RATE`. */
  const SampleStep: real := 1.0 / 44100.0

  /** The three file-scope statics of the resampler: the reading being
      held, the playback time and the time of the next reading. */
  datatype LogReader = LogReader(value: real, pos: real, nextTick: real)

  /** Their initial values. */
  const InitialReader: LogReader := LogReader(0.0, 0.0, 0.0)

  /** `front()` on an empty deque: the resampler needs a reading the
      physics has not logged yet. */
  datatype LogError = LogUnderflow

  /** The inner loop of `i_sampleFromLog`: while the next reading is due
      before `pos`, hold it and pop it. On success: the value held, the
      time of the next reading and the rest of the log; popping from an
      empty log is an error. */
  function ConsumeDue(value: real, nextTick: real, pos: real, log: seq<real>): Result<(real, real, seq<real>), LogError>
    decreases |log|
  {
    if nextTick >= pos then Ok((value, nextTick, log))
    else if log == [] then Err(LogUnderflow)
    else ConsumeDue(log[0], nextTick + TickDelta, pos, log[1..])
  }

  /** The loop pops a prefix of the log, one tick per reading, and stops at
      the first reading due at or after `pos`, holding the last one popped;
      it fails exactly when the log runs out before such a reading. */
  lemma {:induction false} ConsumeDueFacts(value: real, nextTick: real, pos: real, log: seq<real>)
    ensures var res := ConsumeDue(value, nextTick, pos, log);
      res.Ok? ==>
      var (value', nextTick', rest) := res.value;
      var pops := |log| - |rest|;
      |rest| <= |log| && rest == log[pops..] &&
      nextTick' == nextTick + pops as real * TickDelta && nextTick' >= pos &&
      (pops > 0 ==> nextTick' - TickDelta < pos && value' == log[pops - 1]) &&
      (pops == 0 ==> value' == value)
    ensures ConsumeDue(value, nextTick, pos, log).Err? <==> nextTick + |log| as real * TickDelta < pos
    decreases |log|
  {
    if nextTick >= pos {
      assert log[0..] == log;
    } else if log != [] {
      ConsumeDueFacts(log[0], nextTick + TickDelta, pos, log[1..]);
      assert (nextTick + TickDelta) + (|log| - 1) as real * TickDelta == nextTick + |log| as real * TickDelta;
      var res := ConsumeDue(log[0], nextTick + TickDelta, pos, log[1..]);
      if res.Ok? {
        var rest := res.value.2;
        assert log[1..][|log[1..]| - |rest|..] == log[|log| - |rest|..];
        assert (nextTick + TickDelta) + (|log[1..]| - |rest|) as real * TickDelta == nextTick + (|log| - |rest|) as real * TickDelta;
      }
    }
  }

  /** `i_sampleFromLog`: advances the playback time by one sample, then
      consumes the readings due before the new time. On success the result
      is the new statics and the rest of the log. */
  function SampleFromLog(r: LogReader, log: seq<real>): Result<(LogReader, seq<real>), LogError>
  {
    var pos := r.pos + SampleStep;
    var c := ConsumeDue(r.value, r.nextTick, pos, log);
    if c.Err? then Err(c.error)
    else Ok((LogReader(c.value.0, pos, c.value.1), c.value.2))
  }

  /** One call moves the playback time on by one sample and leaves the next
      reading due at or after it; the held value is the last reading
      consumed, or the old value when none was due; the call fails exactly
      when the log runs out first. */
  lemma SampleFromLogFacts(r: LogReader, log: seq<real>)
    ensures var res := SampleFromLog(r, log);
      res.Ok? ==>
      var r' := res.value.0;
      var rest := res.value.1;
      var pops := |log| - |rest|;
      r'.pos == r.pos + SampleStep &&
      r'.nextTick >= r'.pos &&
      |rest| <= |log| && rest == log[pops..] &&
      r'.nextTick == r.nextTick + pops as real * TickDelta &&
      (pops > 0 ==> r'.nextTick - TickDelta < r'.pos && r'.value == log[pops - 1]) &&
      (pops == 0 ==> r'.value == r.value)
    ensures SampleFromLog(r, log).Err? <==> r.nextTick + |log| as real * TickDelta < r.pos + SampleStep
  {
    ConsumeDueFacts(r.value, r.nextTick, r.pos + SampleStep, log);
  }

  /** `n` calls of `i_sampleFromLog` in a row: the statics after them, the
      rest of the log and the value held by each call, in order. */
  function Reads(r: LogReader, log: seq<real>, n: nat): (res: Result<(LogReader, seq<real>, seq<real>), LogError>)
    ensures res.Ok? ==> |res.value.2| == n
    decreases n
  {
    if n == 0 then Ok((r, log, []))
    else
      var step := SampleFromLog(r, log);
      if step.Err? then Err(step.error)
      else
        var more := Reads(step.value.0, step.value.1, n - 1);
        if more.Err? then Err(more.error)
        else Ok((more.value.0, more.value.1, [step.value.0.value] + more.value.2))
  }

  /** What `n` successful calls do to the statics: the playback time moves
      on by `n` samples, the log loses a prefix and the time of the next
      reading moves by one tick per reading consumed. */
  lemma {:induction false} ReadsAdvance(r: LogReader, log: seq<real>, n: nat)
    ensures var res := Reads(r, log, n);
      res.Ok? ==>
      var (r', rest, held) := res.value;
      r'.pos == r.pos + n as real * SampleStep &&
      |rest| <= |log| && rest == log[|log| - |rest|..] &&
      r'.nextTick + |rest| as real * TickDelta == r.nextTick + |log| as real * TickDelta &&
      (n > 0 ==> r'.nextTick >= r'.pos)
    decreases n
  {
    if n == 0 {
      assert log[0..] == log;
    } else if SampleFromLog(r, log).Ok? {
      var (r1, rest1) := SampleFromLog(r, log).value;
      SampleFromLogFacts(r, log);
      ReadsAdvance(r1, rest1, n - 1);
      ReadsAdvanceStep(r, log, n);
    }
  }

  lemma ReadsAdvanceStep(r: LogReader, log: seq<real>, n: nat)
    requires n > 0 && SampleFromLog(r, log).Ok?
    requires var (r1, rest1) := SampleFromLog(r, log).value;
      var res := Reads(r1, rest1, n - 1);
      res.Ok? ==>
      var (r', rest, held) := res.value;
      r'.pos == r1.pos + (n - 1) as real * SampleStep &&
      |rest| <= |rest1| && rest == rest1[|rest1| - |rest|..] &&
      r'.nextTick + |rest| as real * TickDelta == r1.nextTick + |rest1| as real * TickDelta &&
      (n - 1 > 0 ==> r'.nextTick >= r'.pos)
    ensures var res := Reads(r, log, n);
      res.Ok? ==>
      var (r', rest, held) := res.value;
      r'.pos == r.pos + n as real * SampleStep &&
      |rest| <= |log| && rest == log[|log| - |rest|..] &&
      r'.nextTick + |rest| as real * TickDelta == r.nextTick + |log| as real * TickDelta &&
      r'.nextTick >= r'.pos
  {
    var (r1, rest1) := SampleFromLog(r, log).value;
    SampleFromLogFacts(r, log);
    var more := Reads(r1, rest1, n - 1);
    if more.Ok? {
      var rest2 := more.value.1;
      assert rest1 == log[|log| - |rest1|..];
      assert rest2 == log[|log| - |rest2|..];
    }
  }

  /** The calls fail exactly when the log holds too few readings to cover
      the `n` samples. */
  lemma {:induction false} ReadsRunsOut(r: LogReader, log: seq<real>, n: nat)
    ensures Reads(r, log, n).Err? <==> n > 0 && r.nextTick + |log| as real * TickDelta < r.pos + n as real * SampleStep
    decreases n
  {
    if n > 0 {
      var step := SampleFromLog(r, log);
      SampleFromLogFacts(r, log);
      if step.Ok? {
        var (r1, rest1) := step.value;
        ReadsRunsOut(r1, rest1, n - 1);
        assert r1.nextTick + |rest1| as real * TickDelta == r.nextTick + |log| as real * TickDelta;
        assert r1.pos + (n - 1) as real * SampleStep == r.pos + n as real * SampleStep;
      } else {
        assert r.pos + SampleStep <= r.pos + n as real * SampleStep;
      }
    }
  }

  /** One sample of engine noise: the uniform draw scaled by the reading
      held for it, offset by 100000 and divided by 2e6. */
  function NoiseSample(draw: real, value: real): real
  {
    draw * ((value - 100000.0) / 2000000.0)
  }

  /** `placeSamples`: adds scaled noise to every one of the `n` entries,
      each scaled by the reading held for that sample, and returns 0.
      `noise(i)` is the `i`-th uniform draw in [-0.5, 0.5]. Besides the
      count, the result holds the new statics, the rest of the log, the
      buffer and the readings that were held, one per sample: they are
      those of `n` calls of `i_sampleFromLog`, and the log underflows
      exactly when it holds too few readings for the `n` samples. */
  method PlaceSamples(r: LogReader, log: seq<real>, buffer: seq<real>, n: nat, noise: nat -> real)
    returns (res: Result<(LogReader, seq<real>, seq<real>, seq<real>), LogError>, count: nat)
    requires n <= |buffer|
    ensures count == 0
    ensures res.Ok? <==> Reads(r, log, n).Ok?
    ensures res.Err? <==> n > 0 && r.nextTick + |log| as real * TickDelta < r.pos + n as real * SampleStep
    ensures res.Ok? ==> Reads(r, log, n).value == (res.value.0, res.value.1, res.value.3)
    ensures res.Ok? ==>
      var buffer' := res.value.2;
      var held := res.value.3;
      |buffer'| == |buffer| && |held| == n &&
      (forall i :: 0 <= i < n ==> buffer'[i] == buffer[i] + NoiseSample(noise(i), held[i])) &&
      (forall i :: n <= i < |buffer| ==> buffer'[i] == buffer[i])
  {
    count := 0;
    var cur := r;
    var rest := log;
    var buf := buffer;
    var held: seq<real> := [];
    var i := 0;
    assert Reads(r, log, 0) == Ok((cur, rest, held));
    while i < n
      invariant 0 <= i <= n && |held| == i
      invariant |buf| == |buffer|
      invariant forall j :: 0 <= j < i ==> buf[j] == buffer[j] + NoiseSample(noise(j), held[j])
      invariant forall j :: i <= j < |buffer| ==> buf[j] == buffer[j]
      invariant Reads(r, log, i) == Ok((cur, rest, held))
    {
      var step := SampleFromLog(cur, rest);
      if step.Err? {
        ReadsSnoc(r, log, i, cur, rest, held);
        ReadsRunsOut(r, log, i + 1);
        ReadsRunsOut(r, log, n);
        assert r.pos + (i + 1) as real * SampleStep <= r.pos + n as real * SampleStep;
        return Err(step.error), 0;
      }
      ReadsSnoc(r, log, i, cur, rest, held);
      cur, rest := step.value.0, step.value.1;
      held := held + [cur.value];
      buf := buf[i := buf[i] + NoiseSample(noise(i), cur.value)];
      i := i + 1;
    }
    res := Ok((cur, rest, buf, held));
    ReadsRunsOut(r, log, n);
  }

  /** One more call extends a successful run: it fails if the call fails,
      and otherwise holds one more value. */
  lemma {:induction false} ReadsSnoc(r: LogReader, log: seq<real>, k: nat, c: LogReader, rest: seq<real>, held: seq<real>)
    requires Reads(r, log, k) == Ok((c, rest, held))
    ensures var step := SampleFromLog(c, rest);
      Reads(r, log, k + 1) ==
        if step.Err? then Err(step.error) else Ok((step.value.0, step.value.1, held + [step.value.0.value]))
    decreases k
  {
    var step := SampleFromLog(r, log);
    if k == 0 {
      if step.Ok? {
        assert [step.value.0.value] + [] == [] + [step.value.0.value];
      }
    } else {
      var (r1, rest1) := step.value;
      var (_, _, held1) := Reads(r1, rest1, k - 1).value;
      ReadsSnoc(r1, rest1, k - 1, c, rest, held1);
      var step' := SampleFromLog(c, rest);
      if step'.Ok? {
        AppendAssoc([r1.value], held1, [step'.value.0.value]);
      }
    }
  }

  /** The process-wide instance: which producer `getInstance` hands out,
      and how many have been created (each gets the next number). */
  datatype Registry = Registry(instance: Option<nat>, created: nat)

  const EmptyRegistry: Registry := Registry(None, 0)

  predicate RegistryValid(g: Registry)
  {
    g.instance.Some? ==> g.instance.value < g.created
  }

  /** `getInstance`: creates the producer on first use, then always hands
      out the same one. */
  function GetInstance(g: Registry): (r: (Registry, nat))
    requires RegistryValid(g)
    ensures RegistryValid(r.0) && r.0.instance == Some(r.1)
    ensures g.instance.Some? ==> r == (g, g.instance.value)
    ensures g.instance.None? ==> r.1 == g.created && r.0.created == g.created + 1
  {
    match g.instance
    case Some(p) => (g, p)
    case None => (Registry(Some(g.created), g.created + 1), g.created)
  }

  /** Every call after the first returns the same producer and changes nothing. */
  lemma GetInstanceStable(g: Registry)
    requires RegistryValid(g)
    ensures GetInstance(GetInstance(g).0) == GetInstance(g)
  {
  }

  /** The destructor installs a brand-new instance. */
  function Destroy(g: Registry): (r: Registry)
    requires RegistryValid(g)
    ensures RegistryValid(r) && r.instance == Some(g.created) && r.created == g.created + 1
    ensures g.instance.Some? ==> GetInstance(r).1 != g.instance.value
  {
    Registry(Some(g.created), g.created + 1)
  }

  /** What the producer reads from: the resampler statics and the log. */
  datatype EngineFeed = EngineFeed(reader: LogReader, log: seq<real>)

  /** `placeSamples` as a producer's render call, onto a silent window:
      the samples are the noise of `PlaceSamples` for the readings of `n`
      calls of `i_sampleFromLog`. The source reads past the end of the
      deque when the log runs out; here the feed is then left as it was
      and nothing is added. */
  function EnginePlace(noise: nat -> real, feed: EngineFeed, n: nat): (r: (EngineFeed, seq<real>))
    ensures |r.1| <= n
    ensures Reads(feed.reader, feed.log, n).Ok? ==>
      var (reader', rest, held) := Reads(feed.reader, feed.log, n).value;
      r.0 == EngineFeed(reader', rest) && |r.1| == n &&
      forall i :: 0 <= i < n ==> r.1[i] == NoiseSample(noise(i), held[i])
    ensures Reads(feed.reader, feed.log, n).Err? ==> r == (feed, [])
  {
    var rd := Reads(feed.reader, feed.log, n);
    if rd.Err? then (feed, [])
    else (EngineFeed(rd.value.0, rd.value.1), seq(n, i requires 0 <= i < n => NoiseSample(noise(i), rd.value.2[i])))
  }

  /** The producer as the mixer sees it: `place` is how it renders
      (`EnginePlace` for the engine); its duration is 0.0 and it never
      expires. */
  function EngineOps(place: (EngineFeed, nat) -> (EngineFeed, seq<real>)): (ops: ProducerOps<EngineFeed>)
    ensures forall p: EngineFeed :: ops.duration(p) == 0.0 && !ops.expired(p)
  {
    ProducerOps(place, (p: EngineFeed) => 0.0, (p: EngineFeed) => false)
  }

  /** Engine events are never retired or evicted: their producer never
      expires and is static. */
  lemma EngineNeverRemoved(place: (EngineFeed, nat) -> (EngineFeed, seq<real>), evs: seq<Event<EngineFeed>>, bt: real)
    ensures Retire(evs, bt, EngineOps(place)).1 == 0
    ensures Evict(evs, EngineOps(place)) == (evs, 0)
  {
    var ops := EngineOps(place);
    assert forall k :: 0 <= k < |evs| ==> !ops.expired(evs[k].producer);
    assert forall k :: 0 <= k < |evs| ==> IsStatic(ops)(evs[k]);
  }
}
