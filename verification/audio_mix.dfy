/** One block of the audio stream's fill loop: each insert's events are
    placed into a work buffer and run through the insert's filter chain
    (the insert gain, and each event's gain and pitch, are kept but not
    applied), the inserts are summed, finished events retire, and the sum
    is converted to 16-bit samples. */
module AudioMix {
  import opened Common
  import opened AudioEvent
  import opened AudioInsert

  const SampleRate: nat := 44100
  const SamplesPerBuffer: nat := 1024

  /** Seconds covered by one block: 1024 / 44100. */
  const BufferDuration: real := 1024.0 / 44100.0

  /** Peak magnitude written by the float to 16-bit conversion. */
  const Int16Peak: int := 32767

  predicate InRange16(q: seq<int>)
  {
    forall i :: 0 <= i < |q| ==> -Int16Peak <= q[i] <= Int16Peak
  }

  // ---------------------------------------------------------------------
  // Mixing one block
  // ---------------------------------------------------------------------

  /** An unstarted event begins in the block at `bt` iff its start time
      falls strictly inside the block. */
  predicate StartsInBlock<P>(e: Event<P>, bt: real)
  {
    !e.hasStarted && bt < e.startTime && e.startTime < bt + BufferDuration
  }

  /** The event contributes to the block at `bt`. */
  predicate Playing<P>(e: Event<P>, bt: real)
  {
    e.hasStarted || StartsInBlock(e, bt)
  }

  /** The sample offset of a starting event: the time difference is cast to
      `int` before it is scaled by the sample rate. */
  function SampleStart(startTime: real, bt: real): (r: int)
    ensures r % SampleRate == 0
    ensures 0.0 <= startTime - bt < 1.0 ==> r == 0
  {
    TruncToInt(startTime - bt) * SampleRate
  }

  /** Adds `c` into `buf` from position `start` on; samples that would land
      past the end of the buffer are not written. */
  function AddAt(buf: seq<real>, start: nat, c: seq<real>): (r: seq<real>)
    ensures |r| == |buf|
  {
    seq(|buf|, i requires 0 <= i < |buf| => buf[i] + (if start <= i < start + |c| then c[i - start] else 0.0))
  }

  /** Sample `i` of a contribution, 0 outside it. */
  function SampleOf(c: seq<real>, i: int): real
  {
    if 0 <= i < |c| then c[i] else 0.0
  }

  /** What the producer of a playing event adds to the block at `bt`. */
  function Contribution<P>(e: Event<P>, bt: real, ops: ProducerOps<P>): seq<real>
  {
    if Playing(e, bt) then ops.place(e.producer, SamplesPerBuffer).1 else []
  }

  /** The per-event effect of a mixing pass: a playing event is started and
      its producer advanced by one full block; every other field stays. */
  ghost predicate Stepped<P>(e: Event<P>, e': Event<P>, bt: real, ops: ProducerOps<P>)
  {
    && e'.hasStarted == Playing(e, bt)
    && e'.producer == (if Playing(e, bt) then ops.place(e.producer, SamplesPerBuffer).0 else e.producer)
    && e'.startTime == e.startTime && e'.gain == e.gain && e'.pitch == e.pitch && e'.samplePos == e.samplePos
  }

  /** One event of the insert loop. Because the start offset is always 0 for
      an event starting inside the block, a starting event is asked for a
      whole block, written from the first sample. */
  function MixEvent<P>(e: Event<P>, bt: real, ops: ProducerOps<P>, buf: seq<real>): (r: (Event<P>, seq<real>))
    ensures Stepped(e, r.0, bt, ops)
    ensures |r.1| == |buf|
    ensures forall i :: 0 <= i < |buf| ==> r.1[i] == buf[i] + SampleOf(Contribution(e, bt, ops), i)
  {
    if StartsInBlock(e, bt) then
      var start := SampleStart(e.startTime, bt);
      var placed := ops.place(e.producer, SamplesPerBuffer - start);
      (e.(hasStarted := true, producer := placed.0), AddAt(buf, start, placed.1))
    else if e.hasStarted then
      var placed := ops.place(e.producer, SamplesPerBuffer);
      (e.(producer := placed.0), AddAt(buf, 0, placed.1))
    else
      (e, buf)
  }

  /** The summed contributions of a list of events at sample `i`. */
  function ContributionSum<P>(evs: seq<Event<P>>, bt: real, ops: ProducerOps<P>, i: int): real
  {
    if evs == [] then 0.0 else SampleOf(Contribution(evs[0], bt, ops), i) + ContributionSum(evs[1..], bt, ops, i)
  }

  /** The event loop of one insert, front to back. The events' effects are
      independent of each other, and the buffer gains their summed
      contributions. */
  function MixEvents<P>(evs: seq<Event<P>>, bt: real, ops: ProducerOps<P>, buf: seq<real>): (r: (seq<Event<P>>, seq<real>))
    ensures |r.0| == |evs| && |r.1| == |buf|
    ensures forall k :: 0 <= k < |evs| ==> Stepped(evs[k], r.0[k], bt, ops)
    ensures forall i :: 0 <= i < |buf| ==> r.1[i] == buf[i] + ContributionSum(evs, bt, ops, i)
  {
    if evs == [] then ([], buf)
    else
      var first := MixEvent(evs[0], bt, ops, buf);
      var rest := MixEvents(evs[1..], bt, ops, first.1);
      ([first.0] + rest.0, rest.1)
  }

  /** The dry (pre-filter) signal of an insert. */
  function DrySignal<P>(evs: seq<Event<P>>, bt: real, ops: ProducerOps<P>): (r: seq<real>)
    ensures |r| == SamplesPerBuffer
  {
    seq(SamplesPerBuffer, i => ContributionSum(evs, bt, ops, i))
  }

  /** One insert: mix its events into a zeroed block, then run the block
      through its filter chain. */
  function MixInsert<P>(ins: Insert<P>, bt: real, ops: ProducerOps<P>, fx: FilterBank): (r: (Insert<P>, seq<real>))
    ensures |r.1| == SamplesPerBuffer
    ensures r.1 == ApplyFilters(ins.filters, fx, DrySignal(ins.events, bt, ops))
    ensures r.0.id == ins.id && r.0.gain == ins.gain && r.0.filters == ins.filters
    ensures |r.0.events| == |ins.events|
    ensures forall k :: 0 <= k < |ins.events| ==> Stepped(ins.events[k], r.0.events[k], bt, ops)
  {
    var mixed := MixEvents(ins.events, bt, ops, seq(SamplesPerBuffer, _ => 0.0));
    assert mixed.1 == DrySignal(ins.events, bt, ops);
    (ins.(events := mixed.0), ApplyFilters(ins.filters, fx, mixed.1))
  }

  /** The wet signals of a list of inserts, summed at sample `i`. */
  function InsertSum<P>(inserts: seq<Insert<P>>, bt: real, ops: ProducerOps<P>, fx: FilterBank, i: nat): real
    requires i < SamplesPerBuffer
  {
    if inserts == [] then 0.0 else MixInsert(inserts[0], bt, ops, fx).1[i] + InsertSum(inserts[1..], bt, ops, fx, i)
  }

  /** The insert loop: every insert is mixed, and the work buffer gains the
      sum of their filtered signals. */
  function MixInserts<P>(inserts: seq<Insert<P>>, bt: real, ops: ProducerOps<P>, fx: FilterBank, work: seq<real>)
    : (r: (seq<Insert<P>>, seq<real>))
    requires |work| == SamplesPerBuffer
    ensures |r.0| == |inserts| && |r.1| == SamplesPerBuffer
    ensures forall k :: 0 <= k < |inserts| ==> r.0[k] == MixInsert(inserts[k], bt, ops, fx).0
    ensures forall i :: 0 <= i < SamplesPerBuffer ==> r.1[i] == work[i] + InsertSum(inserts, bt, ops, fx, i)
  {
    if inserts == [] then ([], work)
    else
      var first := MixInsert(inserts[0], bt, ops, fx);
      var work' := seq(SamplesPerBuffer, i requires 0 <= i < SamplesPerBuffer => work[i] + first.1[i]);
      var rest := MixInserts(inserts[1..], bt, ops, fx, work');
      ([first.0] + rest.0, rest.1)
  }

  // ---------------------------------------------------------------------
  // Retiring and evicting events
  // ---------------------------------------------------------------------

  /** An event whose producer has no positive duration (a static producer). */
  function IsStatic<P>(ops: ProducerOps<P>): Event<P> -> bool
  {
    (e: Event<P>) => !(ops.duration(e.producer) > 0.0)
  }

  /** A late unstarted event is marked started so that it plays from the
      next block on. */
  function MarkLate<P>(e: Event<P>, bt: real): Event<P>
  {
    if !e.hasStarted && e.startTime < bt then e.(hasStarted := true) else e
  }

  /** Whether an event's producer has not expired. */
  function IsLive<P>(ops: ProducerOps<P>): Event<P> -> bool
  {
    (e: Event<P>) => !ops.expired(e.producer)
  }

  /** Every event of `evs`, with the late ones marked started. */
  function MarkAllLate<P>(evs: seq<Event<P>>, bt: real): (r: seq<Event<P>>)
  {
    if evs == [] then [] else [MarkLate(evs[0], bt)] + MarkAllLate(evs[1..], bt)
  }

  /** The first `remove_if` pass: drop events with expired producers, count
      them, and let surviving late events play. `remove_if` is stable, so
      the survivors are the live events in their original order. */
  function Retire<P>(evs: seq<Event<P>>, bt: real, ops: ProducerOps<P>): (r: (seq<Event<P>>, nat))
    ensures |r.0| + r.1 == |evs|
    ensures forall k :: 0 <= k < |r.0| ==> !ops.expired(r.0[k].producer)
    ensures forall k :: 0 <= k < |r.0| ==> r.0[k].hasStarted || bt <= r.0[k].startTime
    ensures forall k :: 0 <= k < |evs| && !ops.expired(evs[k].producer) ==> MarkLate(evs[k], bt) in r.0
    ensures (forall k :: 0 <= k < |evs| ==> !ops.expired(evs[k].producer)) ==> r.1 == 0
  {
    if evs == [] then ([], 0)
    else
      var rest := Retire(evs[1..], bt, ops);
      if ops.expired(evs[0].producer) then (rest.0, rest.1 + 1)
      else
        assert forall k :: 1 <= k < |evs| ==> evs[k] == evs[1..][k - 1];
        ([MarkLate(evs[0], bt)] + rest.0, rest.1)
  }

  /** The survivors of `Retire` are exactly the live events, in their
      original order, with the late ones marked started; so each comes
      from an event of the input. */
  lemma {:induction false} RetireIsLiveFilter<P>(evs: seq<Event<P>>, bt: real, ops: ProducerOps<P>)
    ensures Retire(evs, bt, ops).0 == MarkAllLate(Filter(evs, IsLive(ops)), bt)
  {
    if evs != [] {
      RetireIsLiveFilter(evs[1..], bt, ops);
      var f := Filter(evs[1..], IsLive(ops));
      if !ops.expired(evs[0].producer) {
        assert Retire(evs, bt, ops).0 == [MarkLate(evs[0], bt)] + Retire(evs[1..], bt, ops).0;
        assert Filter(evs, IsLive(ops)) == [evs[0]] + f;
        assert ([evs[0]] + f)[1..] == f;
      } else {
        assert Retire(evs, bt, ops).0 == Retire(evs[1..], bt, ops).0;
        assert Filter(evs, IsLive(ops)) == [] + f;
        assert [] + f == f;
      }
    }
  }

  /** Retiring splits over concatenation: the survivors of `a + b` are
      those of `a` followed by those of `b`. */
  lemma RetireAppend<P>(a: seq<Event<P>>, b: seq<Event<P>>, bt: real, ops: ProducerOps<P>)
    ensures Retire(a + b, bt, ops).0 == Retire(a, bt, ops).0 + Retire(b, bt, ops).0
  {
    RetireIsLiveFilter(a + b, bt, ops);
    RetireIsLiveFilter(a, bt, ops);
    RetireIsLiveFilter(b, bt, ops);
    FilterAppend(a, b, IsLive(ops));
    MarkAllLateAppend(Filter(a, IsLive(ops)), Filter(b, IsLive(ops)), bt);
  }

  lemma {:induction false} MarkAllLateAppend<P>(a: seq<Event<P>>, b: seq<Event<P>>, bt: real)
    ensures MarkAllLate(a + b, bt) == MarkAllLate(a, bt) + MarkAllLate(b, bt)
  {
    if a == [] {
      assert a + b == b;
    } else {
      assert (a + b)[1..] == a[1..] + b;
      MarkAllLateAppend(a[1..], b, bt);
      AppendAssoc([MarkLate(a[0], bt)], MarkAllLate(a[1..], bt), MarkAllLate(b, bt));
    }
  }

  /** The overrun `remove_if` pass: drop every event whose producer has a
      positive duration. */
  function Evict<P>(evs: seq<Event<P>>, ops: ProducerOps<P>): (r: (seq<Event<P>>, nat))
    ensures |r.0| + r.1 == |evs|
    ensures forall k :: 0 <= k < |r.0| ==> !(ops.duration(r.0[k].producer) > 0.0)
    ensures forall k :: 0 <= k < |evs| && !(ops.duration(evs[k].producer) > 0.0) ==> evs[k] in r.0
    ensures forall e :: e in r.0 ==> e in evs
  {
    var kept := Filter(evs, IsStatic(ops));
    (kept, |evs| - |kept|)
  }

  /** Eviction splits over concatenation, so it keeps the survivors'
      order: with the per-event facts of `Evict` this pins its result. */
  lemma EvictAppend<P>(a: seq<Event<P>>, b: seq<Event<P>>, ops: ProducerOps<P>)
    ensures Evict(a + b, ops).0 == Evict(a, ops).0 + Evict(b, ops).0
    ensures Evict(a + b, ops).1 == Evict(a, ops).1 + Evict(b, ops).1
  {
    FilterAppend(a, b, IsStatic(ops));
  }

  /** Applies a pass to every insert's events, summing the removals. */
  function RetireAll<P>(inserts: seq<Insert<P>>, bt: real, ops: ProducerOps<P>): (r: (seq<Insert<P>>, nat))
    ensures |r.0| == |inserts|
    ensures forall k :: 0 <= k < |inserts| ==> r.0[k] == inserts[k].(events := Retire(inserts[k].events, bt, ops).0)
    ensures TotalEvents(r.0) + r.1 == TotalEvents(inserts)
  {
    if inserts == [] then ([], 0)
    else
      var first := Retire(inserts[0].events, bt, ops);
      var rest := RetireAll(inserts[1..], bt, ops);
      ([inserts[0].(events := first.0)] + rest.0, first.1 + rest.1)
  }

  function EvictAll<P>(inserts: seq<Insert<P>>, ops: ProducerOps<P>): (r: (seq<Insert<P>>, nat))
    ensures |r.0| == |inserts|
    ensures forall k :: 0 <= k < |inserts| ==> r.0[k] == inserts[k].(events := Evict(inserts[k].events, ops).0)
    ensures TotalEvents(r.0) + r.1 == TotalEvents(inserts)
  {
    if inserts == [] then ([], 0)
    else
      var first := Evict(inserts[0].events, ops);
      var rest := EvictAll(inserts[1..], ops);
      ([inserts[0].(events := first.0)] + rest.0, first.1 + rest.1)
  }

  // ---------------------------------------------------------------------
  // Quantisation
  // ---------------------------------------------------------------------

  /** Clamp to [-1, 1], scale by 32767 and truncate toward zero. */
  function QuantizeSample(x: real): (q: int)
    ensures -Int16Peak <= q <= Int16Peak
    ensures x == 0.0 ==> q == 0
    ensures x >= 1.0 ==> q == Int16Peak
    ensures x <= -1.0 ==> q == -Int16Peak
    ensures x >= 0.0 ==> q >= 0
    ensures x <= 0.0 ==> q <= 0
  {
    TruncToInt(Clamp(x, -1.0, 1.0) * 32767.0)
  }

  lemma QuantizeMonotone(x: real, y: real)
    requires x <= y
    ensures QuantizeSample(x) <= QuantizeSample(y)
  {
    var a := Clamp(x, -1.0, 1.0) * 32767.0;
    var b := Clamp(y, -1.0, 1.0) * 32767.0;
    assert a <= b;
  }

  function Quantize(work: seq<real>): (q: seq<int>)
    ensures |q| == |work|
    ensures InRange16(q)
    ensures forall i :: 0 <= i < |work| ==> q[i] == QuantizeSample(work[i])
  {
    seq(|work|, i requires 0 <= i < |work| => QuantizeSample(work[i]))
  }

  lemma QuantizeSilence(n: nat)
    ensures Quantize(seq(n, _ => 0.0)) == seq(n, _ => 0)
  {
  }

  lemma {:induction false} MixInsertsKeepsCount<P>(inserts: seq<Insert<P>>, bt: real, ops: ProducerOps<P>, fx: FilterBank, work: seq<real>)
    requires |work| == SamplesPerBuffer
    ensures TotalEvents(MixInserts(inserts, bt, ops, fx, work).0) == TotalEvents(inserts)
  {
    if inserts != [] {
      var first := MixInsert(inserts[0], bt, ops, fx);
      var work' := seq(SamplesPerBuffer, i requires 0 <= i < SamplesPerBuffer => work[i] + first.1[i]);
      MixInsertsKeepsCount(inserts[1..], bt, ops, fx, work');
    }
  }

}
