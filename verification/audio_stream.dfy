/** EMAudioStream: a fixed pool of sample slots cycling between an input
    queue (to be filled) and an output queue (ready for the device), a
    logical clock `bufferTime`, and the inserts whose events are mixed into
    16-bit slots one block at a time.

    Each public call is one atomic step (the stream mutex is modelled away).
    The wall clock is an explicit parameter. */
module AudioStream {
  import opened Common
  import opened AudioEvent
  import opened AudioInsert
  import opened AudioMix

  const PoolSize: nat := 3
  /** Samples in the whole pool allocation. */
  const PoolLength: nat := 3072

  /** How far behind the wall clock the stream schedules: 1.2 pool lengths. */
  const CompensationDelay: real := BufferDuration * 3.0 * 1.2

  /** The slot ids in construction order, 0 .. PoolSize-1. */
  const AllSlots: seq<nat> := [0, 1, 2]

  // ---------------------------------------------------------------------
  // The stream state
  // ---------------------------------------------------------------------

  datatype Stream<P> = Stream(
    inserts: seq<Insert<P>>,
    input: seq<nat>,
    output: seq<nat>,
    pool: seq<int>,
    bufferTime: real,
    timeStarted: real,
    nbEvents: int)

  /** First sample of slot `id` in the pool allocation. */
  function SlotBase(id: nat): nat
  {
    SamplesPerBuffer * id
  }

  /** Slots own pairwise disjoint windows of the pool allocation. */
  lemma RegionsDisjoint(i: nat, j: nat)
    requires i < PoolSize && j < PoolSize && i != j
    ensures SlotBase(i) + SamplesPerBuffer <= SlotBase(j) || SlotBase(j) + SamplesPerBuffer <= SlotBase(i)
    ensures SlotBase(i) + SamplesPerBuffer <= PoolLength
  {
  }

  /** The samples a slot's `data` pointer designates. */
  function Region(pool: seq<int>, id: nat): (r: seq<int>)
    requires |pool| == PoolLength && id < PoolSize
    ensures |r| == SamplesPerBuffer
  {
    pool[SlotBase(id) .. SlotBase(id) + SamplesPerBuffer]
  }

  /** Writing one slot's samples leaves every other slot's samples as they
      were. */
  function WriteRegion(pool: seq<int>, id: nat, q: seq<int>): (r: seq<int>)
    requires |pool| == PoolLength && id < PoolSize && |q| == SamplesPerBuffer
    ensures |r| == PoolLength
    ensures Region(r, id) == q
    ensures forall j :: 0 <= j < PoolSize && j != id ==> Region(r, j) == Region(pool, j)
  {
    pool[..SlotBase(id)] + q + pool[SlotBase(id) + SamplesPerBuffer ..]
  }

  /** The stream invariant: the two queues together hold every slot id
      exactly once, the main insert exists, and every slot waiting on the
      output queue holds converted 16-bit samples. */
  ghost predicate Valid<P>(s: Stream<P>)
  {
    && |s.pool| == PoolLength
    && |s.inserts| >= 1
    && multiset(s.input) + multiset(s.output) == multiset{0, 1, 2}
    && (forall k :: 0 <= k < |s.input| ==> s.input[k] < PoolSize)
    && (forall k :: 0 <= k < |s.output| ==> s.output[k] < PoolSize && InRange16(Region(s.pool, s.output[k])))
  }

  /** `m_nbEvents` agrees with the number of events actually held. */
  ghost predicate Counted<P>(s: Stream<P>)
  {
    s.nbEvents == TotalEvents(s.inserts)
  }

  /** Every queued id names a slot of the pool, and no id is on both queues
      or twice on one queue. */
  lemma SlotFacts<P>(s: Stream<P>)
    requires Valid(s)
    ensures |s.input| + |s.output| == PoolSize
    ensures forall k :: 0 <= k < |s.input| ==> s.input[k] < PoolSize
    ensures forall k :: 0 <= k < |s.input| ==> s.input[k] !in s.output
  {
    assert |multiset(s.input)| + |multiset(s.output)| == |multiset{0, 1, 2}|;
    forall k | 0 <= k < |s.input|
      ensures s.input[k] < PoolSize && s.input[k] !in s.output
    {
      var x := s.input[k];
      assert x in multiset(s.input);
      assert x in multiset{0, 1, 2};
      assert multiset{0, 1, 2}[x] == 1;
      assert multiset(s.output)[x] == 0;
    }
  }

  /** Construction: every slot on the input queue in id order, an empty
      output queue, the clock one compensation delay before zero, no
      events, and the main insert with id 0. Fresh pool memory is taken
      to be zero. */
  function Init<P>(now: real): (s: Stream<P>)
    ensures Valid(s) && Counted(s)
    ensures s.input == AllSlots && s.output == []
    ensures s.bufferTime == -CompensationDelay && s.timeStarted == now
    ensures |s.inserts| == 1 && s.inserts[0].id == 0 && s.inserts[0].events == []
  {
    Stream([EmptyInsert(0)], AllSlots, [], seq(PoolLength, _ => 0), -CompensationDelay, now, 0)
  }

  // ---------------------------------------------------------------------
  // Submitting events and managing inserts
  // ---------------------------------------------------------------------

  /** The insert an event goes to: the requested one if it exists, else the
      main insert. */
  function TargetInsert<P>(s: Stream<P>, insertIndex: int): (k: nat)
    requires |s.inserts| >= 1
    ensures k < |s.inserts|
    ensures 0 <= insertIndex < |s.inserts| ==> k == insertIndex
    ensures !(0 <= insertIndex < |s.inserts|) ==> k == 0
  {
    if |s.inserts| <= insertIndex || insertIndex < 0 then 0 else insertIndex
  }

  /** Shared body of play / playIn / playAt: count the event, copy it to the
      front of the target insert's list and stamp its start time. */
  function Submit<P>(s: Stream<P>, e: Event<P>, startTime: real, insertIndex: int): (r: Stream<P>)
    requires Valid(s)
    ensures Valid(r)
    ensures Counted(s) ==> Counted(r)
    ensures r.nbEvents == s.nbEvents + 1
    ensures |r.inserts| == |s.inserts|
    ensures r.inserts[TargetInsert(s, insertIndex)].events
            == [e.(startTime := startTime)] + s.inserts[TargetInsert(s, insertIndex)].events
    ensures forall j :: 0 <= j < |s.inserts| && j != TargetInsert(s, insertIndex) ==> r.inserts[j] == s.inserts[j]
    ensures r.input == s.input && r.output == s.output && r.pool == s.pool
    ensures r.bufferTime == s.bufferTime && r.timeStarted == s.timeStarted
  {
    var k := TargetInsert(s, insertIndex);
    var evs := [e.(startTime := startTime)] + s.inserts[k].events;
    TotalEventsUpdate(s.inserts, k, evs);
    s.(nbEvents := s.nbEvents + 1, inserts := s.inserts[k := s.inserts[k].(events := evs)])
  }

  /** `play`: start as soon as possible (wall clock `now`). */
  function Play<P>(s: Stream<P>, e: Event<P>, insertIndex: int, now: real): (r: Stream<P>)
    requires Valid(s)
    ensures Valid(r) && r.nbEvents == s.nbEvents + 1 && |r.inserts| == |s.inserts|
    ensures r.inserts[TargetInsert(s, insertIndex)].events
            == [e.(startTime := now)] + s.inserts[TargetInsert(s, insertIndex)].events
  {
    Submit(s, e, now, insertIndex)
  }

  /** `playIn`: start `seconds` after the wall clock. */
  function PlayIn<P>(s: Stream<P>, e: Event<P>, seconds: real, insertIndex: int, now: real): (r: Stream<P>)
    requires Valid(s)
    ensures Valid(r) && r.nbEvents == s.nbEvents + 1 && |r.inserts| == |s.inserts|
    ensures r.inserts[TargetInsert(s, insertIndex)].events
            == [e.(startTime := now + seconds)] + s.inserts[TargetInsert(s, insertIndex)].events
  {
    Submit(s, e, now + seconds, insertIndex)
  }

  /** `playAt`: start at an absolute stream time. */
  function PlayAt<P>(s: Stream<P>, e: Event<P>, seconds: real, insertIndex: int): (r: Stream<P>)
    requires Valid(s)
    ensures Valid(r) && r.nbEvents == s.nbEvents + 1 && |r.inserts| == |s.inserts|
    ensures r.inserts[TargetInsert(s, insertIndex)].events
            == [e.(startTime := seconds)] + s.inserts[TargetInsert(s, insertIndex)].events
  {
    Submit(s, e, seconds, insertIndex)
  }

  /** `newInsert`: append an insert whose id is its index. */
  function NewInsert<P>(s: Stream<P>): (r: (Stream<P>, nat))
    requires Valid(s)
    ensures Valid(r.0) && (Counted(s) ==> Counted(r.0))
    ensures r.1 == |s.inserts| && |r.0.inserts| == |s.inserts| + 1
    ensures r.0.inserts[r.1].id == r.1 && r.0.inserts[r.1].events == [] && r.0.inserts[r.1].filters == []
    ensures r.0.inserts[..|s.inserts|] == s.inserts
  {
    var ins := EmptyInsert(|s.inserts|);
    TotalEventsAppend(s.inserts, [ins]);
    assert TotalEvents([ins]) == 0;
    (s.(inserts := s.inserts + [ins]), |s.inserts|)
  }

  /** `getInsert` indexes the insert list without a check. */
  function GetInsert<P>(s: Stream<P>, id: nat): (r: Insert<P>)
    requires id < |s.inserts|
    ensures r in s.inserts && r == s.inserts[id]
  {
    s.inserts[id]
  }

  /** `getMainInsert`: the insert at index 0, which `removeInsert` never
      erases. */
  function GetMainInsert<P>(s: Stream<P>): (r: Insert<P>)
    requires Valid(s)
    ensures r == s.inserts[0]
  {
    GetInsert(s, 0)
  }

  /** What a caller can do through the `EMAudioInsert&` that `newInsert`,
      `getInsert` and `getMainInsert` hand out: the insert's public calls.
      Its event list is private to the stream. */
  datatype InsertEdit = SetGainEdit(gain: real) | AddFilterEdit(filter: nat) | RemoveFilterEdit(filter: nat)

  /** The insert after one of its public calls: the id and the events
      never change. */
  function ApplyEdit<P>(ins: Insert<P>, e: InsertEdit): (r: Insert<P>)
    ensures r.id == ins.id && r.events == ins.events
    ensures e.SetGainEdit? ==> r.gain == e.gain && r.filters == ins.filters
    ensures e.AddFilterEdit? ==> r.gain == ins.gain && r.filters == ins.filters + [e.filter]
    ensures e.RemoveFilterEdit? ==> r == ins
  {
    match e
    case SetGainEdit(g) => SetInsertGain(ins, g)
    case AddFilterEdit(f) => AddFilter(ins, f)
    case RemoveFilterEdit(f) => RemoveFilter(ins, f).0
  }

  /** A call made through the reference to insert `id` changes that insert
      of the stream in place; the stream is otherwise left alone. */
  function EditInsert<P>(s: Stream<P>, id: nat, e: InsertEdit): (r: Stream<P>)
    requires Valid(s) && id < |s.inserts|
    ensures Valid(r) && (Counted(s) ==> Counted(r))
    ensures |r.inserts| == |s.inserts| && r.inserts[id] == ApplyEdit(s.inserts[id], e)
    ensures forall j :: 0 <= j < |s.inserts| && j != id ==> r.inserts[j] == s.inserts[j]
    ensures r == s.(inserts := r.inserts)
  {
    var ins := ApplyEdit(s.inserts[id], e);
    TotalEventsReplace(s.inserts, id, ins);
    s.(inserts := s.inserts[id := ins])
  }

  /** Reading an insert back after a call through a reference: the edited
      insert shows the call, every other insert reads as before. */
  lemma GetAfterEdit<P>(s: Stream<P>, id: nat, e: InsertEdit, j: nat)
    requires Valid(s) && id < |s.inserts| && j < |s.inserts|
    ensures GetInsert(EditInsert(s, id, e), j) == if j == id then ApplyEdit(GetInsert(s, id), e) else GetInsert(s, j)
  {
  }

  /** Filters reach the mixer only this way: a filter added through the
      reference to a new insert is that insert's whole chain. */
  lemma NewInsertTakesFilter<P>(s: Stream<P>, f: nat)
    requires Valid(s)
    ensures var (s1, id) := NewInsert(s);
            GetInsert(EditInsert(s1, id, AddFilterEdit(f)), id).filters == [f]
  {
  }

  /** `removeInsert` erases the insert (never the main one), together with
      its events, but does not adjust `m_nbEvents`. */
  function RemoveInsert<P>(s: Stream<P>, id: nat): (r: Stream<P>)
    requires Valid(s) && 1 <= id < |s.inserts|
    ensures Valid(r)
    ensures r.inserts == s.inserts[..id] + s.inserts[id + 1..]
    ensures r.nbEvents == s.nbEvents
    ensures TotalEvents(r.inserts) == TotalEvents(s.inserts) - |s.inserts[id].events|
  {
    assert s.inserts == s.inserts[..id] + [s.inserts[id]] + s.inserts[id + 1..];
    TotalEventsAppend(s.inserts[..id] + [s.inserts[id]], s.inserts[id + 1..]);
    TotalEventsAppend(s.inserts[..id], [s.inserts[id]]);
    TotalEventsAppend(s.inserts[..id], s.inserts[id + 1..]);
    assert TotalEvents([s.inserts[id]]) == |s.inserts[id].events|;
    s.(inserts := s.inserts[..id] + s.inserts[id + 1..])
  }

  /** Removing an insert that still holds events leaves the event counter
      too high. */
  lemma RemoveInsertBreaksCount<P>(s: Stream<P>, id: nat)
    requires Valid(s) && Counted(s) && 1 <= id < |s.inserts|
    requires |s.inserts[id].events| > 0
    ensures !Counted(RemoveInsert(s, id))
  {
  }

  /** The stream is falling behind the wall clock. */
  predicate Overrun(now: real, bt: real)
  {
    now - bt > CompensationDelay * 2.0
  }

  // ---------------------------------------------------------------------
  // Filling slots
  // ---------------------------------------------------------------------

  /** The mixed work buffer of the block at the stream's current time. */
  function BlockSamples<P>(s: Stream<P>, ops: ProducerOps<P>, fx: FilterBank): (w: seq<real>)
    ensures |w| == SamplesPerBuffer
  {
    MixInserts(s.inserts, s.bufferTime, ops, fx, seq(SamplesPerBuffer, _ => 0.0)).1
  }

  /** The inserts after mixing and the expiry pass. */
  function Retired<P>(s: Stream<P>, ops: ProducerOps<P>, fx: FilterBank): (r: (seq<Insert<P>>, nat))
    ensures |r.0| == |s.inserts|
  {
    RetireAll(MixInserts(s.inserts, s.bufferTime, ops, fx, seq(SamplesPerBuffer, _ => 0.0)).0, s.bufferTime, ops)
  }

  /** The queue and pool half of one fill iteration: the front input slot
      receives `q` and moves to the back of the output queue. */
  function CommitSlot<P>(s: Stream<P>, q: seq<int>): (r: Stream<P>)
    requires Valid(s) && |s.input| > 0 && |q| == SamplesPerBuffer && InRange16(q)
    ensures Valid(r)
    ensures r.input == s.input[1..] && r.output == s.output + [s.input[0]]
    ensures Region(r.pool, s.input[0]) == q
    ensures forall j :: 0 <= j < PoolSize && j != s.input[0] ==> Region(r.pool, j) == Region(s.pool, j)
    ensures r.inserts == s.inserts && r.nbEvents == s.nbEvents
    ensures r.bufferTime == s.bufferTime && r.timeStarted == s.timeStarted
  {
    var r := s.(input := s.input[1..], output := s.output + [s.input[0]], pool := WriteRegion(s.pool, s.input[0], q));
    CommitValid(s, q, r);
    r
  }

  /** Moving the front of one queue to the back of the other keeps the
      multiset of slot ids. */
  lemma RotateKeepsSlots(a: seq<nat>, b: seq<nat>)
    requires |a| > 0
    ensures multiset(a[1..]) + multiset(b + [a[0]]) == multiset(a) + multiset(b)
    ensures multiset(b + [a[0]]) + multiset(a[1..]) == multiset(b) + multiset(a)
  {
    assert a == [a[0]] + a[1..];
  }

  /** The moved slot holds 16-bit samples and every slot already waiting
      keeps its samples, so the stream stays valid. */
  lemma CommitValid<P>(s: Stream<P>, q: seq<int>, r: Stream<P>)
    requires Valid(s) && |s.input| > 0 && |q| == SamplesPerBuffer && InRange16(q)
    requires r == s.(input := s.input[1..], output := s.output + [s.input[0]], pool := WriteRegion(s.pool, s.input[0], q))
    ensures Valid(r)
  {
    SlotFacts(s);
    var slot := s.input[0];
    RotateKeepsSlots(s.input, s.output);
    forall k | 0 <= k < |r.output|
      ensures r.output[k] < PoolSize && InRange16(Region(r.pool, r.output[k]))
    {
      if k < |s.output| {
        assert r.output[k] == s.output[k];
        assert s.output[k] != slot;
      } else {
        assert r.output[k] == slot;
      }
    }
  }

  /** Mixing preserves the number of events, and the two removal passes
      remove exactly what they count. */
  lemma MixKeepsCount<P>(s: Stream<P>, ops: ProducerOps<P>, fx: FilterBank)
    ensures TotalEvents(Retired(s, ops, fx).0) + Retired(s, ops, fx).1 == TotalEvents(s.inserts)
  {
    MixInsertsKeepsCount(s.inserts, s.bufferTime, ops, fx, seq(SamplesPerBuffer, _ => 0.0));
  }

  /** The clock after one fill iteration: one block later, resynchronised
      to the wall clock first if the stream had fallen behind. */
  function NextTime(bt: real, now1: real, now2: real): (t: real)
    ensures !Overrun(now1, bt) ==> t == bt + BufferDuration
    ensures Overrun(now1, bt) ==> t == now2 - CompensationDelay + BufferDuration
  {
    (if Overrun(now1, bt) then now2 - CompensationDelay else bt) + BufferDuration
  }

  /** The clock after `n` fill iterations from iteration `k` on. */
  function FillClock(bt: real, n: nat, clock: nat -> real, k: nat): real
    decreases n
  {
    if n == 0 then bt else FillClock(NextTime(bt, clock(2 * k), clock(2 * k + 1)), n - 1, clock, k + 1)
  }

  /** The event half of one fill iteration: mix, retire, evict on overrun,
      and move the clock on by one block. */
  function AdvanceEvents<P>(s: Stream<P>, ops: ProducerOps<P>, fx: FilterBank, now1: real, now2: real): (r: Stream<P>)
    requires Valid(s)
    ensures Valid(r)
    ensures Counted(s) ==> Counted(r)
    ensures r.input == s.input && r.output == s.output && r.pool == s.pool && r.timeStarted == s.timeStarted
    ensures r.bufferTime == NextTime(s.bufferTime, now1, now2)
    ensures r.inserts == if Overrun(now1, s.bufferTime) then EvictAll(Retired(s, ops, fx).0, ops).0 else Retired(s, ops, fx).0
  {
    MixKeepsCount(s, ops, fx);
    Advance(s, Retired(s, ops, fx), ops, Overrun(now1, s.bufferTime), now2)
  }

  /** The stream once the retired list is known: evict everything on an
      overrun, count the removed events off and move the clock a block on. */
  function Advance<P>(s: Stream<P>, retired: (seq<Insert<P>>, nat), ops: ProducerOps<P>, overrun: bool, now2: real): (r: Stream<P>)
    requires Valid(s) && |retired.0| == |s.inserts|
    ensures Valid(r)
    ensures Counted(s) && TotalEvents(retired.0) + retired.1 == TotalEvents(s.inserts) ==> Counted(r)
    ensures r.input == s.input && r.output == s.output && r.pool == s.pool && r.timeStarted == s.timeStarted
    ensures r.bufferTime == (if overrun then now2 - CompensationDelay else s.bufferTime) + BufferDuration
    ensures r.inserts == if overrun then EvictAll(retired.0, ops).0 else retired.0
  {
    var evicted := if overrun then EvictAll(retired.0, ops) else (retired.0, 0);
    var bt := if overrun then now2 - CompensationDelay else s.bufferTime;
    s.(inserts := evicted.0, nbEvents := s.nbEvents - retired.1 - evicted.1, bufferTime := bt + BufferDuration)
  }

  /** One iteration of the `fillNextBuffers` loop, given the two wall clock
      readings it takes (the overrun test and the resync). */
  function FillOne<P>(s: Stream<P>, ops: ProducerOps<P>, fx: FilterBank, now1: real, now2: real): (r: Stream<P>)
    requires Valid(s) && |s.input| > 0
    ensures Valid(r)
    ensures Counted(s) ==> Counted(r)
    ensures r.input == s.input[1..] && r.output == s.output + [s.input[0]]
    ensures r.bufferTime == NextTime(s.bufferTime, now1, now2)
    ensures r.timeStarted == s.timeStarted
  {
    CommitSlot(AdvanceEvents(s, ops, fx, now1, now2), Quantize(BlockSamples(s, ops, fx)))
  }

  /** What one fill iteration writes: the converted mix lands in the front
      input slot, every other slot keeps its samples, and the inserts are
      the retired list, evicted as a whole on an overrun. */
  lemma FillOneContents<P>(s: Stream<P>, ops: ProducerOps<P>, fx: FilterBank, now1: real, now2: real)
    requires Valid(s) && |s.input| > 0
    ensures var r := FillOne(s, ops, fx, now1, now2);
            && Region(r.pool, s.input[0]) == Quantize(BlockSamples(s, ops, fx))
            && (forall j :: 0 <= j < PoolSize && j != s.input[0] ==> Region(r.pool, j) == Region(s.pool, j))
            && r.inserts == if Overrun(now1, s.bufferTime) then EvictAll(Retired(s, ops, fx).0, ops).0 else Retired(s, ops, fx).0
  {
  }

  lemma ShiftFront(out: seq<nat>, inp: seq<nat>)
    requires |inp| > 0
    ensures (out + [inp[0]]) + inp[1..] == out + inp
  {
    assert inp == [inp[0]] + inp[1..];
  }

  /** `fillNextBuffers` from iteration `k` on: iteration `j` reads the wall
      clock as `clock(2j)` and `clock(2j+1)`. */
  function FillFrom<P>(s: Stream<P>, ops: ProducerOps<P>, fx: FilterBank, clock: nat -> real, k: nat): (r: Stream<P>)
    requires Valid(s)
    ensures Valid(r)
    ensures Counted(s) ==> Counted(r)
    ensures r.input == [] && r.output == s.output + s.input
    ensures r.timeStarted == s.timeStarted
    decreases |s.input|
  {
    if |s.input| == 0 then
      s
    else
      var s1 := FillOne(s, ops, fx, clock(2 * k), clock(2 * k + 1));
      assert s1.output + s1.input == s.output + s.input by {
        ShiftFront(s.output, s.input);
      }
      FillFrom(s1, ops, fx, clock, k + 1)
  }

  /** The fill never writes a slot that waits on the output queue. */
  lemma {:induction false} FillFromKeepsOutput<P>(s: Stream<P>, ops: ProducerOps<P>, fx: FilterBank, clock: nat -> real, k: nat)
    requires Valid(s)
    ensures forall j :: j in s.output ==> Region(FillFrom(s, ops, fx, clock, k).pool, j) == Region(s.pool, j)
    decreases |s.input|
  {
    if |s.input| > 0 {
      var s1 := FillOne(s, ops, fx, clock(2 * k), clock(2 * k + 1));
      SlotFacts(s);
      FillOneContents(s, ops, fx, clock(2 * k), clock(2 * k + 1));
      FillFromKeepsOutput(s1, ops, fx, clock, k + 1);
      assert FillFrom(s, ops, fx, clock, k) == FillFrom(s1, ops, fx, clock, k + 1);
      forall j | j in s.output
        ensures Region(FillFrom(s, ops, fx, clock, k).pool, j) == Region(s.pool, j)
      {
        assert j in s1.output;
        assert j < PoolSize && j != s.input[0];
      }
    }
  }

  /** `fillNextBuffers`: drain the input queue completely, in FIFO order. */
  function FillNextBuffers<P>(s: Stream<P>, ops: ProducerOps<P>, fx: FilterBank, clock: nat -> real): (r: Stream<P>)
    requires Valid(s)
    ensures Valid(r)
    ensures Counted(s) ==> Counted(r)
    ensures r.input == [] && r.output == s.output + s.input
    ensures r.bufferTime == FillClock(s.bufferTime, |s.input|, clock, 0)
    ensures r.timeStarted == s.timeStarted
  {
    FillFromClock(s, ops, fx, clock, 0);
    FillFrom(s, ops, fx, clock, 0)
  }

  /** The loop's clock follows `FillClock`: each iteration applies
      `NextTime` to the readings it takes. */
  lemma {:induction false} FillFromClock<P>(s: Stream<P>, ops: ProducerOps<P>, fx: FilterBank, clock: nat -> real, k: nat)
    requires Valid(s)
    ensures FillFrom(s, ops, fx, clock, k).bufferTime == FillClock(s.bufferTime, |s.input|, clock, k)
    decreases |s.input|
  {
    if |s.input| > 0 {
      var s1 := FillOne(s, ops, fx, clock(2 * k), clock(2 * k + 1));
      FillFromClock(s1, ops, fx, clock, k + 1);
      assert FillFrom(s, ops, fx, clock, k) == FillFrom(s1, ops, fx, clock, k + 1);
      assert s1.bufferTime == NextTime(s.bufferTime, clock(2 * k), clock(2 * k + 1));
      assert |s1.input| == |s.input| - 1;
      assert FillClock(s.bufferTime, |s.input|, clock, k) == FillClock(s1.bufferTime, |s1.input|, clock, k + 1);
    } else {
      assert FillFrom(s, ops, fx, clock, k) == s;
    }
  }

  /** The clock after `n` on-time blocks from `bt0`. */
  function BlocksLater(bt0: real, n: nat): real
  {
    bt0 + n as real * BufferDuration
  }

  lemma BlocksLaterStep(bt0: real, n: nat)
    ensures BlocksLater(bt0, n + 1) == BlocksLater(bt0 + BufferDuration, n)
  {
  }

  /** Iteration `k + j` of a fill starting at clock `bt0` finds the stream
      on time, assuming the `j` earlier iterations each advanced it by one
      block. */
  predicate OnTimeAt(clock: nat -> real, k: nat, j: nat, bt0: real)
  {
    !Overrun(clock(2 * (k + j)), BlocksLater(bt0, j))
  }

  lemma OnTimeShift(clock: nat -> real, k: nat, k1: nat, j: nat, bt0: real, bt1: real)
    requires k1 == k + 1 && bt1 == bt0 + BufferDuration
    requires OnTimeAt(clock, k, j + 1, bt0)
    ensures OnTimeAt(clock, k1, j, bt1)
  {
    BlocksLaterStep(bt0, j);
    assert 2 * (k + (j + 1)) == 2 * (k1 + j);
  }

  /** Without an overrun every fill iteration advances the clock by exactly
      one block. */
  lemma {:induction false} FillClockOnTime(bt: real, n: nat, clock: nat -> real, k: nat)
    requires forall j: nat :: j < n ==> OnTimeAt(clock, k, j, bt)
    ensures FillClock(bt, n, clock, k) == BlocksLater(bt, n)
    decreases n
  {
    if n > 0 {
      assert OnTimeAt(clock, k, 0, bt);
      var bt1 := bt + BufferDuration;
      var k1 := k + 1;
      forall j: nat | j < n - 1
        ensures OnTimeAt(clock, k1, j, bt1)
      {
        OnTimeShift(clock, k, k1, j, bt, bt1);
      }
      FillClockOnTime(bt1, n - 1, clock, k1);
      BlocksLaterStep(bt, n - 1);
    }
  }

  /** A whole fill that never falls behind moves the clock on by one block
      per slot it filled. */
  lemma FillNextBuffersTimeline<P>(s: Stream<P>, ops: ProducerOps<P>, fx: FilterBank, clock: nat -> real)
    requires Valid(s)
    requires forall j: nat :: j < |s.input| ==> OnTimeAt(clock, 0, j, s.bufferTime)
    ensures FillNextBuffers(s, ops, fx, clock).bufferTime == BlocksLater(s.bufferTime, |s.input|)
  {
    FillClockOnTime(s.bufferTime, |s.input|, clock, 0);
  }

  /** Hand out the front output slot's samples and recycle the slot to the
      back of the input queue. */
  function PopOutput<P>(s: Stream<P>): (r: (Stream<P>, seq<int>))
    requires Valid(s) && |s.output| > 0
    ensures Valid(r.0)
    ensures r.1 == Region(s.pool, s.output[0]) && InRange16(r.1)
    ensures r.0 == s.(output := s.output[1..], input := s.input + [s.output[0]])
  {
    var r := s.(output := s.output[1..], input := s.input + [s.output[0]]);
    PopValid(s, r);
    (r, Region(s.pool, s.output[0]))
  }

  /** Handing out the front output slot keeps the stream valid: the slot
      goes back to the input queue and the others stay waiting. */
  lemma PopValid<P>(s: Stream<P>, r: Stream<P>)
    requires Valid(s) && |s.output| > 0
    requires r == s.(output := s.output[1..], input := s.input + [s.output[0]])
    ensures Valid(r)
  {
    RotateKeepsSlots(s.output, s.input);
    AppendBelow(s.input, s.output[0], PoolSize);
    forall k | 0 <= k < |r.output|
      ensures r.output[k] < PoolSize && InRange16(Region(r.pool, r.output[k]))
    {
      assert r.output[k] == s.output[k + 1];
    }
  }

  /** Appending an id below `n` to ids below `n` keeps them all below `n`. */
  lemma AppendBelow(a: seq<nat>, x: nat, n: nat)
    requires x < n && forall k :: 0 <= k < |a| ==> a[k] < n
    ensures forall k :: 0 <= k < |a + [x]| ==> (a + [x])[k] < n
  {
  }

  /** `getNextBuffer`: fill first if nothing is ready, then hand out the
      front output slot. */
  function GetNextBuffer<P>(s: Stream<P>, ops: ProducerOps<P>, fx: FilterBank, clock: nat -> real): (r: (Stream<P>, seq<int>))
    requires Valid(s)
    ensures Valid(r.0)
    ensures |r.1| == SamplesPerBuffer && InRange16(r.1)
    ensures s.output != [] ==> r.1 == Region(s.pool, s.output[0])
    ensures s.output != [] ==> r.0 == s.(output := s.output[1..], input := s.input + [s.output[0]])
    ensures s.output == [] ==> r.0.input == [s.input[0]] && r.0.output == s.input[1..]
    ensures r.0.timeStarted == s.timeStarted
  {
    SlotFacts(s);
    if s.output == [] then PopOutput(FillNextBuffers(s, ops, fx, clock)) else PopOutput(s)
  }

  /** When nothing was ready, the buffer handed out is the converted mix of
      the block at the stream's time: the first slot the fill wrote. */
  lemma GetNextBufferFills<P>(s: Stream<P>, ops: ProducerOps<P>, fx: FilterBank, clock: nat -> real)
    requires Valid(s) && s.output == []
    ensures GetNextBuffer(s, ops, fx, clock).1 == Quantize(BlockSamples(s, ops, fx))
  {
    SlotFacts(s);
    var s1 := FillOne(s, ops, fx, clock(0), clock(1));
    FillOneContents(s, ops, fx, clock(0), clock(1));
    FillFromKeepsOutput(s1, ops, fx, clock, 1);
    var f := FillNextBuffers(s, ops, fx, clock);
    assert f == FillFrom(s1, ops, fx, clock, 1);
    assert s1.output == [s.input[0]];
    assert f.output[0] == s.input[0];
  }

  /** `restart`: reset the clock and move every output slot back to the
      input queue, in order. */
  function Restart<P>(s: Stream<P>, now: real): (r: Stream<P>)
    requires Valid(s)
    ensures Valid(r)
    ensures r.input == s.input + s.output && r.output == []
    ensures r.bufferTime == -CompensationDelay && r.timeStarted == now
    ensures r.inserts == s.inserts && r.nbEvents == s.nbEvents && r.pool == s.pool
  {
    assert s.input + s.output + [] == s.input + s.output;
    assert multiset(s.input + s.output) == multiset(s.input) + multiset(s.output);
    s.(input := s.input + s.output, output := [], bufferTime := -CompensationDelay, timeStarted := now)
  }

  /** `getTime`: seconds since the stream (re)started. */
  function GetTime<P>(s: Stream<P>, now: real): real
  {
    now - s.timeStarted
  }

  /** The time reads the seconds elapsed since construction or the last
      `restart`, and moves exactly as the wall clock does. */
  lemma GetTimeSinceStart<P>(s: Stream<P>, t0: real, d: real, a: real, b: real)
    requires Valid(s)
    ensures GetTime(Init<P>(t0), t0 + d) == d
    ensures GetTime(Restart(s, t0), t0 + d) == d
    ensures GetTime(s, b) - GetTime(s, a) == b - a
  {
  }

  /** No other call moves the stream's time: submitting events and
      editing inserts leave it as it was... */
  lemma GetTimeUnmovedByEdits<P>(s: Stream<P>, e: Event<P>, t: real, insertIndex: int, id: nat, edit: InsertEdit, now: real)
    requires Valid(s) && id < |s.inserts|
    ensures GetTime(Submit(s, e, t, insertIndex), now) == GetTime(s, now)
    ensures GetTime(NewInsert(s).0, now) == GetTime(s, now)
    ensures GetTime(EditInsert(s, id, edit), now) == GetTime(s, now)
  {
  }

  /** ... and so do filling ... */
  lemma GetTimeUnmovedByFill<P>(s: Stream<P>, ops: ProducerOps<P>, fx: FilterBank, clock: nat -> real, now: real)
    requires Valid(s)
    ensures GetTime(FillNextBuffers(s, ops, fx, clock), now) == GetTime(s, now)
  {
    assert FillNextBuffers(s, ops, fx, clock).timeStarted == s.timeStarted;
  }

  /** ... and handing out a buffer. */
  lemma GetTimeUnmovedByGetNextBuffer<P>(s: Stream<P>, ops: ProducerOps<P>, fx: FilterBank, clock: nat -> real, now: real)
    requires Valid(s)
    ensures GetTime(GetNextBuffer(s, ops, fx, clock).0, now) == GetTime(s, now)
  {
    assert GetNextBuffer(s, ops, fx, clock).0.timeStarted == s.timeStarted;
  }
}
