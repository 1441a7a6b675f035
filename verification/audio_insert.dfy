/** EMAudioInsert: a mixer track holding timed events, a chain of filters
    and a gain, plus the counting of the events every insert holds.

    Producers are abstract values of type `P`; what a producer does is given
    by a `ProducerOps<P>` record, and filters by a `FilterBank`. */
module AudioInsert {
  import opened Common
  import opened AudioEvent

  // ---------------------------------------------------------------------
  // Producers and filters
  // ---------------------------------------------------------------------

  /** The three virtual calls the stream makes on a producer. `place(p, n)`
      asks for up to `n` samples added from the start of the given window;
      it returns the producer's next state and the samples it adds. */
  datatype ProducerOps<!P> = ProducerOps(
    place: (P, nat) -> (P, seq<real>),
    duration: P -> real,
    expired: P -> bool)

  /** `fx(f, in)` is what filter `f` writes for input block `in`; a filter
      always writes as many samples as it reads. Filters are stateless
      here: the same filter gives the same output for the same block, in
      every block and in every insert that holds it. */
  type FilterBank = fx: (nat, seq<real>) -> seq<real>
    | forall f, s :: |fx(f, s)| == |s|
    witness (f: nat, s: seq<real>) => s

  // ---------------------------------------------------------------------
  // Inserts
  // ---------------------------------------------------------------------

  /** A mixer channel: id, gain (stored but not applied when mixing),
      the filter chain (filter identities, in order), and its events, front
      first. */
  datatype Insert<P> = Insert(id: int, gain: real, filters: seq<nat>, events: seq<Event<P>>)

  function EmptyInsert<P>(id: int): Insert<P>
  {
    Insert(id, 1.0, [], [])
  }

  function NumFilters<P>(ins: Insert<P>): nat
  {
    |ins.filters|
  }

  /** `setGain` on an insert changes its gain and nothing else. */
  function SetInsertGain<P>(ins: Insert<P>, gain: real): (r: Insert<P>)
    ensures r.gain == gain
    ensures r.id == ins.id && r.filters == ins.filters && r.events == ins.events
  {
    ins.(gain := gain)
  }

  /** `addFilter` appends to the end of the chain. */
  function AddFilter<P>(ins: Insert<P>, f: nat): (r: Insert<P>)
    ensures NumFilters(r) == NumFilters(ins) + 1
    ensures r.filters[..NumFilters(ins)] == ins.filters && r.filters[NumFilters(ins)] == f
    ensures r.id == ins.id && r.gain == ins.gain && r.events == ins.events
  {
    ins.(filters := ins.filters + [f])
  }

  /** `removeFilter` reports whether the filter is in the chain. It destroys
      the filter object but never erases it from the chain, so the chain,
      and `numFilters`, are left as they were. */
  function RemoveFilter<P>(ins: Insert<P>, f: nat): (r: (Insert<P>, bool))
    ensures r.1 <==> f in ins.filters
    ensures r.0 == ins
  {
    (ins, exists i :: 0 <= i < |ins.filters| && ins.filters[i] == f)
  }

  /** Removing a filter just added reports success but does not shorten
      the chain. */
  lemma RemoveAfterAddKeepsChain<P>(ins: Insert<P>, f: nat)
    ensures RemoveFilter(AddFilter(ins, f), f).1
    ensures NumFilters(RemoveFilter(AddFilter(ins, f), f).0) == NumFilters(ins) + 1
  {
    assert AddFilter(ins, f).filters[NumFilters(ins)] == f;
  }

  /** Each filter reads the previous filter's output (the in/out buffer
      swap); with no filters the dry signal passes through. */
  function ApplyFilters(fs: seq<nat>, fx: FilterBank, buf: seq<real>): (r: seq<real>)
    ensures |r| == |buf|
    ensures fs == [] ==> r == buf
  {
    if fs == [] then buf else ApplyFilters(fs[1..], fx, fx(fs[0], buf))
  }

  /** Appending a filter post-composes it with the existing chain. */
  lemma {:induction false} ApplyFiltersSnoc(fs: seq<nat>, f: nat, fx: FilterBank, buf: seq<real>)
    ensures ApplyFilters(fs + [f], fx, buf) == fx(f, ApplyFilters(fs, fx, buf))
  {
    if fs == [] {
      assert [f][1..] == [];
    } else {
      assert (fs + [f])[1..] == fs[1..] + [f];
      ApplyFiltersSnoc(fs[1..], f, fx, fx(fs[0], buf));
    }
  }

  /** Total number of events held by a list of inserts. */
  function TotalEvents<P>(inserts: seq<Insert<P>>): nat
  {
    if inserts == [] then 0 else |inserts[0].events| + TotalEvents(inserts[1..])
  }

  lemma {:induction false} TotalEventsAppend<P>(a: seq<Insert<P>>, b: seq<Insert<P>>)
    ensures TotalEvents(a + b) == TotalEvents(a) + TotalEvents(b)
  {
    if a == [] {
      assert a + b == b;
    } else {
      assert (a + b)[1..] == a[1..] + b;
      TotalEventsAppend(a[1..], b);
    }
  }

  /** Replacing one insert's event list changes the total by the difference
      in that list's length. */
  lemma {:induction false} TotalEventsUpdate<P>(inserts: seq<Insert<P>>, k: nat, evs: seq<Event<P>>)
    requires k < |inserts|
    ensures TotalEvents(inserts[k := inserts[k].(events := evs)])
            == TotalEvents(inserts) - |inserts[k].events| + |evs|
  {
    if k == 0 {
      assert inserts[k := inserts[k].(events := evs)][1..] == inserts[1..];
    } else {
      assert inserts[k := inserts[k].(events := evs)][1..] == inserts[1..][k - 1 := inserts[k].(events := evs)];
      TotalEventsUpdate(inserts[1..], k - 1, evs);
    }
  }

  /** Replacing an insert by one holding the same events keeps the count. */
  lemma {:induction false} TotalEventsReplace<P>(inserts: seq<Insert<P>>, k: nat, ins: Insert<P>)
    requires k < |inserts| && ins.events == inserts[k].events
    ensures TotalEvents(inserts[k := ins]) == TotalEvents(inserts)
  {
    if k == 0 {
      assert inserts[k := ins][1..] == inserts[1..];
    } else {
      assert inserts[k := ins][1..] == inserts[1..][k - 1 := ins];
      TotalEventsReplace(inserts[1..], k - 1, ins);
    }
  }
}
