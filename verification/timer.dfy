/** `EMTimer`: a fixed-rate tick counter. It keeps the time of the next
    tick; `ticksPassed` catches that time up with the clock and reports how
    many ticks it stepped over, and `partialTicks`/`lerp` interpolate inside
    the current tick. The clock (`glfwGetTime`) is a parameter. */
module Timer {
  import opened Common

  datatype EMTimer = EMTimer(tps: real, tickDelta: real, nextTick: real)

  predicate Valid(t: EMTimer)
  {
    t.tickDelta > 0.0
  }

  /** The constructor: one tick lasts `1 / tps` seconds and the first tick
      is due now. */
  function NewTimer(tps: real, now: real): (t: EMTimer)
    requires tps > 0.0
    ensures Valid(t) && t.nextTick == now && t.tickDelta * tps == 1.0
  {
    EMTimer(tps, 1.0 / tps, now)
  }

  /** `ticksPassed`: steps the next-tick time by whole ticks until it is no
      longer before `now`; returns the number of steps. */
  method TicksPassed(t: EMTimer, now: real) returns (r: EMTimer, ticks: nat)
    requires Valid(t)
    ensures r == t.(nextTick := r.nextTick) && Valid(r)
    ensures r.nextTick == t.nextTick + ticks as real * t.tickDelta
    ensures r.nextTick >= now
    ensures ticks > 0 ==> r.nextTick - t.tickDelta < now
    ensures ticks == 0 <==> t.nextTick >= now
  {
    var next := t.nextTick;
    ticks := 0;
    assert 0 as real * t.tickDelta == 0.0;
    while next < now
      invariant next == t.nextTick + ticks as real * t.tickDelta
      invariant ticks > 0 ==> next - t.tickDelta < now && t.nextTick < now
      decreases ((now - next) / t.tickDelta).Floor
    {
      StepShrinksGap(now, next, t.tickDelta);
      OneMoreTick(t.nextTick, ticks, t.tickDelta, next);
      ticks := ticks + 1;
      next := next + t.tickDelta;
    }
    r := t.(nextTick := next);
  }

  lemma OneMoreTick(base: real, ticks: nat, d: real, next: real)
    requires next == base + ticks as real * d
    ensures next + d == base + (ticks + 1) as real * d
  {
  }

  /** Each step removes exactly one tick from the remaining gap. */
  lemma StepShrinksGap(now: real, next: real, d: real)
    requires d > 0.0 && next < now
    ensures ((now - next) / d).Floor >= 0
    ensures ((now - (next + d)) / d).Floor == ((now - next) / d).Floor - 1
  {
    var q := (now - next) / d;
    var q' := (now - (next + d)) / d;
    assert q * d == now - next;
    assert q' * d == now - (next + d);
    assert (q - 1.0) * d == q * d - d;
    assert (q' - (q - 1.0)) * d == 0.0;
    ZeroProduct(q' - (q - 1.0), d);
  }

  lemma ZeroProduct(x: real, d: real)
    requires d > 0.0 && x * d == 0.0
    ensures x == 0.0
  {
  }

  /** `partialTicks`: how far the clock is into the current tick, never
      negative. The current tick began one tick before the next one is
      due; the fraction is the time since then, counted in ticks, and 0
      before it. */
  function PartialTicks(t: EMTimer, now: real): (p: real)
    requires Valid(t)
    ensures p >= 0.0
    ensures p * t.tickDelta == if now > t.nextTick - t.tickDelta then now - (t.nextTick - t.tickDelta) else 0.0
  {
    var result := 1.0 - (t.nextTick - now) / t.tickDelta;
    ElapsedFraction(t.nextTick, now, t.tickDelta);
    if 0.0 < result then result else 0.0
  }

  /** `1 - (next - now) / d` is the time since `next - d` in units of `d`. */
  lemma ElapsedFraction(next: real, now: real, d: real)
    requires d > 0.0
    ensures (1.0 - (next - now) / d) * d == now - (next - d)
    ensures 0.0 < 1.0 - (next - now) / d <==> now > next - d
  {
    var q := (next - now) / d;
    assert q * d == next - now;
    assert (1.0 - q) * d == d - q * d;
    if now > next - d {
      PosFactor(1.0 - q, d);
    } else if 0.0 < 1.0 - q {
      MulPos(1.0 - q, d);
    }
  }

  /** Right after `ticksPassed` the fraction lies in [0, 1]: the next tick is
      due no earlier than now and, if any tick passed, less than one tick
      from now. */
  lemma PartialAfterCatchUp(t: EMTimer, now: real)
    requires Valid(t) && t.nextTick >= now
    ensures 0.0 <= PartialTicks(t, now) <= 1.0
  {
    DivNonNeg(t.nextTick - now, t.tickDelta);
  }

  lemma MulPos(x: real, d: real)
    requires x > 0.0 && d > 0.0
    ensures x * d > 0.0
  {
  }

  lemma DivNonNeg(a: real, d: real)
    requires a >= 0.0 && d > 0.0
    ensures a / d >= 0.0
  {
  }

  /** `lerp`: moves from `start` towards `end` by the partial tick: it
      gives `start` until the current tick has begun and `end` when the
      next one is due, and the fraction of the way it has gone is the
      partial tick. */
  function Lerp(t: EMTimer, now: real, start: real, end: real): (v: real)
    requires Valid(t)
    ensures start != end ==> (v - start) / (end - start) == PartialTicks(t, now)
    ensures now <= t.nextTick - t.tickDelta ==> v == start
    ensures now == t.nextTick ==> v == end
    ensures PartialTicks(t, now) <= 1.0 && start <= end ==> start <= v <= end
    ensures PartialTicks(t, now) <= 1.0 && end <= start ==> end <= v <= start
  {
    PartialTicksEnds(t, now);
    Interpolate(start, end, PartialTicks(t, now))
  }

  /** The partial tick is 0 until the current tick has begun and 1 when
      the next tick is due. */
  lemma PartialTicksEnds(t: EMTimer, now: real)
    requires Valid(t)
    ensures now <= t.nextTick - t.tickDelta ==> PartialTicks(t, now) == 0.0
    ensures now == t.nextTick ==> PartialTicks(t, now) == 1.0
  {
    var p := PartialTicks(t, now);
    if now <= t.nextTick - t.tickDelta {
      ZeroProduct(p, t.tickDelta);
    } else if now == t.nextTick {
      assert (p - 1.0) * t.tickDelta == 0.0;
      ZeroProduct(p - 1.0, t.tickDelta);
    }
  }

  /** `start + (end - start) * p`: the point that lies the fraction `p`
      of the way from `start` to `end`, so `p` is recovered from it, 0
      gives `start`, 1 gives `end`, and the result stays between the two
      for `p` up to 1. */
  function Interpolate(start: real, end: real, p: real): (v: real)
    requires 0.0 <= p
    ensures start != end ==> (v - start) / (end - start) == p
    ensures p == 0.0 || start == end ==> v == start
    ensures p == 1.0 ==> v == end
    ensures p <= 1.0 && start <= end ==> start <= v <= end
    ensures p <= 1.0 && end <= start ==> end <= v <= start
  {
    ScaleBetween(start, end, p);
    var w := end - start;
    assert start == end ==> w * p == 0.0;
    CancelFactor(w, p);
    start + w * p
  }

  /** A non-zero factor cancels. */
  lemma CancelFactor(w: real, p: real)
    ensures w != 0.0 ==> (w * p) / w == p
  {
    if w != 0.0 {
      var q := (w * p) / w;
      assert q * w == w * p;
      assert (q - p) * w == 0.0;
    }
  }

  lemma ScaleBelow(w: real, p: real)
    requires 0.0 <= w && 0.0 <= p <= 1.0
    ensures 0.0 <= w * p <= w
  {
    assert w * p <= w * 1.0;
  }

  lemma ScaleBetween(a: real, b: real, p: real)
    requires 0.0 <= p
    ensures p <= 1.0 && a <= b ==> a <= a + (b - a) * p <= b
    ensures p <= 1.0 && b <= a ==> b <= a + (b - a) * p <= a
  {
    if p <= 1.0 {
      var w := b - a;
      var m := w * p;
      if a <= b {
        ScaleBelow(w, p);
        assert a <= a + m <= b;
      } else {
        ScaleBelow(-w, p);
        assert (-w) * p == -m;
        assert b <= a + m <= a;
      }
    }
  }
}
