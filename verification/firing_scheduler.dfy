/** The application's firing scheduler: once per frame it turns the engine
    speed and the cylinder count into kick events, one per cylinder firing,
    each placed on the audio stream's clock. Around it sit the slider
    mappings of the engine window and the exhaust-offset presets. */
module FiringScheduler {
  import opened Common
  import KickProducer

  /** Number of per-cylinder exhaust offsets the screen keeps. */
  const MaxCylinders: nat := 16

  /** The screen's initial per-cylinder offsets (`volumes`). */
  const DefaultOffsets: seq<real> :=
    [0.50, 0.92, 1.0, 0.72, 0.71, 0.51, 0.92, 0.68, 0.73, 0.72, 0.77, 0.95, 0.63, 0.62, 0.59, 0.56]

  /** The scheduler's members: the time of the next firing slot, the
      current and previous firing interval (seconds per two revolutions),
      the cylinder that fired last and the cylinder count. */
  datatype Scheduler = Scheduler(elapse: real, interval: real, prevInterval: real, cylIndex: int, nbCyl: int)

  /** The screen's initial scheduler: the first slot at the stream time of
      construction, both intervals one second and one cylinder.
      `cylIndex` has no initialiser, so the model takes whatever it holds
      as a parameter. */
  function InitialScheduler(streamTime: real, unsetCylIndex: int): (s: Scheduler)
    ensures s.interval == 1.0 && s.prevInterval == s.interval && s.nbCyl == 1
    ensures s.elapse == streamTime && s.cylIndex == unsetCylIndex
    ensures unsetCylIndex >= -1 ==> Ready(s)
  {
    Scheduler(streamTime, 1.0, 1.0, unsetCylIndex, 1)
  }

  /** What a call needs to be well defined: a positive interval to rescale
      by, a cylinder count the slider can produce, and a cylinder index
      whose successor is a valid index. */
  predicate Ready(s: Scheduler)
  {
    s.interval > 0.0 && 1 <= s.nbCyl <= MaxCylinders && -1 <= s.cylIndex
  }

  /** A kick scheduled on the stream: its start time, the cylinder it
      belongs to and its producer. */
  datatype Firing = Firing(time: real, cylinder: int, kick: KickProducer.Kick)

  /** The firing interval for a speed reading: two revolutions, with the
      speed floored at 1 RPM. */
  function FiringInterval(rpm: real): (interval: real)
    ensures interval > 0.0
    ensures interval * MaxReal(1.0, rpm) == 120.0
    ensures interval <= 120.0
  {
    2.0 / (MaxReal(1.0, rpm) / 60.0)
  }

  /** The pending time stretched to the new interval: the time remaining
      until `elapse` is scaled by `interval / prevInterval`. */
  function Rescale(elapse: real, now: real, prevInterval: real, interval: real): (e: real)
    requires prevInterval > 0.0
    ensures e - now == (elapse - now) * (interval / prevInterval)
    ensures interval == prevInterval ==> e == elapse
  {
    var timeRemaining := elapse - now;
    var newTimeRemaining := timeRemaining * (interval / prevInterval);
    elapse - (timeRemaining - newTimeRemaining)
  }

  /** The cylinder after `c` among `n`, as `++cylIndex % nbCyl` computes it. */
  function NextCylinder(c: int, n: int): (r: int)
    requires n >= 1 && c >= -1
    ensures 0 <= r < n
    ensures 0 <= c < n ==> r == (if c + 1 == n then 0 else c + 1)
  {
    CRem(c + 1, n)
  }

  /** The kick for one firing: the throttle level shapes the attack, the
      speed (clamped to [0, 1] over 4000 RPM) the noise decay. */
  function FiringKick(throttleLevel: real, rpm: real): (k: KickProducer.Kick)
    ensures KickProducer.Valid(k) && !k.hasExpired && k.samplePos == 0
    ensures k == KickProducer.NewKick(throttleLevel, Clamp(rpm / 4000.0, 0.0, 1.0))
  {
    KickProducer.NewKick(throttleLevel, MaxReal(0.0, MinReal(rpm / 4000.0, 1.0)))
  }

  /** The cylinder that fires `k` slots after cylinder `c` fired. */
  function CylAfter(c: int, k: nat, n: int): (r: int)
    requires n >= 1 && c >= -1
    ensures k > 0 ==> 0 <= r < n
    ensures k == 0 ==> r == c
  {
    if k == 0 then c else NextCylinder(CylAfter(c, k - 1, n), n)
  }

  /** Counting slots is counting modulo the cylinder count. */
  lemma {:induction false} CylAfterMod(c: int, k: nat, n: int)
    requires n >= 1 && 0 <= c
    ensures CylAfter(c, k, n) == (c + k) % n || (k == 0 && c >= n)
    ensures 0 <= c < n ==> CylAfter(c, k, n) == (c + k) % n
  {
    if k > 0 {
      CylAfterMod(c, k - 1, n);
      var prev := CylAfter(c, k - 1, n);
      assert CylAfter(c, k, n) == (prev + 1) % n;
      if k - 1 == 0 && c >= n {
        assert prev + 1 == c + k;
      } else {
        assert prev == (c + k - 1) % n;
        ModSucc(c + k - 1, n);
      }
    } else if c < n {
      ModUnique(c, n, 0, c);
    }
  }

  /** Every `n` slots the same cylinder fires again. */
  lemma CylinderCycle(c: int, k: nat, n: int)
    requires n >= 1 && 0 <= c < n
    ensures CylAfter(c, k + n, n) == CylAfter(c, k, n)
  {
    CylAfterMod(c, k + n, n);
    CylAfterMod(c, k, n);
    ModAddPeriod(c + k, n);
  }

  /** The start of the `j`-th slot after `e0`. */
  function SlotTime(e0: real, step: real, j: nat): real
  {
    e0 + j as real * step
  }

  lemma SlotTimeNext(e0: real, step: real, j: nat)
    ensures SlotTime(e0, step, j + 1) == SlotTime(e0, step, j) + step
  {
  }

  /** A slot that still lies before `now` is followed by fewer slots
      before `now` than the bound counted from the start. */
  lemma SlotsBounded(e0: real, step: real, now: real, j: nat)
    requires step > 0.0 && SlotTime(e0, step, j) < now
    ensures j <= ((now - e0) / step).Floor
  {
    var x := (now - e0) / step;
    assert x * step == now - e0;
    assert (x - j as real) * step > 0.0;
    PosFactor(x - j as real, step);
  }

  /** The kick scheduled in the `j`-th slot passed (counting from 0). */
  function FiringAt(e0: real, step: real, c0: int, n: int, j: nat, throttleLevel: real, rpm: real, offsets: seq<real>): (f: Firing)
    requires n >= 1 && c0 >= -1 && n <= |offsets|
    ensures f.cylinder == CylAfter(c0, j + 1, n) && 0 <= f.cylinder < n
    ensures f.time - 0.03 - SlotTime(e0, step, j + 1) == step * 0.5 * offsets[f.cylinder]
    ensures f.kick == FiringKick(throttleLevel, MaxReal(1.0, rpm))
  {
    var c := CylAfter(c0, j + 1, n);
    Firing(SlotTime(e0, step, j + 1) + 0.03 + step * 0.5 * offsets[c], c, FiringKick(throttleLevel, MaxReal(1.0, rpm)))
  }

  /** `updateEngineSounds`: recompute the interval from the speed, stretch
      the pending slot to it, then step through the slots that are already
      due, one cylinder per slot, until the next slot lies at or after
      `now`. Each slot passed schedules a kick, offset by 30 ms plus half a
      slot times that cylinder's offset, unless the engine is stalled
      (below 1 RPM). `passed` is the number of slots stepped through. */
  method UpdateEngineSounds(s: Scheduler, now: real, rpm: real, throttleLevel: real, offsets: seq<real>)
    returns (s': Scheduler, firings: seq<Firing>, passed: nat)
    requires Ready(s) && |offsets| == MaxCylinders
    ensures Ready(s') && s'.nbCyl == s.nbCyl
    ensures s'.prevInterval == s.interval && s'.interval == FiringInterval(rpm)
    ensures var e0 := Rescale(s.elapse, now, s.interval, s'.interval);
            var step := s'.interval / s.nbCyl as real;
            s'.elapse == SlotTime(e0, step, passed) &&
            s'.elapse >= now &&
            (passed > 0 ==> SlotTime(e0, step, passed - 1) < now)
    ensures s'.cylIndex == CylAfter(s.cylIndex, passed, s.nbCyl)
    ensures rpm < 1.0 ==> firings == []
    ensures rpm >= 1.0 ==> |firings| == passed
    ensures rpm >= 1.0 ==>
      var e0 := Rescale(s.elapse, now, s.interval, s'.interval);
      var step := s'.interval / s.nbCyl as real;
      forall j :: 0 <= j < |firings| ==>
        firings[j] == FiringAt(e0, step, s.cylIndex, s.nbCyl, j, throttleLevel, rpm, offsets)
  {
    var interval := FiringInterval(rpm);
    var e0 := Rescale(s.elapse, now, s.interval, interval);
    var step := interval / s.nbCyl as real;
    var elapse := e0;
    var cyl := s.cylIndex;
    ghost var bound := if e0 < now then ((now - e0) / step).Floor + 1 else 0;
    firings := [];
    passed := 0;
    while elapse < now
      invariant elapse == SlotTime(e0, step, passed)
      invariant passed > 0 ==> SlotTime(e0, step, passed - 1) < now
      invariant passed <= bound
      invariant cyl == CylAfter(s.cylIndex, passed, s.nbCyl)
      invariant rpm < 1.0 ==> firings == []
      invariant rpm >= 1.0 ==> |firings| == passed
      invariant rpm >= 1.0 ==> forall j :: 0 <= j < |firings| ==>
        firings[j] == FiringAt(e0, step, s.cylIndex, s.nbCyl, j, throttleLevel, rpm, offsets)
      decreases bound - passed
    {
      SlotsBounded(e0, step, now, passed);
      SlotTimeNext(e0, step, passed);
      elapse := elapse + step;
      cyl := NextCylinder(cyl, s.nbCyl);
      if rpm >= 1.0 {
        firings := firings + [FiringAt(e0, step, s.cylIndex, s.nbCyl, passed, throttleLevel, rpm, offsets)];
      }
      passed := passed + 1;
    }
    s' := Scheduler(elapse, interval, s.interval, cyl, s.nbCyl);
  }

  /** The cylinder slider: `v` in [0, 1] selects 1 to 16 cylinders. */
  function CylinderCount(v: real): (n: int)
    ensures 0.0 <= v <= 1.0 ==> 1 <= n <= MaxCylinders
    ensures v == 0.0 ==> n == 1
    ensures v == 1.0 ==> n == MaxCylinders
  {
    TruncToInt(v * 15.0 + 1.0)
  }

  /** The rev-limit slider: [0, 1] maps onto [1000, 12000] RPM. */
  function RevLimit(v: real): (rpm: real)
    ensures 0.0 <= v <= 1.0 <==> 1000.0 <= rpm <= 12000.0
    ensures rpm - 1000.0 == 11000.0 * v
  {
    11000.0 * v + 1000.0
  }

  /** The offset slider writes `2v - 1` for the selected cylinder. */
  function OffsetFromSlider(v: real): (offset: real)
    ensures 0.0 <= v <= 1.0 <==> -1.0 <= offset <= 1.0
  {
    2.0 * v - 1.0
  }

  /** Selecting a cylinder moves the slider to `offset * 0.5 + 0.5`. */
  function SliderFromOffset(offset: real): (v: real)
    ensures -1.0 <= offset <= 1.0 <==> 0.0 <= v <= 1.0
  {
    offset * 0.5 + 0.5
  }

  /** The two mappings undo each other. */
  lemma SliderOffsetInverse(v: real, offset: real)
    ensures SliderFromOffset(OffsetFromSlider(v)) == v
    ensures OffsetFromSlider(SliderFromOffset(offset)) == offset
  {
  }

  /** The offset slider's effect on the table: only the selected
      cylinder's entry changes. */
  function SetOffset(offsets: seq<real>, selected: int, v: real): (r: seq<real>)
    requires |offsets| == MaxCylinders && 1 <= selected <= MaxCylinders
    ensures |r| == MaxCylinders && r[selected - 1] == OffsetFromSlider(v)
    ensures forall i :: 0 <= i < MaxCylinders && i != selected - 1 ==> r[i] == offsets[i]
    ensures SliderFromOffset(r[selected - 1]) == v
  {
    SliderOffsetInverse(v, 0.0);
    offsets[selected - 1 := OffsetFromSlider(v)]
  }

  /** The values listed for each preset of the combo box; entry 0 (the
      default preset) and unknown entries list nothing. */
  function PresetValues(preset: int): (vals: seq<real>)
    ensures |vals| <= 8
    ensures !(1 <= preset <= 9) ==> vals == []
  {
    match preset
    case 1 => [0.0, 0.5]
    case 2 => [0.0, 0.16, 0.16]
    case 3 => [0.0, 0.09, 0.1, 0.06]
    case 4 => [0.0, 0.09, 0.42, 0.34]
    case 5 => [0.0, 0.05, 0.12, 0.14, 0.17]
    case 6 => [0.0, 0.16, 0.21, 0.19, 0.16, 0.12]
    case 7 => [0.0, 0.0, 0.0, 0.25, 0.25, 0.25]
    case 8 => [0.0, 0.01, 0.04, 0.07, 0.21, 0.22, 0.19, 0.20]
    case 9 => [0.0, -0.02, 0.57, 0.0, 0.23, 0.22, 0.61, 0.20]
    case _ => []
  }

  /** The whole table a preset writes: the listed values first, zeros for
      every other cylinder. */
  function Preset(preset: int): (table: seq<real>)
    ensures |table| == MaxCylinders
    ensures forall i :: 0 <= i < |PresetValues(preset)| ==> table[i] == PresetValues(preset)[i]
    ensures forall i :: |PresetValues(preset)| <= i < MaxCylinders ==> table[i] == 0.0
  {
    var vals := PresetValues(preset);
    vals + seq(MaxCylinders - |vals|, i => 0.0)
  }

  /** The default preset clears every offset, and every preset starts with
      a zero offset for the first cylinder. */
  lemma PresetZeroAndLeadingZero(preset: int)
    ensures Preset(0) == seq(MaxCylinders, i => 0.0)
    ensures Preset(preset)[0] == 0.0
  {
    var z := Preset(0);
    assert forall i :: 0 <= i < MaxCylinders ==> z[i] == 0.0;
  }
}
