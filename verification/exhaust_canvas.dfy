/** `ExhaustConfigCanvas`: the strip of cylinder markers under the exhaust
    offset sliders. It holds the cylinder count, the selected cylinder
    (1-based), sixteen offsets and whether a selection callback is set.
    Drawing is left out; a click is a hit test against equal-width bands
    centred on the markers. Coordinates are exact reals. */
module ExhaustCanvas {
  import opened Common

  /** Size of `m_offsets`. */
  const MaxCylinders: nat := 16

  datatype Canvas = Canvas(nbCylinders: int, selected: int, offsets: seq<real>, hasCallback: bool)

  predicate Valid(c: Canvas)
  {
    |c.offsets| == MaxCylinders
  }

  function Zeros(n: nat): (z: seq<real>)
    ensures |z| == n && forall i :: 0 <= i < n ==> z[i] == 0.0
  {
    if n == 0 then [] else Zeros(n - 1) + [0.0]
  }

  /** The member initialisers: one cylinder, the first selected, all
      offsets zero, no callback. */
  function NewCanvas(): (c: Canvas)
    ensures Valid(c) && c.nbCylinders == 1 && c.selected == 1 && !c.hasCallback
    ensures forall i :: 0 <= i < MaxCylinders ==> c.offsets[i] == 0.0
  {
    Canvas(1, 1, Zeros(MaxCylinders), false)
  }

  /** `setNbCylinders`: stores the count and pulls the selection down to it
      when it lies beyond. */
  function SetNbCylinders(c: Canvas, cyls: int): (r: Canvas)
    ensures r.nbCylinders == cyls
    ensures r.selected == if c.selected > cyls then cyls else c.selected
    ensures r.selected <= cyls || r.selected == c.selected
    ensures r.offsets == c.offsets && r.hasCallback == c.hasCallback
  {
    c.(nbCylinders := cyls, selected := if c.selected > cyls then cyls else c.selected)
  }

  /** `setOffsets`: copies the first `length` values and keeps the rest. */
  function SetOffsets(c: Canvas, values: seq<real>, length: int): (r: Canvas)
    requires Valid(c) && length <= MaxCylinders && length <= |values|
    ensures Valid(r)
    ensures forall i :: 0 <= i < MaxCylinders ==>
      r.offsets[i] == if i < length then values[i] else c.offsets[i]
    ensures r == c.(offsets := r.offsets)
  {
    c.(offsets := seq(MaxCylinders, i requires 0 <= i < MaxCylinders =>
                        if i < length then values[i] else c.offsets[i]))
  }

  /** `setCallback`. */
  function SetCallback(c: Canvas, present: bool): Canvas
  {
    c.(hasCallback := present)
  }

  /** `getSelectedCylinder`. */
  function GetSelectedCylinder(c: Canvas): int
  {
    c.selected
  }

  /** Width of one band: the canvas width split into `n + 1` parts. */
  function BandWidth(sizeX: real, n: int): real
    requires n >= 1
  {
    sizeX / (n + 1) as real
  }

  /** Whether `x` lies strictly inside the band of marker `i`, which starts
      half a band in. */
  predicate InBand(sizeX: real, n: int, i: int, x: real)
    requires n >= 1
  {
    var w := BandWidth(sizeX, n);
    w * 0.5 + w * i as real < x < w * 0.5 + w * i as real + w
  }

  /** The loop of `mouse_button_event` from marker `i` on: the first marker
      whose band contains `x`. */
  function FirstHit(sizeX: real, n: int, x: real, i: nat): (h: Option<nat>)
    requires n >= 1
    ensures h.Some? ==> i <= h.value < n && InBand(sizeX, n, h.value, x) &&
                        forall j :: i <= j < h.value ==> !InBand(sizeX, n, j, x)
    ensures h.None? ==> forall j :: i <= j < n ==> !InBand(sizeX, n, j, x)
    decreases n - i
  {
    if i >= n then None
    else if InBand(sizeX, n, i, x) then Some(i)
    else FirstHit(sizeX, n, x, i + 1)
  }

  /** `mouse_button_event`: a click inside marker `i`'s band selects
      cylinder `i + 1`, fires the callback if one is set, and is consumed;
      otherwise nothing changes. The button, its state and the modifiers
      are not looked at. Returns the canvas, whether the click was consumed
      and whether the callback ran. */
  function MouseButtonEvent(c: Canvas, x: real, sizeX: real): (r: (Canvas, bool, bool))
    ensures r.1 <==> c.nbCylinders >= 1 && exists i :: 0 <= i < c.nbCylinders && InBand(sizeX, c.nbCylinders, i, x)
    ensures r.1 ==> 1 <= r.0.selected <= c.nbCylinders &&
                    InBand(sizeX, c.nbCylinders, r.0.selected - 1, x) &&
                    r.0 == c.(selected := r.0.selected) && r.2 == c.hasCallback
    ensures !r.1 ==> r.0 == c && !r.2
  {
    if c.nbCylinders < 1 then (c, false, false)
    else
      match FirstHit(sizeX, c.nbCylinders, x, 0)
      case None => (c, false, false)
      case Some(i) => (c.(selected := i + 1), true, c.hasCallback)
  }

  /** With a positive width the bands do not overlap, so a click selects
      the only marker whose band contains it. */
  lemma BandsDisjoint(sizeX: real, n: int, i: int, j: int, x: real)
    requires n >= 1 && sizeX > 0.0 && i < j
    requires InBand(sizeX, n, i, x)
    ensures !InBand(sizeX, n, j, x)
  {
    var w := BandWidth(sizeX, n);
    assert w > 0.0;
    assert w * j as real >= w * (i + 1) as real by {
      MulMono(w, (i + 1) as real, j as real);
    }
  }

  lemma MulMono(w: real, a: real, b: real)
    requires w >= 0.0 && a <= b
    ensures w * a <= w * b
  {
    var d := b - a;
    assert w * b == w * a + w * d;
  }

  /** A click never lands in a band on a canvas of width zero or less. */
  lemma NoHitOnEmptyCanvas(c: Canvas, x: real, sizeX: real)
    requires sizeX <= 0.0
    ensures !MouseButtonEvent(c, x, sizeX).1
  {
    if c.nbCylinders >= 1 {
      forall i | 0 <= i < c.nbCylinders
        ensures !InBand(sizeX, c.nbCylinders, i, x)
      {
        var w := BandWidth(sizeX, c.nbCylinders);
        assert w <= 0.0;
      }
    }
  }

  /** A selection between 1 and the cylinder count stays there through
      clicks, callback changes and any positive new count, so
      `getSelectedCylinder` always names an existing cylinder. */
  lemma SelectionStaysInRange(c: Canvas, x: real, sizeX: real, cyls: int, present: bool)
    requires 1 <= GetSelectedCylinder(c) <= c.nbCylinders && cyls >= 1
    ensures var r := MouseButtonEvent(c, x, sizeX).0;
            1 <= GetSelectedCylinder(r) <= r.nbCylinders
    ensures var r := SetNbCylinders(c, cyls);
            1 <= GetSelectedCylinder(r) <= r.nbCylinders
    ensures var r := SetCallback(c, present);
            GetSelectedCylinder(r) == GetSelectedCylinder(c)
  {
  }
}
