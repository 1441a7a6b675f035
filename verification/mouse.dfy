/** `EMMouse`: three single-word button flag sets (pressed, down,
    released), the cursor position and the one of the previous frame, and
    the last scroll delta. The source selects word `button / 4` of what is
    a single `uint32_t` field, so buttons 4 and up write into the field that
    follows it in memory; `RawSetNthBit` models that as written, and the
    state machine below uses the one-word reading it evidently intends. */
module Mouse {
  import opened BitFlags

  /** GLFW's action codes. */
  const Release: int := 0
  const Press: int := 1

  datatype Vec2 = Vec2(x: real, y: real)

  datatype MouseState = MouseState(
    pressed: Word, down: Word, released: Word,
    prevCursor: Vec2, cursor: Vec2, scrollDelta: Vec2, justScrolled: bool)

  /** The constructor: no flags, everything at the origin, no scroll. */
  const NewMouse: MouseState :=
    MouseState(0, 0, 0, Vec2(0.0, 0.0), Vec2(0.0, 0.0), Vec2(0.0, 0.0), false)

  /** Buttons whose bit exists in one 32-bit word. */
  predicate ButtonInWord(button: int)
  {
    0 <= button < 32
  }

  /** `isButtonPressed`, `buttonJustPressed`, `buttonJustReleased`. */
  function IsButtonPressed(m: MouseState, button: int): bool
    requires ButtonInWord(button)
  {
    GetNthBit(m.down, Pos(button)) == 1
  }

  function ButtonJustPressed(m: MouseState, button: int): bool
    requires ButtonInWord(button)
  {
    GetNthBit(m.pressed, Pos(button)) == 1
  }

  function ButtonJustReleased(m: MouseState, button: int): bool
    requires ButtonInWord(button)
  {
    GetNthBit(m.released, Pos(button)) == 1
  }

  /** `cursorXDelta`, `cursorYDelta`: movement since the last poll. */
  function CursorXDelta(m: MouseState): real
  {
    m.cursor.x - m.prevCursor.x
  }

  function CursorYDelta(m: MouseState): real
  {
    m.cursor.y - m.prevCursor.y
  }

  lemma NewMouseIsIdle(button: int)
    requires ButtonInWord(button)
    ensures !IsButtonPressed(NewMouse, button) && !ButtonJustPressed(NewMouse, button)
    ensures !ButtonJustReleased(NewMouse, button) && !NewMouse.justScrolled
    ensures CursorXDelta(NewMouse) == 0.0 && CursorYDelta(NewMouse) == 0.0
  {
  }

  /** `i_onMouseEvent`: a press marks the button pressed and down, a release
      clears down and marks it released, anything else (a repeat) changes
      nothing; other buttons and the cursor are untouched. */
  function OnMouseEvent(m: MouseState, button: int, action: int): (r: MouseState)
    requires ButtonInWord(button)
    ensures action == Press ==>
      ButtonJustPressed(r, button) && IsButtonPressed(r, button) && r.released == m.released
    ensures action == Release ==>
      !IsButtonPressed(r, button) && ButtonJustReleased(r, button) && r.pressed == m.pressed
    ensures action != Press && action != Release ==> r == m
    ensures forall other :: ButtonInWord(other) && other != button ==>
      ButtonJustPressed(r, other) == ButtonJustPressed(m, other) &&
      IsButtonPressed(r, other) == IsButtonPressed(m, other) &&
      ButtonJustReleased(r, other) == ButtonJustReleased(m, other)
    ensures r.cursor == m.cursor && r.prevCursor == m.prevCursor
    ensures r.scrollDelta == m.scrollDelta && r.justScrolled == m.justScrolled
  {
    var b := Pos(button);
    if action == Press then
      var r := MouseState(SetNthBit(m.pressed, b), SetNthBit(m.down, b), m.released,
                          m.prevCursor, m.cursor, m.scrollDelta, m.justScrolled);
      SameBitsElsewhere(m, r, button);
      r
    else if action == Release then
      var r := MouseState(m.pressed, ClearNthBit(m.down, b), SetNthBit(m.released, b),
                          m.prevCursor, m.cursor, m.scrollDelta, m.justScrolled);
      SameBitsElsewhere(m, r, button);
      r
    else
      m
  }

  /** Flag words that agree with `m`'s at every bit but `button`'s agree
      with them on every other button. */
  lemma SameBitsElsewhere(m: MouseState, r: MouseState, button: int)
    requires ButtonInWord(button)
    requires forall j: BitPos :: j != Pos(button) ==>
      IsSet(r.pressed, j) == IsSet(m.pressed, j) && IsSet(r.down, j) == IsSet(m.down, j) &&
      IsSet(r.released, j) == IsSet(m.released, j)
    ensures forall other :: ButtonInWord(other) && other != button ==>
      ButtonJustPressed(r, other) == ButtonJustPressed(m, other) &&
      IsButtonPressed(r, other) == IsButtonPressed(m, other) &&
      ButtonJustReleased(r, other) == ButtonJustReleased(m, other)
  {
    forall other | ButtonInWord(other) && other != button
      ensures ButtonJustPressed(r, other) == ButtonJustPressed(m, other)
      ensures IsButtonPressed(r, other) == IsButtonPressed(m, other)
      ensures ButtonJustReleased(r, other) == ButtonJustReleased(m, other)
    {
      PosInjective(other, button);
    }
  }

  /** `i_onCursorMove`: only the cursor moves. */
  function OnCursorMove(m: MouseState, x: real, y: real): (r: MouseState)
    ensures r.cursor == Vec2(x, y)
    ensures r == m.(cursor := r.cursor)
    ensures CursorXDelta(r) == x - m.prevCursor.x && CursorYDelta(r) == y - m.prevCursor.y
  {
    m.(cursor := Vec2(x, y))
  }

  /** `i_onScroll`: records the delta and raises the scrolled flag. */
  function OnScroll(m: MouseState, dx: real, dy: real): (r: MouseState)
    ensures r.scrollDelta == Vec2(dx, dy) && r.justScrolled
    ensures r == m.(scrollDelta := r.scrollDelta, justScrolled := true)
  {
    m.(scrollDelta := Vec2(dx, dy), justScrolled := true)
  }

  /** `pollInputs`: drops the edge flags and the scroll flag and makes the
      current cursor the reference for the next deltas; down stays. */
  function PollInputs(m: MouseState): (r: MouseState)
    ensures r.down == m.down && r.cursor == m.cursor && r.scrollDelta == m.scrollDelta
    ensures !r.justScrolled && CursorXDelta(r) == 0.0 && CursorYDelta(r) == 0.0
    ensures forall b :: ButtonInWord(b) ==>
      !ButtonJustPressed(r, b) && !ButtonJustReleased(r, b) && IsButtonPressed(r, b) == IsButtonPressed(m, b)
  {
    MouseState(0, m.down, 0, m.cursor, m.cursor, m.scrollDelta, false)
  }

  /** The deltas a frame reports are the distance moved since the previous
      poll, however many move events arrived in between. */
  lemma DeltaIsNetMovement(m: MouseState, x1: real, y1: real, x2: real, y2: real)
    ensures var p := PollInputs(m);
            var r := OnCursorMove(OnCursorMove(p, x1, y1), x2, y2);
            CursorXDelta(r) == x2 - m.cursor.x && CursorYDelta(r) == y2 - m.cursor.y
  {
  }

  /** The helpers as written: the word is chosen as `base + bit / 4` in a
      run of consecutive words, and the bit as `bit % 32`. In `EMMouse` the
      run is pressed, down, released (the fields are declared in that
      order). */
  function RawSetNthBit(mem: seq<Word>, base: nat, bit: int): (r: seq<Word>)
    requires 0 <= bit && base + bit / 4 < |mem|
    ensures |r| == |mem|
    ensures forall i :: 0 <= i < |mem| && i != base + bit / 4 ==> r[i] == mem[i]
    ensures IsSet(r[base + bit / 4], Pos(bit % 32))
  {
    mem[base + bit / 4 := SetNthBit(mem[base + bit / 4], Pos(bit % 32))]
  }

  /** For buttons 0 to 3 the raw helper touches only the addressed word, at
      the button's own bit, as the one-word model does. */
  lemma RawAgreesBelowFour(mem: seq<Word>, base: nat, button: int)
    requires 0 <= button < 4 && base < |mem|
    ensures RawSetNthBit(mem, base, button) == mem[base := SetNthBit(mem[base], Pos(button))]
  {
  }

  /** `i_getNthBit` as written on the same run of words. */
  function RawGetNthBit(mem: seq<Word>, base: nat, bit: int): (r: int)
    requires 0 <= bit && base + bit / 4 < |mem|
    ensures r == 0 || r == 1
    ensures r == 1 <==> IsSet(mem[base + bit / 4], Pos(bit % 32))
  {
    GetNthBit(mem[base + bit / 4], Pos(bit % 32))
  }

  /** A press as written: set the button in the pressed word (offset 0)
      and in the down word (offset 1). */
  function RawPress(mem: seq<Word>, button: int): (r: seq<Word>)
    requires 0 <= button && 1 + button / 4 < |mem|
    ensures |r| == |mem|
  {
    RawSetNthBit(RawSetNthBit(mem, 0, button), 1, button)
  }

  /** `pollInputs` as written: the pressed and released fields (offsets 0
      and 2) are zeroed. */
  function RawPoll(mem: seq<Word>): (r: seq<Word>)
    requires |mem| >= 3
    ensures |r| == |mem| && r[0] == 0 && r[2] == 0 && r[1] == mem[1]
  {
    mem[0 := 0][2 := 0]
  }

  /** A press of button 4 (GLFW's fifth button) from a clear state: both
      writes land one word too far, and after the next poll
      `buttonJustPressed(4)` still reports the press while
      `isButtonPressed(4)` no longer reports the button held. */
  lemma FifthButtonLeaksIntoDown()
    ensures var mem := RawPress([0, 0, 0, 0], 4);
            mem == [0, 16, 16, 0] &&
            RawGetNthBit(RawPoll(mem), 0, 4) == 1 &&
            RawGetNthBit(RawPoll(mem), 1, 4) == 0
  {
    assert SetNthBit(0, 4) == 16;
    var mem := RawPress([0, 0, 0, 0], 4);
    assert mem == [0, 16, 16, 0];
    assert RawPoll(mem) == [0, 16, 0, 0];
  }

  /** The one-word reading: after a press and the next poll the button is
      held but no longer just pressed, for every button of the word. */
  lemma PressThenPoll(m: MouseState, button: int)
    requires ButtonInWord(button)
    ensures var r := PollInputs(OnMouseEvent(m, button, Press));
            IsButtonPressed(r, button) && !ButtonJustPressed(r, button)
  {
  }
}
