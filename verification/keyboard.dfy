/** `EMKeyboard`: four arrays of 88 flag words (pressed, down, released,
    repeating) driven by the GLFW key callback and cleared once per frame by
    `pollInputs`. A key selects word `key / 4` and bit `key % 32` of that
    word: wasteful, but every key below 352 lands in a distinct (word, bit)
    pair inside the array. */
module Keyboard {
  import opened BitFlags

  /** `INT_KEYFLAGS_SIZE`. */
  const FlagWords: nat := 88

  /** GLFW's action codes. */
  const Release: int := 0
  const Press: int := 1
  const Repeat: int := 2

  /** Keys whose word `key / 4` lies inside the array. */
  predicate KeyInRange(key: int)
  {
    0 <= key < 4 * FlagWords
  }

  /** `flagBuffer + (bit / sizeof(int32_t))`. */
  function Chunk(key: int): (c: nat)
    requires KeyInRange(key)
    ensures c < FlagWords
  {
    key / 4
  }

  /** `bit % 32`. */
  function Bit(key: int): BitPos
    requires KeyInRange(key)
  {
    Pos(key % 32)
  }

  /** No two keys share a flag: the keys of one word differ by less than 4,
      so they sit in one block of 32 and their bit numbers differ. */
  lemma SlotInjective(a: int, b: int)
    requires KeyInRange(a) && KeyInRange(b) && a != b
    ensures Chunk(a) != Chunk(b) || Bit(a) != Bit(b)
  {
    if Chunk(a) == Chunk(b) {
      assert -4 < a - b < 4;
      PosInjective(a % 32, b % 32);
    }
  }

  predicate FlagsValid(f: seq<Word>)
  {
    |f| == FlagWords
  }

  /** `i_getNthBit` on a word array. */
  function GetKey(f: seq<Word>, key: int): (r: int)
    requires FlagsValid(f) && KeyInRange(key)
    ensures r == 0 || r == 1
  {
    GetNthBit(f[Chunk(key)], Bit(key))
  }

  /** `i_setNthBit` on a word array: afterwards the key reads 1 and every
      other key reads as before. */
  function SetKey(f: seq<Word>, key: int): (r: seq<Word>)
    requires FlagsValid(f) && KeyInRange(key)
    ensures FlagsValid(r) && GetKey(r, key) == 1
    ensures forall k :: KeyInRange(k) && k != key ==> GetKey(r, k) == GetKey(f, k)
  {
    var r := f[Chunk(key) := SetNthBit(f[Chunk(key)], Bit(key))];
    forall k | KeyInRange(k) && k != key
      ensures GetKey(r, k) == GetKey(f, k)
    {
      SlotInjective(k, key);
    }
    r
  }

  /** `i_clearNthBit` on a word array: afterwards the key reads 0 and every
      other key reads as before. */
  function ClearKey(f: seq<Word>, key: int): (r: seq<Word>)
    requires FlagsValid(f) && KeyInRange(key)
    ensures FlagsValid(r) && GetKey(r, key) == 0
    ensures forall k :: KeyInRange(k) && k != key ==> GetKey(r, k) == GetKey(f, k)
  {
    var r := f[Chunk(key) := ClearNthBit(f[Chunk(key)], Bit(key))];
    forall k | KeyInRange(k) && k != key
      ensures GetKey(r, k) == GetKey(f, k)
    {
      SlotInjective(k, key);
    }
    r
  }

  /** `memset(..., 0, ...)` of one array. */
  function ZeroWords(n: nat): (r: seq<Word>)
    ensures |r| == n && forall i :: 0 <= i < n ==> r[i] == 0
  {
    if n == 0 then [] else ZeroWords(n - 1) + [0]
  }

  const Zeroed: seq<Word> := ZeroWords(FlagWords)

  lemma ZeroedReadsZero(key: int)
    requires KeyInRange(key)
    ensures GetKey(Zeroed, key) == 0
  {
  }

  datatype KeyStates = KeyStates(pressed: seq<Word>, down: seq<Word>, released: seq<Word>, repeating: seq<Word>)

  predicate Valid(k: KeyStates)
  {
    FlagsValid(k.pressed) && FlagsValid(k.down) && FlagsValid(k.released) && FlagsValid(k.repeating)
  }

  /** The constructor: every flag starts at zero. */
  function NewKeyboard(): (k: KeyStates)
    ensures Valid(k)
    ensures forall key :: KeyInRange(key) ==>
      GetKey(k.pressed, key) == 0 && GetKey(k.down, key) == 0 &&
      GetKey(k.released, key) == 0 && GetKey(k.repeating, key) == 0
  {
    KeyStates(Zeroed, Zeroed, Zeroed, Zeroed)
  }

  /** `keyJustPressed`, `isKeyPressed`, `keyJustReleased`, `isKeyRepeating`. */
  function KeyJustPressed(k: KeyStates, key: int): bool
    requires Valid(k) && KeyInRange(key)
  {
    GetKey(k.pressed, key) == 1
  }

  function IsKeyPressed(k: KeyStates, key: int): bool
    requires Valid(k) && KeyInRange(key)
  {
    GetKey(k.down, key) == 1
  }

  function KeyJustReleased(k: KeyStates, key: int): bool
    requires Valid(k) && KeyInRange(key)
  {
    GetKey(k.released, key) == 1
  }

  function IsKeyRepeating(k: KeyStates, key: int): bool
    requires Valid(k) && KeyInRange(key)
  {
    GetKey(k.repeating, key) == 1
  }

  /** `i_onKeyEvent`: a press marks the key pressed and down, a release
      clears down and marks it released, a repeat marks it repeating, any
      other action changes nothing; no other key is affected. */
  function OnKeyEvent(k: KeyStates, key: int, action: int): (r: KeyStates)
    requires Valid(k) && KeyInRange(key)
    ensures Valid(r)
    ensures action == Press ==>
      KeyJustPressed(r, key) && IsKeyPressed(r, key) &&
      r.released == k.released && r.repeating == k.repeating
    ensures action == Release ==>
      !IsKeyPressed(r, key) && KeyJustReleased(r, key) &&
      r.pressed == k.pressed && r.repeating == k.repeating
    ensures action == Repeat ==>
      IsKeyRepeating(r, key) && r.pressed == k.pressed && r.down == k.down && r.released == k.released
    ensures action != Press && action != Release && action != Repeat ==> r == k
    ensures forall other :: KeyInRange(other) && other != key ==>
      KeyJustPressed(r, other) == KeyJustPressed(k, other) &&
      IsKeyPressed(r, other) == IsKeyPressed(k, other) &&
      KeyJustReleased(r, other) == KeyJustReleased(k, other) &&
      IsKeyRepeating(r, other) == IsKeyRepeating(k, other)
  {
    if action == Press then
      k.(pressed := SetKey(k.pressed, key), down := SetKey(k.down, key))
    else if action == Release then
      k.(down := ClearKey(k.down, key), released := SetKey(k.released, key))
    else if action == Repeat then
      k.(repeating := SetKey(k.repeating, key))
    else
      k
  }

  /** `pollInputs`: the edge-triggered flags go back to zero, the down
      states stay. */
  function PollInputs(k: KeyStates): (r: KeyStates)
    requires Valid(k)
    ensures Valid(r) && r.down == k.down
    ensures forall key :: KeyInRange(key) ==>
      !KeyJustPressed(r, key) && !KeyJustReleased(r, key) && !IsKeyRepeating(r, key)
  {
    k.(pressed := Zeroed, released := Zeroed, repeating := Zeroed)
  }

  /** A press followed by a release, with a poll in between or not, leaves
      the key up and flagged as just released. */
  lemma PressThenRelease(k: KeyStates, key: int, poll: bool)
    requires Valid(k) && KeyInRange(key)
    ensures var k1 := OnKeyEvent(k, key, Press);
            var k2 := if poll then PollInputs(k1) else k1;
            var k3 := OnKeyEvent(k2, key, Release);
            !IsKeyPressed(k3, key) && KeyJustReleased(k3, key) &&
            (KeyJustPressed(k3, key) <==> !poll)
  {
  }
}
