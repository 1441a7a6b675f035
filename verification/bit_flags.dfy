/** The single-bit helpers `i_setNthBit`, `i_clearNthBit` and
    `i_getNthBit` on one 32-bit flag word. Shaders.cpp applies them to its
    uniform dirty word directly; Keyboard.cpp and Mouse.cpp first pick a
    word out of an array (see `Keyboard` and `Mouse`). A bit position is a
    5-bit value, so every shift amount is below 32. */
module BitFlags {
  /** A `uint32_t` flag word. */
  type Word = bv32

  /** A shift amount in [0, 32). */
  type BitPos = bv5

  const AllSet: Word := 0xFFFF_FFFF

  /** The shift amount of a bit number below 32. */
  function Pos(i: int): (p: BitPos)
    requires 0 <= i < 32
    ensures p as int == i
  {
    i as BitPos
  }

  lemma PosInjective(i: int, j: int)
    requires 0 <= i < 32 && 0 <= j < 32 && i != j
    ensures Pos(i) != Pos(j)
  {
    assert Pos(i) as int != Pos(j) as int;
  }

  /** `((uint32_t)1) << bit`. */
  function Mask(bit: BitPos): Word
  {
    (1 as Word) << bit
  }

  /** Whether the bit is set in the word. */
  predicate IsSet(w: Word, bit: BitPos)
  {
    w & Mask(bit) != 0
  }

  /** `i_getNthBit`: the selected bit, shifted down to position 0. */
  function GetNthBit(w: Word, bit: BitPos): (r: int)
    ensures r == 0 || r == 1
    ensures r == 1 <==> IsSet(w, bit)
  {
    MaskedShift(w, bit);
    ((Mask(bit) & w) >> bit) as int
  }

  lemma MaskedShift(w: Word, bit: BitPos)
    ensures (Mask(bit) & w) >> bit == if IsSet(w, bit) then 1 else 0
  {
  }

  /** `i_setNthBit`: or-s the mask in. */
  function SetNthBit(w: Word, bit: BitPos): (r: Word)
    ensures IsSet(r, bit)
    ensures forall j: BitPos :: j != bit ==> IsSet(r, j) == IsSet(w, j)
  {
    var r := w | Mask(bit);
    SetBitAt(w, bit, bit);
    forall j: BitPos | j != bit
      ensures IsSet(r, j) == IsSet(w, j)
    {
      SetBitAt(w, bit, j);
    }
    r
  }

  /** One bit of `w | Mask(bit)`. */
  lemma SetBitAt(w: Word, bit: BitPos, j: BitPos)
    ensures IsSet(w | Mask(bit), j) == (j == bit || IsSet(w, j))
  {
    assert (w | Mask(bit)) & Mask(j) == (w & Mask(j)) | (Mask(bit) & Mask(j));
    if j != bit {
      assert Mask(bit) & Mask(j) == 0;
    }
  }

  /** `i_clearNthBit`: and-s the complement of the mask in. */
  function ClearNthBit(w: Word, bit: BitPos): (r: Word)
    ensures !IsSet(r, bit)
    ensures forall j: BitPos :: j != bit ==> IsSet(r, j) == IsSet(w, j)
  {
    var r := w & !Mask(bit);
    ClearBitAt(w, bit, bit);
    forall j: BitPos | j != bit
      ensures IsSet(r, j) == IsSet(w, j)
    {
      ClearBitAt(w, bit, j);
    }
    r
  }

  /** One bit of `w & !Mask(bit)`. */
  lemma ClearBitAt(w: Word, bit: BitPos, j: BitPos)
    ensures IsSet(w & !Mask(bit), j) == (j != bit && IsSet(w, j))
  {
  }

  /** Setting a bit that is already set changes nothing, and a set followed
      by a clear of the same bit is the same as the clear alone. */
  lemma SetClearLaws(w: Word, bit: BitPos)
    ensures IsSet(w, bit) ==> SetNthBit(w, bit) == w
    ensures ClearNthBit(SetNthBit(w, bit), bit) == ClearNthBit(w, bit)
  {
  }
}
