/**
 * Bit helpers over the 16-bit words of the boolean file and of its update
 * and override flag words.
 *
 * The source builds its masks on plain integers and masks every stored word
 * with 0xFFFF right after using one, so only the low sixteen bits of a mask
 * ever matter. The masks are therefore computed in `bv16`, whose shifts and
 * additions are exactly those sixteen bits of the integer computation.
 */
module BitWord {
  import opened Codec

  /** Low sixteen bits of `setBitToInt(bit)`, that is of `1 << bit`. */
  function SetMask(bit: Byte): U16 {
    if bit < 16 then 1 << bit else 0
  }

  /**
   * Low sixteen bits of `clearBitToInt(bit)`: start from 0xFFFE and, `bit`
   * times, shift left by one and add one.
   */
  function ClearMask(bit: Byte): U16 {
    if bit == 0 then 0xFFFE else (ClearMask(bit - 1) << 1) + 1
  }

  /** The clearing mask is the complement of the setting mask, for every bit position. */
  lemma {:induction false} ClearMaskComplement(bit: Byte)
    ensures ClearMask(bit) == !SetMask(bit)
  {
    if bit > 0 {
      ClearMaskComplement(bit - 1);
    }
  }

  /** Below bit 16, `clearBitToInt(bit) & 0xFFFF` is 0xFFFF with bit `bit` cleared; above, all ones. */
  lemma ClearMaskValue(bit: Byte)
    ensures bit < 16 ==> ClearMask(bit) == 0xFFFF - (1 << bit)
    ensures bit >= 16 ==> ClearMask(bit) == 0xFFFF
  {
    ClearMaskComplement(bit);
  }

  /** `getBitWord`: bit `bit` of `w`. */
  function GetBit(w: U16, bit: Byte): bool
    requires bit < 16
  {
    (w >> bit) & 1 == 1
  }

  /** Or-ing in the set mask raises bit `bit` and no other. */
  lemma OrMaskAt(w: U16, bit: Byte, c: Byte)
    requires bit < 16 && c < 16
    ensures GetBit(w | SetMask(bit), c) == (c == bit || GetBit(w, c))
  {
  }

  /** And-ing in the complement of the set mask lowers bit `bit` and no other. */
  lemma AndNotMaskAt(w: U16, bit: Byte, c: Byte)
    requires bit < 16 && c < 16
    ensures GetBit(w & !SetMask(bit), c) == (c != bit && GetBit(w, c))
  {
  }

  lemma OrMask(w: U16, bit: Byte)
    requires bit < 16
    ensures forall c | 0 <= c < 16 :: GetBit(w | SetMask(bit), c) == (c == bit || GetBit(w, c))
  {
    forall c | 0 <= c < 16 {
      OrMaskAt(w, bit, c);
    }
  }

  lemma AndNotMask(w: U16, bit: Byte)
    requires bit < 16
    ensures forall c | 0 <= c < 16 :: GetBit(w & !SetMask(bit), c) == (c != bit && GetBit(w, c))
  {
    forall c | 0 <= c < 16 {
      AndNotMaskAt(w, bit, c);
    }
  }

  /** Past bit 15 the set mask is empty and the clear mask is all ones. */
  lemma MasksHigh(w: U16, bit: Byte)
    requires bit >= 16
    ensures w | SetMask(bit) == w && w & !SetMask(bit) == w
  {
  }

  /**
   * `setBitWord` on one word: or-in the set mask, or and-in the clear mask,
   * which `ClearMaskComplement` shows to be the complement of the set mask.
   * The bit index is unchecked by the source; for a bit at 16 or above both
   * masks leave the word as it was.
   */
  function SetBit(w: U16, bit: Byte, value: bool): (r: U16)
    ensures bit < 16 ==> GetBit(r, bit) == value
    ensures bit < 16 ==> forall c | 0 <= c < 16 && c != bit :: GetBit(r, c) == GetBit(w, c)
    ensures bit >= 16 ==> r == w
  {
    if bit < 16 then
      (if value then MarkBit(w, bit) else ResetBit(w, bit))
    else
      MasksHigh(w, bit);
      if value then w | SetMask(bit) else w & !SetMask(bit)
  }

  /** `setBitWordUpdate`: or-in the bit, keeping every bit already set. */
  function MarkBit(w: U16, bit: Byte): (r: U16)
    requires bit < 16
    ensures GetBit(r, bit)
    ensures forall c | 0 <= c < 16 && c != bit :: GetBit(r, c) == GetBit(w, c)
  {
    OrMask(w, bit);
    w | SetMask(bit)
  }

  /** `resetBitWordOver`: and-in the clear mask. */
  function ResetBit(w: U16, bit: Byte): (r: U16)
    requires bit < 16
    ensures !GetBit(r, bit)
    ensures forall c | 0 <= c < 16 && c != bit :: GetBit(r, c) == GetBit(w, c)
  {
    AndNotMask(w, bit);
    w & !SetMask(bit)
  }

  /** A word is zero exactly when none of its sixteen bits is set. */
  lemma ZeroWordHasNoBits(w: U16)
    ensures w == 0 <==> forall c | 0 <= c < 16 :: !GetBit(w, c)
  {
    if w != 0 {
      var c: Byte := 0;
      while c < 16 && !GetBit(w, c)
        invariant c <= 16
        invariant w >> c != 0
      {
        c := c + 1;
      }
    }
  }

  /** The all-ones word written by the override broadcast (`-1` as an `int16_t`). */
  const AllBits: U16 := 0xFFFF

  lemma AllBitsSet(c: Byte)
    requires c < 16
    ensures GetBit(AllBits, c)
  {
  }
}
