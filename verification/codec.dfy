/**
 * The 6-bit fragmentation codec of the HMI2 protocol.
 *
 * Every value on the wire is split into "digits" below 64, so a payload byte
 * can never be mistaken for the frame start '@' (64) or the terminator
 * 'b' (98). Bytes are `bv8`, the 16- and 32-bit words of the data files are
 * `bv16` and `bv32`: the C++ types `uint8_t`, `uint16_t` and `uint32_t`.
 */
module Codec {

  /** One byte of a frame or of the response buffer. */
  type Byte = bv8
  type U16 = bv16
  type U32 = bv32

  // Six-bit fields of a 32-bit value, lowest first (hmi2.h).
  const BYTE6MASK0: U32 := 0x3F
  const BYTE6MASK1: U32 := 0xFC0
  const BYTE6MASK2: U32 := 0x3F000
  const BYTE6MASK3: U32 := 0xFC0000
  const BYTE6MASK4: U32 := 0x3F000000
  const BYTE6MASK5: U32 := 0xC0000000

  // Fields of a 16-bit value: two six-bit digits and a four-bit top digit.
  const LDMASK: U16 := 0x3F
  const MDMASK: U16 := 0xFC0
  const HDMASK: U16 := 0xF000

  /** The six 32-bit field masks, lowest field first. */
  const Masks32: seq<U32> := [BYTE6MASK0, BYTE6MASK1, BYTE6MASK2, BYTE6MASK3, BYTE6MASK4, BYTE6MASK5]

  /** The 32-bit masks are pairwise disjoint, cover every bit and sit at shifts 0, 6, ..., 30. */
  lemma Byte6MasksPartition()
    ensures forall i, j | 0 <= i < j < 6 :: Masks32[i] & Masks32[j] == 0
    ensures BYTE6MASK0 | BYTE6MASK1 | BYTE6MASK2 | BYTE6MASK3 | BYTE6MASK4 | BYTE6MASK5 == 0xFFFF_FFFF
    ensures forall i | 0 <= i < 5 :: Masks32[i] == 0x3F << (6 * i)
    ensures BYTE6MASK5 == 0x3 << 30
  {
  }

  /** The 16-bit masks are disjoint, cover every bit, and the top one is four bits wide. */
  lemma Masks16Partition()
    ensures LDMASK & MDMASK == 0 && LDMASK & HDMASK == 0 && MDMASK & HDMASK == 0
    ensures LDMASK | MDMASK | HDMASK == 0xFFFF
    ensures LDMASK == 0x3F && MDMASK == 0x3F << 6 && HDMASK == 0xF << 12
  {
  }

  /** A small index written as one byte (the `(int8_t)` casts of the frame writers). */
  function ByteOf(n: nat): (b: Byte)
    requires n < 256
    ensures b as nat == n
  {
    if n == 0 then 0 else ByteOf(n - 1) + 1
  }

  datatype Digits8 = Digits8(md: Byte, ld: Byte)
  datatype Digits16 = Digits16(hd: Byte, md: Byte, ld: Byte)
  datatype Digits32 = Digits32(hd32: Byte, md32: Byte, ld32: Byte, hd: Byte, md: Byte, ld: Byte)

  /** A wire digit: below 64, hence never '@' (64) nor 'b' (98). */
  predicate IsDigit(x: Byte) {
    x < 64
  }

  predicate Canonical8(d: Digits8) {
    d.md < 4 && IsDigit(d.ld)
  }

  predicate Canonical16(d: Digits16) {
    d.hd < 16 && IsDigit(d.md) && IsDigit(d.ld)
  }

  predicate Canonical32(d: Digits32) {
    d.hd32 < 4 && IsDigit(d.md32) && IsDigit(d.ld32) && IsDigit(d.hd) && IsDigit(d.md) && IsDigit(d.ld)
  }

  /** `joinInt8`: two digits back into one byte, keeping the low eight bits. */
  function Join8(md: Byte, ld: Byte): (c: Byte)
  {
    (((ld as U16) | ((md as U16) << 6)) & 0xFF) as Byte
  }

  /** `fragmentData8`: a display character split into two digits. */
  function Fragment8(c: Byte): (d: Digits8)
    ensures Canonical8(d)
    ensures Join8(d.md, d.ld) == c
  {
    Digits8((((c as U16) & MDMASK) >> 6) as Byte, ((c as U16) & LDMASK) as Byte)
  }

  lemma Fragment8OfJoin8(md: Byte, ld: Byte)
    requires Canonical8(Digits8(md, ld))
    ensures Fragment8(Join8(md, ld)) == Digits8(md, ld)
  {
  }

  /** `joinInt16`: three digits back into a 16-bit word (masked with 0xFFFF). */
  function Join16(hd: Byte, md: Byte, ld: Byte): (v: U16)
  {
    (((ld as U32) | ((md as U32) << 6) | ((hd as U32) << 12)) & 0xFFFF) as U16
  }

  /** `fragmentData16`: a 16-bit word split into a 4-bit and two 6-bit digits. */
  function Fragment16(v: U16): (d: Digits16)
    ensures Canonical16(d)
    ensures Join16(d.hd, d.md, d.ld) == v
  {
    Digits16(((v & HDMASK) >> 12) as Byte, ((v & MDMASK) >> 6) as Byte, (v & LDMASK) as Byte)
  }

  lemma Fragment16OfJoin16(hd: Byte, md: Byte, ld: Byte)
    requires Canonical16(Digits16(hd, md, ld))
    ensures Fragment16(Join16(hd, md, ld)) == Digits16(hd, md, ld)
  {
  }

  /** Canonical digits are base-64 positional notation: the joins add, never overlap. */
  lemma Join16Positional(hd: Byte, md: Byte, ld: Byte)
    requires Canonical16(Digits16(hd, md, ld))
    ensures Join16(hd, md, ld) as U32 == ((hd as U32) << 12) + ((md as U32) << 6) + ld as U32
  {
  }

  lemma Join8Positional(md: Byte, ld: Byte)
    requires Canonical8(Digits8(md, ld))
    ensures Join8(md, ld) as U16 == ((md as U16) << 6) + ld as U16
  {
  }

  /** C++ `joinInt32`: six digits into a `uint32_t`; shifts past bit 31 are lost. */
  function Join32(d: Digits32): (v: U32)
  {
    ((d.hd32 as U32) << 30) | ((d.md32 as U32) << 24) | ((d.ld32 as U32) << 18)
    | ((d.hd as U32) << 12) | ((d.md as U32) << 6) | (d.ld as U32)
  }

  /**
   * Python `joinInt32`: the same shifts on unbounded integers, without a mask.
   * With byte-sized digits the result needs at most 38 bits. It fits in 32 bits
   * exactly when the first digit is below 4, and then agrees with `Join32`.
   */
  function PyJoin32(d: Digits32): (v: bv40)
    ensures v < 0x1_0000_0000 <==> d.hd32 < 4
    ensures v < 0x1_0000_0000 ==> v == Join32(d) as bv40
  {
    ((d.hd32 as bv40) << 30) | ((d.md32 as bv40) << 24) | ((d.ld32 as bv40) << 18)
    | ((d.hd as bv40) << 12) | ((d.md as bv40) << 6) | (d.ld as bv40)
  }

  /** `fragmentData32`: a 32-bit word split into a 2-bit and five 6-bit digits. */
  function Fragment32(v: U32): (d: Digits32)
    ensures Canonical32(d)
    ensures Join32(d) == v
  {
    Digits32(((v & BYTE6MASK5) >> 30) as Byte, ((v & BYTE6MASK4) >> 24) as Byte,
             ((v & BYTE6MASK3) >> 18) as Byte, ((v & BYTE6MASK2) >> 12) as Byte,
             ((v & BYTE6MASK1) >> 6) as Byte, (v & BYTE6MASK0) as Byte)
  }

  lemma Fragment32OfJoin32(d: Digits32)
    requires Canonical32(d)
    ensures Fragment32(Join32(d)) == d
  {
  }

  /** With canonical digits the fields do not overlap: the join is a positional sum. */
  lemma Join32Positional(d: Digits32)
    requires Canonical32(d)
    ensures Join32(d) == ((d.hd32 as U32) << 30) + ((d.md32 as U32) << 24) + ((d.ld32 as U32) << 18)
                         + ((d.hd as U32) << 12) + ((d.md as U32) << 6) + d.ld as U32
  {
  }

  /**
   * A float as the four bytes of the C++ `floatValue` union, in memory order.
   * Its numeric meaning is never inspected: only the bit pattern travels.
   */
  datatype Float = Float(b0: Byte, b1: Byte, b2: Byte, b3: Byte)

  /** The float 0.0, returned for an out-of-range read. */
  const ZeroFloat: Float := Float(0, 0, 0, 0)

  /** `fragmentDataFloat`: the union bytes assembled little-endian into a 32-bit pattern. */
  function FloatBits(f: Float): (u: U32)
    ensures (u & 0xFF) as Byte == f.b0 && ((u >> 8) & 0xFF) as Byte == f.b1
    ensures ((u >> 16) & 0xFF) as Byte == f.b2 && (u >> 24) as Byte == f.b3
  {
    (f.b0 as U32) | ((f.b1 as U32) << 8) | ((f.b2 as U32) << 16) | ((f.b3 as U32) << 24)
  }

  /** `joinFloat`: a 32-bit pattern written byte by byte into the union. */
  function BitsFloat(u: U32): (f: Float)
    ensures FloatBits(f) == u
  {
    Float((u & 0xFF) as Byte, ((u & 0xFF00) >> 8) as Byte,
          ((u & 0xFF0000) >> 16) as Byte, ((u & 0xFF000000) >> 24) as Byte)
  }

  lemma BitsFloatOfFloatBits(f: Float)
    ensures BitsFloat(FloatBits(f)) == f
  {
  }
}
