/**
 * The byte layout of every frame the node sends.
 *
 * A frame opens with '@' (64), carries a command letter and payload bytes,
 * and closes with 'b' (98). Over LAN the whole frame is preceded by one byte
 * naming the panel's memory slot. Payload values travel as 6-bit digits, so
 * with in-range indices the terminator can occur only at the end.
 */
module Frames {
  import opened Wrappers
  import opened Codec
  import opened DataStore

  const FrameStart: Byte := 64      // '@'
  const Terminator: Byte := 98      // 'b'

  // Command letters sent by the node.
  const CmdSync: Byte := 97         // 'a': first request after init
  const CmdCheck: Byte := 101       // 'e': later requests
  const CmdNext: Byte := 99         // 'c': next pulled value
  const CmdBit: Byte := 67          // 'C'
  const CmdInt: Byte := 76          // 'L'
  const CmdDInt: Byte := 78         // 'N'
  const CmdFloat: Byte := 80        // 'P'
  const CmdText: Byte := 107        // 'k'

  const CharOne: Byte := 49         // '1'
  const CharZero: Byte := 48        // '0'

  /** How the node reaches the panel; a LAN link prefixes every frame with its slot. */
  datatype Transport = Detached | Serial | Lan(slot: Byte)

  /** The bytes written to the transport for `frame`. */
  function OnWire(t: Transport, frame: seq<Byte>): (w: seq<Byte>)
    requires !t.Detached?
    ensures t.Serial? ==> w == frame
    ensures t.Lan? ==> |w| == |frame| + 1 && w[0] == t.slot && w[1..] == frame
  {
    if t.Lan? then [t.slot] + frame else frame
  }

  /** A well-formed frame: '@' first, 'b' last and nowhere else. */
  predicate Delimited(f: seq<Byte>) {
    |f| >= 3 && f[0] == FrameStart && f[|f| - 1] == Terminator
    && forall i | 0 <= i < |f| - 1 :: f[i] != Terminator
  }

  /** `sendBasicCommand`: a command letter alone between the delimiters. */
  function BasicFrame(cmd: Byte): (f: seq<Byte>)
    ensures cmd != Terminator ==> Delimited(f)
    ensures |f| == 3 && f[1] == cmd
  {
    [FrameStart, cmd, Terminator]
  }

  /** The six digits of a 32-bit pattern, most significant first. */
  function Digits32Bytes(d: Digits32): (r: seq<Byte>)
    requires Canonical32(d)
    ensures |r| == 6 && forall i | 0 <= i < 6 :: r[i] < 64
  {
    [d.hd32, d.md32, d.ld32, d.hd, d.md, d.ld]
  }

  /** A frame around `payload`: '@', the command letter, the payload, 'b'. */
  function Framed(cmd: Byte, payload: seq<Byte>): (f: seq<Byte>)
    ensures |f| == |payload| + 3 && f[1] == cmd && f[2..|f| - 1] == payload
    ensures cmd != Terminator && (forall i | 0 <= i < |payload| :: payload[i] != Terminator) ==> Delimited(f)
  {
    [FrameStart, cmd] + payload + [Terminator]
  }

  /** The payload of a push frame: the word index, then the bit or the value's digits. */
  function PushPayload(p: Push): (r: seq<Byte>)
    requires PushOk(p)
    ensures |r| == (match p
                    case PushBit(_, _, _) => 3
                    case PushInt(_, _) => 4
                    case _ => 7)
    ensures r[0] as nat == p.word
    ensures forall i | 0 <= i < |r| :: r[i] != Terminator
  {
    match p
    case PushBit(w, b, v) => [ByteOf(w), ByteOf(b), if v then CharOne else CharZero]
    case PushInt(w, n) =>
      var d := Fragment16(n);
      [ByteOf(w), d.hd, d.md, d.ld]
    case PushDInt(w, v) => [ByteOf(w)] + Digits32Bytes(Fragment32(v))
    case PushFloat(w, x) => [ByteOf(w)] + Digits32Bytes(Fragment32(FloatBits(x)))
  }

  /** The command letter of a push frame. */
  function PushCmd(p: Push): Byte {
    match p
    case PushBit(_, _, _) => CmdBit
    case PushInt(_, _) => CmdInt
    case PushDInt(_, _) => CmdDInt
    case PushFloat(_, _) => CmdFloat
  }

  /** `writeBFile2`, `writeNFile2`, `writeDFile2` and `writeFFile2`: the frame of one push. */
  function PushFrame(p: Push): (f: seq<Byte>)
    requires PushOk(p)
    ensures Delimited(f)
    ensures |f| == |PushPayload(p)| + 3 && f[2] as nat == p.word
  {
    Framed(PushCmd(p), PushPayload(p))
  }

  /** The six digits at positions 3..8 of a frame, read back into a `Digits32`. */
  function DigitsAt(f: seq<Byte>): Digits32
    requires |f| >= 9
  {
    Digits32(f[3], f[4], f[5], f[6], f[7], f[8])
  }

  /**
   * The panel's reading of a push frame: the location and the value it
   * carries, or `None` for bytes that are not a push frame.
   */
  function DecodePush(f: seq<Byte>): (r: Option<Push>)
    ensures r.Some? ==> PushOk(r.value) && |f| >= 6 && f[1] in {CmdBit, CmdInt, CmdDInt, CmdFloat}
  {
    if |f| == 6 && f[0] == FrameStart && f[1] == CmdBit && f[5] == Terminator
       && (f[4] == CharOne || f[4] == CharZero) && f[2] as nat < BSize && f[3] < 16 then
      Some(PushBit(f[2] as nat, f[3] as nat, f[4] == CharOne))
    else if |f| == 7 && f[0] == FrameStart && f[1] == CmdInt && f[6] == Terminator && f[2] as nat < NdfSize then
      Some(PushInt(f[2] as nat, Join16(f[3], f[4], f[5])))
    else if |f| == 10 && f[0] == FrameStart && f[1] == CmdDInt && f[9] == Terminator && f[2] as nat < NdfSize then
      Some(PushDInt(f[2] as nat, Join32(DigitsAt(f))))
    else if |f| == 10 && f[0] == FrameStart && f[1] == CmdFloat && f[9] == Terminator && f[2] as nat < NdfSize then
      Some(PushFloat(f[2] as nat, BitsFloat(Join32(DigitsAt(f)))))
    else
      None
  }

  /** Every push frame reads back as the push that produced it. */
  lemma DecodePushFrame(p: Push)
    requires PushOk(p)
    ensures DecodePush(PushFrame(p)) == Some(p)
  {
    var f := PushFrame(p);
    match p
    case PushBit(w, b, v) =>
      assert f == [FrameStart, CmdBit, ByteOf(w), ByteOf(b), if v then CharOne else CharZero, Terminator];
    case PushInt(w, n) =>
      var d := Fragment16(n);
      assert f == [FrameStart, CmdInt, ByteOf(w), d.hd, d.md, d.ld, Terminator];
    case PushDInt(w, v) =>
      var d := Fragment32(v);
      assert f == [FrameStart, CmdDInt, ByteOf(w)] + Digits32Bytes(d) + [Terminator];
      assert DigitsAt(f) == d;
    case PushFloat(w, x) =>
      var d := Fragment32(FloatBits(x));
      assert f == [FrameStart, CmdFloat, ByteOf(w)] + Digits32Bytes(d) + [Terminator];
      assert DigitsAt(f) == d;
      BitsFloatOfFloatBits(x);
  }

  // --------------------------------------------------------------- display

  /** The sixteen characters of a display line as (md, ld) digit pairs, left to right. */
  function Pairs(line: seq<Byte>): (r: seq<Byte>)
    ensures |r| == 2 * |line|
  {
    if |line| == 0 then []
    else
      var d := Fragment8(line[0]);
      [d.md, d.ld] + Pairs(line[1..])
  }

  /** Every byte of the pairs is a digit, so no character can pose as a delimiter. */
  lemma {:induction false} PairsAreDigits(line: seq<Byte>)
    ensures forall i | 0 <= i < |Pairs(line)| :: Pairs(line)[i] < 64
  {
    if |line| > 0 {
      PairsAreDigits(line[1..]);
      assert Canonical8(Fragment8(line[0]));
    }
  }

  /** The panel's reading of digit pairs: each pair joined back into one character. */
  function Unpairs(digits: seq<Byte>): (line: seq<Byte>)
    requires |digits| % 2 == 0
    ensures |line| == |digits| / 2
  {
    if |digits| == 0 then [] else [Join8(digits[0], digits[1])] + Unpairs(digits[2..])
  }

  lemma {:induction false} UnpairsPairs(line: seq<Byte>)
    ensures Unpairs(Pairs(line)) == line
  {
    if |line| > 0 {
      var p := Pairs(line);
      assert p[2..] == Pairs(line[1..]);
      UnpairsPairs(line[1..]);
      assert Join8(p[0], p[1]) == line[0];
      assert Unpairs(p) == [line[0]] + line[1..];
    }
  }

  /**
   * The display frame of `writeText2Line`: 'k', the line as sixteen digit
   * pairs, the display id, then '1' for the top row or '0' for any other.
   */
  function DisplayFrame(line: seq<Byte>, id: Byte, row: int): (f: seq<Byte>)
    requires |line| == 16
    ensures |f| == 37 && f[1] == CmdText && f[34] == id
    ensures f[35] == (if row == 0 then CharOne else CharZero)
    ensures id != Terminator ==> Delimited(f)
  {
    PairsAreDigits(line);
    Framed(CmdText, Pairs(line) + [id, if row == 0 then CharOne else CharZero])
  }

  /** The panel's reading of a display frame: line, display id and top-row flag. */
  function DecodeDisplay(f: seq<Byte>): (r: Option<(seq<Byte>, Byte, bool)>)
    ensures r.Some? ==> |r.value.0| == 16
  {
    if |f| == 37 && f[0] == FrameStart && f[1] == CmdText && f[36] == Terminator
       && (f[35] == CharOne || f[35] == CharZero) then
      Some((Unpairs(f[2..34]), f[34], f[35] == CharOne))
    else
      None
  }

  lemma DecodeDisplayFrame(line: seq<Byte>, id: Byte, row: int)
    requires |line| == 16
    ensures DecodeDisplay(DisplayFrame(line, id, row)) == Some((line, id, row == 0))
  {
    assert DisplayFrame(line, id, row)[2..34] == Pairs(line);
    UnpairsPairs(line);
  }
}
