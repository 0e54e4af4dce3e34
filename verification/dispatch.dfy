/**
 * What one pulled response does to the node: the dispatch on the first
 * buffer byte inside the pull loop of `update`.
 *
 * Codes 65, 75, 77 and 79 carry a boolean, an N, a D or an F value for the
 * node's store, laid out like the node's own push payloads (word index, then
 * the bit and '1'/'0', or the value's digits). Code 100 ends the loop, 102
 * asks for the override broadcast, 103 ends the loop and asks for the
 * push-on-103. Any other code is ignored and the loop goes on.
 */
module Dispatch {
  import opened Codec
  import opened BitWord
  import opened DataStore
  import opened Capture
  import opened Frames

  const CodeBit: Byte := 65       // 'A'
  const CodeInt: Byte := 75       // 'K'
  const CodeDInt: Byte := 77      // 'M'
  const CodeReal: Byte := 79      // 'O'
  const CodeDone: Byte := 100     // also 'd', "nothing to pull", as a first response
  const CodeOverride: Byte := 102
  const CodePush: Byte := 103
  const CodeMore: Byte := 99      // 'c': first response announcing values to pull

  /**
   * The word-index guard `bufferSerial[1] < size`, reading the byte as the
   * unsigned value Python's `bytearray` gives.
   */
  predicate Admits(b: Byte, size: nat) {
    b as nat < size
  }

  /** The guard as written in C++, where `bufferSerial` is `char[128]` and `char` may be signed. */
  function SignedChar(b: Byte): int {
    if b < 128 then b as int else b as int - 256
  }

  predicate CxxAdmits(b: Byte, size: nat) {
    SignedChar(b) < size
  }

  /**
   * With a signed `char` every byte from 128 up passes the C++ guard with a
   * negative index, which then addresses memory before the file.
   */
  lemma SignedGuardAdmitsNegative(b: Byte)
    requires b >= 128
    ensures CxxAdmits(b, BSize) && CxxAdmits(b, NdfSize) && SignedChar(b) < 0
  {
  }

  /** The unsigned guard admits exactly the in-range indices and agrees with C++ below 128. */
  lemma GuardInRange(b: Byte, size: nat)
    requires size <= 128
    ensures Admits(b, size) <==> 0 <= SignedChar(b) < size
    ensures b < 128 ==> (Admits(b, size) <==> CxxAdmits(b, size))
  {
  }

  /** The effect of one pulled response. */
  datatype Outcome = Outcome(store: Store, stop: bool, push103: bool, override: bool)

  /** A 32-bit value from the six digits at buffer positions 2..7. */
  function Join32At(buf: seq<Byte>): U32
    requires |buf| >= 8
  {
    Join32(Digits32(buf[2], buf[3], buf[4], buf[5], buf[6], buf[7]))
  }

  /** The dispatch on `buf[0]` of one successful 'c' exchange. */
  function Apply(s: Store, buf: seq<Byte>): (o: Outcome)
    requires Valid(s) && |buf| == BufSize
    ensures Valid(o.store) && FlagsKept(s, o.store)
    ensures o.store.b.over == s.b.over && o.store.b.upd == s.b.upd
    ensures o.store.n.over == s.n.over && o.store.d.over == s.d.over && o.store.f.over == s.f.over
    ensures o.stop <==> buf[0] == CodeDone || buf[0] == CodePush
    ensures o.push103 <==> buf[0] == CodePush
    ensures o.override <==> buf[0] == CodeOverride
    ensures buf[0] !in {CodeBit, CodeInt, CodeDInt, CodeReal} ==> o.store == s
    ensures buf[0] == CodeBit && !Admits(buf[1], BSize) ==> o.store == s
    ensures buf[0] in {CodeInt, CodeDInt, CodeReal} && !Admits(buf[1], NdfSize) ==> o.store == s
  {
    var code := buf[0];
    var w := buf[1] as nat;
    var st :=
      if code == CodeBit && Admits(buf[1], BSize) then
        PullBit(s, w, buf[2], buf[3] == CharOne)
      else if code == CodeInt && Admits(buf[1], NdfSize) then
        s.(n := PullWord(s.n, w, Join16(buf[2], buf[3], buf[4])))
      else if code == CodeDInt && Admits(buf[1], NdfSize) then
        s.(d := PullWord(s.d, w, Join32At(buf)))
      else if code == CodeReal && Admits(buf[1], NdfSize) then
        s.(f := PullWord(s.f, w, BitsFloat(Join32At(buf))))
      else s;
    Outcome(st, code == CodeDone || code == CodePush, code == CodePush, code == CodeOverride)
  }

  /** The pull code the panel uses for the value a push frame carries: two below the push letter. */
  function PullCode(p: Push): Byte {
    match p
    case PushBit(_, _, _) => CodeBit
    case PushInt(_, _) => CodeInt
    case PushDInt(_, _) => CodeDInt
    case PushFloat(_, _) => CodeReal
  }

  /** The reply the panel sends to hand the node the value of `p`: the pull code, the push payload, 'b'. */
  function PullReply(p: Push): (r: seq<Byte>)
    requires PushOk(p)
    ensures |r| == |PushPayload(p)| + 2 && |r| <= BufSize && r[0] == PullCode(p) && r[|r| - 1] == EndByte
  {
    [PullCode(p)] + PushPayload(p) + [EndByte]
  }

  /** Reading of the store at the location of `p`, as the value kind `p` carries. */
  predicate Holds(s: Store, p: Push)
    requires Valid(s) && PushOk(p)
  {
    match p
    case PushBit(w, b, v) => ReadB(s, w, b) == v
    case PushInt(w, n) => ReadN(s, w) == n
    case PushDInt(w, d) => ReadD(s, w) == d
    case PushFloat(w, x) => ReadF(s, w) == x
  }

  /**
   * The buffer after a pull reply, in either dialect: the reply counts, the
   * code is first and the push payload follows byte for byte. Python keeps
   * the 'b' behind the payload and Arduino does not, which the dispatch
   * never reads.
   */
  lemma ReplyInBuffer(d: Dialect, p: Push, buf: seq<Byte>)
    requires PushOk(p) && |buf| == BufSize
    ensures var got := Receive(d, buf, PullReply(p));
            got.0 && got.1[0] == PullCode(p)
            && forall i | 0 <= i < |PushPayload(p)| :: got.1[i + 1] == PushPayload(p)[i]
  {
    var pay := PushPayload(p);
    var body := [PullCode(p)] + pay;
    forall i | 0 <= i < |body|
      ensures body[i] != EndByte
    {
      if i > 0 {
        assert body[i] == pay[i - 1];
      }
    }
    assert PullReply(p) == body + [EndByte] + [];
    TerminatedReply(body, []);
    var st := Stored(d, PullReply(p));
    assert st[..|body|] == body;
    var b := Receive(d, buf, PullReply(p)).1;
    assert b[..|st|] == st;
    forall i | 0 <= i < |pay|
      ensures b[i + 1] == pay[i]
    {
      assert b[i + 1] == st[i + 1] == body[i + 1];
    }
    assert b[0] == st[0] == body[0];
  }

  lemma LandsBit(d: Dialect, s: Store, w: nat, bit: nat, v: bool, buf: seq<Byte>)
    requires Valid(s) && PushOk(PushBit(w, bit, v)) && |buf| == BufSize
    ensures var got := Receive(d, buf, PullReply(PushBit(w, bit, v)));
            var o := Apply(s, got.1);
            got.0 && ReadB(o.store, w, bit) == v && !o.stop && !o.override
  {
    var p := PushBit(w, bit, v);
    ReplyInBuffer(d, p, buf);
    var b := Receive(d, buf, PullReply(p)).1;
    assert b[1] == ByteOf(w) && b[2] == ByteOf(bit);
    assert b[3] == (if v then CharOne else CharZero);
  }

  lemma LandsInt(d: Dialect, s: Store, w: nat, n: U16, buf: seq<Byte>)
    requires Valid(s) && PushOk(PushInt(w, n)) && |buf| == BufSize
    ensures var got := Receive(d, buf, PullReply(PushInt(w, n)));
            var o := Apply(s, got.1);
            got.0 && ReadN(o.store, w) == n && !o.stop && !o.override
  {
    var p := PushInt(w, n);
    ReplyInBuffer(d, p, buf);
    var b := Receive(d, buf, PullReply(p)).1;
    var f := Fragment16(n);
    var pay := PushPayload(p);
    assert pay == [ByteOf(w), f.hd, f.md, f.ld];
    assert b[1] == pay[0] && b[2] == pay[1] && b[3] == pay[2] && b[4] == pay[3];
  }

  /** The six digits of a D or F pull reply sit at buffer positions 2..7. */
  lemma DigitsFollow(d: Dialect, p: Push, buf: seq<Byte>, f: Digits32)
    requires PushOk(p) && |buf| == BufSize && (p.PushDInt? || p.PushFloat?) && Canonical32(f)
    requires PushPayload(p) == [ByteOf(p.word)] + Digits32Bytes(f)
    ensures var b := Receive(d, buf, PullReply(p)).1;
            b[1] == ByteOf(p.word) && Digits32(b[2], b[3], b[4], b[5], b[6], b[7]) == f
  {
    ReplyInBuffer(d, p, buf);
    var pay := PushPayload(p);
    var b := Receive(d, buf, PullReply(p)).1;
    assert b[1] == pay[0] && b[2] == pay[1] && b[3] == pay[2] && b[4] == pay[3];
    assert b[5] == pay[4] && b[6] == pay[5] && b[7] == pay[6];
  }

  lemma LandsDInt(d: Dialect, s: Store, w: nat, v: U32, buf: seq<Byte>)
    requires Valid(s) && PushOk(PushDInt(w, v)) && |buf| == BufSize
    ensures var got := Receive(d, buf, PullReply(PushDInt(w, v)));
            var o := Apply(s, got.1);
            got.0 && ReadD(o.store, w) == v && !o.stop && !o.override
  {
    var p := PushDInt(w, v);
    ReplyInBuffer(d, p, buf);
    var b := Receive(d, buf, PullReply(p)).1;
    var f := Fragment32(v);
    DigitsFollow(d, p, buf, f);
  }

  lemma LandsFloat(d: Dialect, s: Store, w: nat, x: Float, buf: seq<Byte>)
    requires Valid(s) && PushOk(PushFloat(w, x)) && |buf| == BufSize
    ensures var got := Receive(d, buf, PullReply(PushFloat(w, x)));
            var o := Apply(s, got.1);
            got.0 && ReadF(o.store, w) == x && !o.stop && !o.override
  {
    var p := PushFloat(w, x);
    ReplyInBuffer(d, p, buf);
    var b := Receive(d, buf, PullReply(p)).1;
    var f := Fragment32(FloatBits(x));
    DigitsFollow(d, p, buf, f);
    BitsFloatOfFloatBits(x);
  }

  /**
   * A pull reply in the push layout lands exactly in either dialect: it
   * counts as a response, the value travels through the 6-bit digits and is
   * joined back unchanged, whatever the buffer held before, and no flag
   * moves.
   */
  lemma PullReplyLands(d: Dialect, s: Store, p: Push, buf: seq<Byte>)
    requires Valid(s) && PushOk(p) && |buf| == BufSize
    ensures var got := Receive(d, buf, PullReply(p));
            var o := Apply(s, got.1);
            got.0 && Holds(o.store, p) && !o.stop && !o.override && FlagsKept(s, o.store)
  {
    match p
    case PushBit(w, bit, v) => LandsBit(d, s, w, bit, v, buf);
    case PushInt(w, n) => LandsInt(d, s, w, n, buf);
    case PushDInt(w, v) => LandsDInt(d, s, w, v, buf);
    case PushFloat(w, x) => LandsFloat(d, s, w, x, buf);
  }
}
