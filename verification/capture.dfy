/**
 * How one response is copied into the 128-byte response buffer.
 *
 * The buffer is never cleared: a response overwrites a prefix and the rest
 * keeps whatever an earlier response left there. The Python and Arduino
 * versions differ in what they copy and in what counts as success.
 */
module Capture {
  import opened Codec

  const BufSize: nat := 128
  const EndByte: Byte := 98     // 'b', the frame terminator

  datatype Dialect = Python | Arduino

  /** The position of the first `x` in `s`, or `|s|` when there is none. */
  function FirstIndexOf(s: seq<Byte>, x: Byte): (k: nat)
    ensures k <= |s|
    ensures k < |s| ==> s[k] == x
    ensures forall i | 0 <= i < k :: s[i] != x
  {
    if |s| == 0 then 0 else if s[0] == x then 0 else 1 + FirstIndexOf(s[1..], x)
  }

  /**
   * The bytes a response leaves in the buffer.
   *
   * Python (`checkHardResponse`, `checkLANResponse`) reads a chunk of at most
   * 128 bytes and copies it up to and including the first 'b'. Arduino
   * (`readBytesUntil('b', bufferSerial, 128)`) copies up to but excluding the
   * first 'b', at most 128 bytes; the 'b' itself is consumed, not stored.
   */
  function Stored(d: Dialect, reply: seq<Byte>): (r: seq<Byte>)
    ensures |r| <= BufSize && |r| <= |reply| && r == reply[..|r|]
    ensures d.Python? ==>
              (|r| > 0 <==> |reply| > 0)
              && (forall i | 0 <= i < |r| - 1 :: r[i] != EndByte)
              && (|r| == |reply| || |r| == BufSize || r[|r| - 1] == EndByte)
    ensures d.Arduino? ==>
              (forall i | 0 <= i < |r| :: r[i] != EndByte)
              && (|r| == |reply| || |r| == BufSize || reply[|r|] == EndByte)
  {
    match d
    case Python =>
      var chunk := if |reply| <= BufSize then reply else reply[..BufSize];
      var k := FirstIndexOf(chunk, EndByte);
      if k < |chunk| then chunk[..k + 1] else chunk
    case Arduino =>
      var k := FirstIndexOf(reply, EndByte);
      if k <= BufSize then reply[..k] else reply[..BufSize]
  }

  /** `stored` written over the front of `buf`, the tail left stale. */
  function Overlay(buf: seq<Byte>, stored: seq<Byte>): (r: seq<Byte>)
    requires |stored| <= |buf|
    ensures |r| == |buf| && r[..|stored|] == stored && r[|stored|..] == buf[|stored|..]
  {
    stored + buf[|stored|..]
  }

  /**
   * One response read into the buffer: whether it counts as a response, and
   * the new buffer. An empty reply is a timeout. A response succeeds when at
   * least one byte was stored, so in Python any non-empty chunk succeeds and
   * in Arduino a reply that starts with 'b' fails.
   */
  function Receive(d: Dialect, buf: seq<Byte>, reply: seq<Byte>): (r: (bool, seq<Byte>))
    requires |buf| == BufSize
    ensures |r.1| == BufSize
    ensures d.Python? ==> (r.0 <==> |reply| > 0)
    ensures d.Arduino? ==> (r.0 <==> |reply| > 0 && reply[0] != EndByte)
    ensures r.1 == Overlay(buf, Stored(d, reply))
  {
    var s := Stored(d, reply);
    (|s| > 0, Overlay(buf, s))
  }

  /**
   * The Python copy loop as written: for each byte of the chunk, while the
   * buffer has room, store it, advance, and stop after a 'b'.
   */
  method CopyChunk(buf: seq<Byte>, chunk: seq<Byte>) returns (out: seq<Byte>, idx: nat)
    requires |buf| == BufSize && |chunk| <= BufSize
    ensures idx == |Stored(Python, chunk)|
    ensures out == Overlay(buf, Stored(Python, chunk))
  {
    out := buf;
    idx := 0;
    var i := 0;
    ghost var stopped := false;
    while i < |chunk|
      invariant 0 <= i <= |chunk| && idx == i && |out| == BufSize && !stopped
      invariant forall j | 0 <= j < i :: chunk[j] != EndByte
      invariant forall j | 0 <= j < BufSize :: out[j] == if j < idx then chunk[j] else buf[j]
    {
      var byte := chunk[i];
      if idx < |out| {
        out := out[idx := byte];
        idx := idx + 1;
        if byte == EndByte {
          stopped := true;
          break;
        }
      }
      i := i + 1;
    }
    CopyResult(buf, chunk, out, idx, stopped);
  }

  /** How the copy loop can end: the chunk ran out with no 'b', or a 'b' was the last byte stored. */
  lemma CopyResult(buf: seq<Byte>, chunk: seq<Byte>, out: seq<Byte>, idx: nat, stopped: bool)
    requires |buf| == BufSize && |chunk| <= BufSize && |out| == BufSize && idx <= |chunk|
    requires !stopped ==> idx == |chunk|
    requires stopped ==> 0 < idx && chunk[idx - 1] == EndByte
    requires forall j | 0 <= j < idx - 1 :: chunk[j] != EndByte
    requires !stopped ==> forall j | 0 <= j < idx :: chunk[j] != EndByte
    requires forall j | 0 <= j < BufSize :: out[j] == if j < idx then chunk[j] else buf[j]
    ensures idx == |Stored(Python, chunk)|
    ensures out == Overlay(buf, Stored(Python, chunk))
  {
    var k := FirstIndexOf(chunk, EndByte);
    if stopped {
      assert k == idx - 1;
    } else {
      assert k == |chunk|;
    }
    var st := Stored(Python, chunk);
    assert |st| == idx;
    var ov := Overlay(buf, st);
    forall j | 0 <= j < BufSize
      ensures out[j] == ov[j]
    {
      if j < idx {
        assert ov[..|st|][j] == st[j];
      } else {
        assert ov[|st|..][j - idx] == buf[|st|..][j - idx];
      }
    }
  }

  /**
   * A reply made of a frame body, the terminator and trailing bytes, with the
   * body fitting the buffer: Python keeps the body and the 'b', Arduino the
   * body alone, and trailing bytes never reach the buffer.
   */
  lemma TerminatedReply(body: seq<Byte>, rest: seq<Byte>)
    requires |body| < BufSize && forall i | 0 <= i < |body| :: body[i] != EndByte
    ensures Stored(Python, body + [EndByte] + rest) == body + [EndByte]
    ensures Stored(Arduino, body + [EndByte] + rest) == body
  {
    var reply := body + [EndByte] + rest;
    assert reply[|body|] == EndByte;
    assert reply[..|body|] == body;
    assert reply[..|body| + 1] == body + [EndByte];
  }

  /** A bare 'b' is a response for Python but a failure for Arduino. */
  lemma BareTerminator(buf: seq<Byte>)
    requires |buf| == BufSize
    ensures Receive(Python, buf, [EndByte]).0
    ensures !Receive(Arduino, buf, [EndByte]).0
    ensures Receive(Arduino, buf, [EndByte]).1 == buf
  {
  }

  /** Python needs no terminator: an unterminated short reply is stored whole and succeeds. */
  lemma UnterminatedReply(buf: seq<Byte>, reply: seq<Byte>)
    requires |buf| == BufSize && 0 < |reply| <= BufSize
    requires forall i | 0 <= i < |reply| :: reply[i] != EndByte
    ensures Receive(Python, buf, reply) == (true, reply + buf[|reply|..])
  {
  }
}
