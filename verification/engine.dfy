/**
 * The node as a whole: the `update` state machine, the exchanges it makes,
 * the typed accessors and `print`, `init`, and the auto-update throttle.
 *
 * The panel and the clock are inputs. Each exchange consumes one `Tick`
 * from a script; when the script runs out no further exchange is made.
 */
module Engine {
  import opened Wrappers
  import opened Codec
  import opened BitWord
  import opened DataStore
  import opened Frames
  import opened Display
  import opened Capture
  import opened Link
  import opened Dispatch
  import opened Resync

  /**
   * One exchange as the outside world plays it: the clock when it starts,
   * whether a LAN connect attempt is accepted, the bytes that come back,
   * whether they came in the same poll that saw the 900 ms deadline, and the
   * clock when it ends: after the response wait, or after a failed connect
   * attempt has given up.
   */
  datatype Tick = Tick(start: int, accepts: bool, reply: seq<Byte>, late: bool, end: int)

  /**
   * The transport-facing state: the response buffer, the LAN link, the
   * transport chosen by `init`, the dialect, and every byte string written
   * to the transport so far, in order.
   */
  datatype Io = Io(buf: seq<Byte>, link: Link, transport: Transport, dialect: Dialect, sent: seq<seq<Byte>>)

  predicate IoOk(io: Io) {
    |io.buf| == BufSize
  }

  /**
   * The node: the store, the display buffer, the transport state, the
   * `syncro` (first sync still due), `overrideSend` (broadcast requested)
   * and `overDisplay` (full display refresh) flags, and the auto-update
   * settings of the Python node.
   */
  datatype Node = Node(store: Store, screen: Screen, io: Io, syncro: bool, overrideSend: bool, overDisplay: bool,
                       autoOn: bool, interval: int, lastUpdate: int)

  predicate NodeOk(e: Node) {
    Valid(e.store) && ScreenOk(e.screen) && IoOk(e.io)
  }

  /**
   * The state after construction, before `init`. The Python constructor
   * blanks the display rows and their post copies, marks the first sync as
   * due, lets the first connect attempt go ahead and turns auto-update on at
   * 50 ms. The C++ class has no constructor: a global node starts
   * zero-filled, so its display is `Zeroed`, every flag is clear, and it has
   * no auto-update.
   */
  function Fresh(d: Dialect): (e: Node)
    ensures NodeOk(e) && e.io.transport.Detached? && e.io.dialect == d && e.io.sent == []
    ensures e.store == EmptyStore() && !e.overrideSend && !e.overDisplay
    ensures d.Python? ==> e.syncro && e.screen == Display.Fresh() && e.io.link == Initial && e.autoOn && e.interval == 50
    ensures d.Arduino? ==>
              !e.syncro && e.screen == Zeroed() && !e.autoOn
              && !e.io.link.connected && !e.io.link.reconnect && !e.io.link.streak
  {
    match d
    case Python =>
      Node(EmptyStore(), Display.Fresh(), Io(seq(BufSize, _ => 0), Initial, Detached, d, []),
           true, false, false, true, 50, 0)
    case Arduino =>
      Node(EmptyStore(), Zeroed(), Io(seq(BufSize, _ => 0), Link(false, false, 0, false, 0), Detached, d, []),
           false, false, false, false, 0, 0)
  }

  /** `f.sent` extends `e.sent`: the log only grows. */
  predicate Logged(e: Io, f: Io) {
    |e.sent| <= |f.sent| && f.sent[..|e.sent|] == e.sent
  }

  lemma LoggedTrans(a: Io, b: Io, c: Io)
    requires Logged(a, b) && Logged(b, c)
    ensures Logged(a, c)
  {
    assert c.sent[..|a.sent|] == c.sent[..|b.sent|][..|a.sent|];
  }

  datatype Ex = Ex(ok: bool, io: Io, rest: seq<Tick>)

  /**
   * One exchange: `frame` is written and the response read
   * (`sendBasicCommand`, `write*File2`, the display send). Over LAN the frame
   * goes out only if `connect2Server` succeeds, and the response settles the
   * timeout streak. Without a transport or a tick nothing happens.
   */
  function Exchange(io: Io, frame: seq<Byte>, ticks: seq<Tick>): (x: Ex)
    requires IoOk(io)
    ensures IoOk(x.io) && x.io.transport == io.transport && x.io.dialect == io.dialect
    ensures |ticks| == 0 || io.transport.Detached? ==> x == Ex(false, io, ticks)
    ensures |ticks| > 0 && !io.transport.Detached? ==> x.rest == ticks[1..]
    ensures !io.transport.Detached? ==> x.io.sent == io.sent || x.io.sent == io.sent + [OnWire(io.transport, frame)]
    ensures io.transport.Serial? && |ticks| > 0 ==>
              x.io.sent == io.sent + [frame] && x.io.link == io.link
              && (x.ok, x.io.buf) == Receive(io.dialect, io.buf, ticks[0].reply)
    ensures io.transport.Lan? && |ticks| > 0 ==>
              (x.io.sent != io.sent <==> Connect(io.link, ticks[0].start, ticks[0].accepts, ticks[0].end).0)
    ensures x.ok ==> |x.io.sent| == |io.sent| + 1 && |x.rest| < |ticks|
  {
    if |ticks| == 0 || io.transport.Detached? then Ex(false, io, ticks)
    else
      var t := ticks[0];
      var c := if io.transport.Lan? then Connect(io.link, t.start, t.accepts, t.end) else (true, io.link);
      if !c.0 then Ex(false, io.(link := c.1), ticks[1..])
      else
        var got := Receive(io.dialect, io.buf, t.reply);
        var l := if io.transport.Lan? then Settle(c.1, got.0, |t.reply| == 0 || t.late, t.end) else io.link;
        Ex(got.0, io.(buf := got.1, link := l, sent := io.sent + [OnWire(io.transport, frame)]), ticks[1..])
  }

  lemma ExchangeLogs(io: Io, frame: seq<Byte>, ticks: seq<Tick>)
    requires IoOk(io)
    ensures Logged(io, Exchange(io, frame, ticks).io)
  {
    var x := Exchange(io, frame, ticks);
    if x.io.sent != io.sent {
      assert x.io.sent[..|io.sent|] == io.sent;
    }
  }

  /**
   * What the pull loop leaves: the store, the transport state, the unused
   * ticks, the first byte of every successful response in order, and the
   * `syncro`, `overrideSend` and push-on-103 flags as the loop set them.
   */
  datatype PullOut = PullOut(store: Store, io: Io, rest: seq<Tick>, codes: seq<Byte>,
                             syncro: bool, override: bool, push103: bool)

  /** Whether a pulled code ends the pull loop. */
  predicate Stops(code: Byte) {
    code == CodeDone || code == CodePush
  }

  /**
   * The pull loop of `update`: send 'c', dispatch on the response, repeat
   * until a response fails or the code is 100 or 103. Only the last code
   * can stop the loop; `syncro` falls with 100 or 103, `overrideSend` rises
   * with 102, and the push-on-103 is due exactly when 103 came.
   */
  function Pull(s: Store, io: Io, syncro: bool, override: bool, ticks: seq<Tick>): (r: PullOut)
    requires Valid(s) && IoOk(io)
    ensures Valid(r.store) && IoOk(r.io) && FlagsKept(s, r.store)
    ensures r.io.transport == io.transport && r.io.dialect == io.dialect
    ensures r.store.b.over == s.b.over && r.store.n.over == s.n.over
    ensures r.store.d.over == s.d.over && r.store.f.over == s.f.over
    ensures |r.rest| <= |ticks|
    decreases |ticks|
  {
    var x := Exchange(io, BasicFrame(CmdNext), ticks);
    if !x.ok then PullOut(s, x.io, x.rest, [], syncro, override, false)
    else
      var code := x.io.buf[0];
      var o := Apply(s, x.io.buf);
      var sy := syncro && !o.stop;
      var ov := override || o.override;
      if o.stop then PullOut(o.store, x.io, x.rest, [code], sy, ov, o.push103)
      else
        var r := Pull(o.store, x.io, sy, ov, x.rest);
        FlagsKeptTrans(s, o.store, r.store);
        PullOut(r.store, r.io, r.rest, [code] + r.codes, r.syncro, r.override, r.push103)
  }

  /** Only the last code of a pull can be a stopping one. */
  predicate StopsOnlyLast(codes: seq<Byte>) {
    forall i | 0 <= i < |codes| - 1 :: !Stops(codes[i])
  }

  lemma StopsOnlyLastCons(c: Byte, rs: seq<Byte>)
    requires !Stops(c) && StopsOnlyLast(rs)
    ensures StopsOnlyLast([c] + rs)
  {
    var codes := [c] + rs;
    forall i | 0 <= i < |codes| - 1
      ensures !Stops(codes[i])
    {
      if i > 0 {
        assert codes[i] == rs[i - 1];
      }
    }
  }

  lemma InCons<T>(c: T, rs: seq<T>, y: T)
    ensures y in [c] + rs <==> y == c || y in rs
  {
    if y in [c] + rs && y != c {
      var i :| 0 <= i < |[c] + rs| && ([c] + rs)[i] == y;
      assert rs[i - 1] == y;
    }
  }

  /**
   * The loop's flags follow its codes: only the last code can stop it,
   * `syncro` falls exactly when 100 or 103 came, `overrideSend` rises
   * exactly when 102 came, and the push-on-103 is due exactly when 103 came.
   */
  lemma {:induction false} PullFlags(s: Store, io: Io, syncro: bool, override: bool, ticks: seq<Tick>)
    requires Valid(s) && IoOk(io)
    ensures var r := Pull(s, io, syncro, override, ticks);
            StopsOnlyLast(r.codes)
            && (r.syncro <==> syncro && CodeDone !in r.codes && CodePush !in r.codes)
            && (r.override <==> override || CodeOverride in r.codes)
            && (r.push103 <==> CodePush in r.codes)
    decreases |ticks|
  {
    var x := Exchange(io, BasicFrame(CmdNext), ticks);
    if x.ok {
      var code := x.io.buf[0];
      var o := Apply(s, x.io.buf);
      InCons(code, [], CodeDone);
      InCons(code, [], CodePush);
      InCons(code, [], CodeOverride);
      if !o.stop {
        var sy := syncro && !o.stop;
        var ov := override || o.override;
        PullFlags(o.store, x.io, sy, ov, x.rest);
        var r := Pull(o.store, x.io, sy, ov, x.rest);
        InCons(code, r.codes, CodeDone);
        InCons(code, r.codes, CodePush);
        InCons(code, r.codes, CodeOverride);
        StopsOnlyLastCons(code, r.codes);
      }
    }
  }

  /** The pull log only grows. */
  lemma {:induction false} PullLogs(s: Store, io: Io, syncro: bool, override: bool, ticks: seq<Tick>)
    requires Valid(s) && IoOk(io)
    ensures Logged(io, Pull(s, io, syncro, override, ticks).io)
    decreases |ticks|
  {
    var x := Exchange(io, BasicFrame(CmdNext), ticks);
    ExchangeLogs(io, BasicFrame(CmdNext), ticks);
    if x.ok {
      var o := Apply(s, x.io.buf);
      if !o.stop {
        var sy := syncro && !o.stop;
        var ov := override || o.override;
        PullLogs(o.store, x.io, sy, ov, x.rest);
        LoggedTrans(io, x.io, Pull(o.store, x.io, sy, ov, x.rest).io);
      }
    }
  }

  /** The frames of a list of pushes, in order. */
  function PushFrames(ps: seq<Push>): (fs: seq<seq<Byte>>)
    requires forall i | 0 <= i < |ps| :: PushOk(ps[i])
  {
    seq(|ps|, i requires 0 <= i < |ps| => PushFrame(ps[i]))
  }

  lemma ConsSplit<T>(a: seq<T>, s: seq<T>)
    requires |s| > 0
    ensures a + [s[0]] + s[1..] == a + s
  {
    assert [s[0]] + s[1..] == s;
  }

  lemma AppendNothing<T>(a: seq<T>, s: seq<T>)
    requires |s| == 0
    ensures a + s == a
  {
    assert s == [];
  }

  /** One exchange per frame, in order; the responses are read and ignored. */
  function SendAll(io: Io, frames: seq<seq<Byte>>, ticks: seq<Tick>): (r: (Io, seq<Tick>))
    requires IoOk(io)
    ensures IoOk(r.0) && r.0.transport == io.transport && r.0.dialect == io.dialect
    decreases |frames|
  {
    if |frames| == 0 then (io, ticks)
    else
      var x := Exchange(io, frames[0], ticks);
      SendAll(x.io, frames[1..], x.rest)
  }

  /** Over serial with enough ticks, the frames go out exactly, in order, one tick each. */
  lemma {:induction false} SendAllSerial(io: Io, frames: seq<seq<Byte>>, ticks: seq<Tick>)
    requires IoOk(io) && io.transport.Serial? && |ticks| >= |frames|
    ensures SendAll(io, frames, ticks).0.sent == io.sent + frames
    ensures SendAll(io, frames, ticks).1 == ticks[|frames|..]
    decreases |frames|
  {
    var r := SendAll(io, frames, ticks);
    if |frames| == 0 {
      assert r == (io, ticks);
      AppendNothing(io.sent, frames);
      assert ticks[|frames|..] == ticks;
    } else {
      var x := Exchange(io, frames[0], ticks);
      assert x.io.sent == io.sent + [frames[0]] && x.rest == ticks[1..];
      assert SendAll(io, frames, ticks) == SendAll(x.io, frames[1..], x.rest);
      SendAllSerial(x.io, frames[1..], x.rest);
      ConsSplit(io.sent, frames);
      assert x.rest[|frames| - 1..] == ticks[|frames|..];
    }
  }

  /** Every sent frame of `io` is still in the log after the exchanges of `SendAll`. */
  lemma {:induction false} SendAllLogs(io: Io, frames: seq<seq<Byte>>, ticks: seq<Tick>)
    requires IoOk(io)
    ensures Logged(io, SendAll(io, frames, ticks).0)
    decreases |frames|
  {
    if |frames| > 0 {
      var x := Exchange(io, frames[0], ticks);
      ExchangeLogs(io, frames[0], ticks);
      SendAllLogs(x.io, frames[1..], x.rest);
      LoggedTrans(io, x.io, SendAll(x.io, frames[1..], x.rest).0);
    }
  }

  lemma PushListOk(s: Store)
    requires Valid(s)
    ensures forall i | 0 <= i < |PushList(s)| :: PushOk(PushList(s)[i])
  {
    PushListExact(s);
    forall i | 0 <= i < |PushList(s)|
      ensures PushOk(PushList(s)[i])
    {
      assert PushList(s)[i] in PushList(s);
    }
  }

  /** `PushList`, with the fact that each of its pushes has a frame. */
  function PushQueue(s: Store): (ps: seq<Push>)
    requires Valid(s)
    ensures ps == PushList(s) && forall i | 0 <= i < |ps| :: PushOk(ps[i])
  {
    PushListOk(s);
    PushList(s)
  }

  /** The state the override broadcast leaves: every override flag raised. */
  predicate AllOverridden(s: Store)
    requires Valid(s)
  {
    (forall w, c | 0 <= w < BSize && 0 <= c < 16 :: BitAt(s.b.over, w, c))
    && (forall w | 0 <= w < NdfSize :: s.n.over[w] && s.d.over[w] && s.f.over[w])
  }

  /**
   * The tail of `update` before the push-on-103: a pending full refresh is
   * dropped, and a requested broadcast raises every override flag and asks
   * for a full display refresh instead.
   */
  function Broadcast(e: Node): (r: Node)
    requires NodeOk(e)
    ensures NodeOk(r) && !r.overrideSend && (r.overDisplay <==> e.overrideSend)
    ensures r.overDisplay ==> AllOverridden(r.store)
    ensures r == e.(store := r.store, overrideSend := false, overDisplay := r.overDisplay)
    ensures r.store.b.vals == e.store.b.vals && r.store.b.upd == e.store.b.upd
    ensures r.store.n.vals == e.store.n.vals && r.store.n.upd == e.store.n.upd
    ensures r.store.d.vals == e.store.d.vals && r.store.d.upd == e.store.d.upd
    ensures r.store.f.vals == e.store.f.vals && r.store.f.upd == e.store.f.upd
    ensures !e.overrideSend ==> r.store == e.store
  {
    var n := e.(overDisplay := false);
    if n.overrideSend then n.(overrideSend := false, overDisplay := true, store := OverrideAll(n.store)) else n
  }

  /** The opening command of `update`: 'a' while the first sync is due, 'e' after. */
  function Opening(syncro: bool): Byte {
    if syncro then CmdSync else CmdCheck
  }

  /** The opening exchange and the pull loop: the loop's result and the first byte of the opening response, if any. */
  datatype Polled = Polled(pull: PullOut, first: seq<Byte>)

  /**
   * The first half of `update`: send 'a' or 'e'; on 'c' run the pull loop,
   * on 'd' leave the first-sync state, on anything else do nothing more.
   */
  function Poll(e: Node, ticks: seq<Tick>): (r: Polled)
    requires NodeOk(e)
    ensures var p := r.pull;
            Valid(p.store) && IoOk(p.io) && FlagsKept(e.store, p.store)
            && p.io.transport == e.io.transport && p.io.dialect == e.io.dialect
            && p.store.b.over == e.store.b.over && p.store.n.over == e.store.n.over
            && p.store.d.over == e.store.d.over && p.store.f.over == e.store.f.over
    ensures |r.first| <= 1 && (r.pull.codes != [] ==> r.first == [CodeMore]) && StopsOnlyLast(r.pull.codes)
    ensures r.pull.syncro <==> e.syncro && r.first != [CodeDone] && CodeDone !in r.pull.codes && CodePush !in r.pull.codes
    ensures r.pull.override <==> e.overrideSend || CodeOverride in r.pull.codes
    ensures r.pull.push103 <==> CodePush in r.pull.codes
  {
    var x := Exchange(e.io, BasicFrame(Opening(e.syncro)), ticks);
    var first := if x.ok then [x.io.buf[0]] else [];
    PullFlags(e.store, x.io, e.syncro, e.overrideSend, x.rest);
    var p :=
      if x.ok && x.io.buf[0] == CodeMore then Pull(e.store, x.io, e.syncro, e.overrideSend, x.rest)
      else PullOut(e.store, x.io, x.rest, [], e.syncro && !(x.ok && x.io.buf[0] == CodeDone), e.overrideSend, false);
    Polled(p, first)
  }

  /** The push-on-103: one push exchange for every pending location, in `PushList` order. */
  function PushOn103(e: Node, ticks: seq<Tick>): (r: (Node, seq<Tick>))
    requires NodeOk(e)
    ensures NodeOk(r.0) && r.0 == e.(io := r.0.io)
    ensures r.0.io.transport == e.io.transport && r.0.io.dialect == e.io.dialect
  {
    var out := SendAll(e.io, PushFrames(PushQueue(e.store)), ticks);
    (e.(io := out.0), out.1)
  }

  /**
   * What one `update` did: the node after it, the unused ticks, the first
   * byte of the opening response (none when it failed), and the first
   * bytes of the pulled responses.
   */
  datatype UpdateOut = UpdateOut(node: Node, rest: seq<Tick>, first: seq<Byte>, codes: seq<Byte>)

  /**
   * `update`: the opening exchange and the pull loop, the broadcast step,
   * then, if 103 came, the push-on-103.
   */
  function Update(e: Node, ticks: seq<Tick>): (r: UpdateOut)
    requires NodeOk(e)
    ensures NodeOk(r.node) && FlagsKept(e.store, r.node.store)
    ensures |r.first| <= 1 && (r.codes != [] ==> r.first == [CodeMore]) && StopsOnlyLast(r.codes)
    ensures r.node.syncro <==> e.syncro && r.first != [CodeDone] && CodeDone !in r.codes && CodePush !in r.codes
    ensures !r.node.overrideSend
    ensures r.node.overDisplay <==> e.overrideSend || CodeOverride in r.codes
    ensures r.node.overDisplay ==> AllOverridden(r.node.store)
    ensures r.node.screen == e.screen && r.node.autoOn == e.autoOn && r.node.interval == e.interval
    ensures r.node.lastUpdate == e.lastUpdate
    ensures r.node.io.transport == e.io.transport && r.node.io.dialect == e.io.dialect
  {
    var o := Poll(e, ticks);
    var p := o.pull;
    var b := Broadcast(e.(store := p.store, io := p.io, syncro := p.syncro, overrideSend := p.override));
    var out := if p.push103 then PushOn103(b, p.rest) else (b, p.rest);
    UpdateOut(out.0, out.1, o.first, p.codes)
  }

  /** The poll keeps the opening exchange's log entry. */
  lemma PollLogs(e: Node, ticks: seq<Tick>)
    requires NodeOk(e)
    ensures Logged(Exchange(e.io, BasicFrame(Opening(e.syncro)), ticks).io, Poll(e, ticks).pull.io)
  {
    var x := Exchange(e.io, BasicFrame(Opening(e.syncro)), ticks);
    if x.ok && x.io.buf[0] == CodeMore {
      PullLogs(e.store, x.io, e.syncro, e.overrideSend, x.rest);
    }
  }

  /** The broadcast and the push-on-103 only append to the poll's log. */
  lemma FinishLogs(e: Node, ticks: seq<Tick>)
    requires NodeOk(e)
    ensures Logged(Poll(e, ticks).pull.io, Update(e, ticks).node.io)
  {
    var p := Poll(e, ticks).pull;
    var b := Broadcast(e.(store := p.store, io := p.io, syncro := p.syncro, overrideSend := p.override));
    if p.push103 {
      SendAllLogs(b.io, PushFrames(PushQueue(b.store)), p.rest);
    }
  }

  /** Over serial, the first frame `update` writes is 'a' while the first sync is due and 'e' after it. */
  lemma UpdateOpens(e: Node, ticks: seq<Tick>)
    requires NodeOk(e) && e.io.transport.Serial? && |ticks| > 0
    ensures var r := Update(e, ticks);
            |r.node.io.sent| > |e.io.sent|
            && r.node.io.sent[|e.io.sent|] == BasicFrame(if e.syncro then CmdSync else CmdCheck)
  {
    var x := Exchange(e.io, BasicFrame(Opening(e.syncro)), ticks);
    var p := Poll(e, ticks).pull;
    var r := Update(e, ticks);
    PollLogs(e, ticks);
    FinishLogs(e, ticks);
    LoggedTrans(x.io, p.io, r.node.io);
    assert r.node.io.sent[..|x.io.sent|] == x.io.sent;
    assert x.io.sent[|e.io.sent|] == BasicFrame(Opening(e.syncro));
  }

  lemma Append2<T>(a: seq<T>, b: T, c: T, d: seq<T>)
    ensures a + [b] + [c] + d == a + [b, c] + d
  {
  }

  /** A reply of one code and the terminator counts in both dialects and puts the code first in the buffer. */
  lemma CodeReply(d: Dialect, buf: seq<Byte>, c: Byte)
    requires |buf| == BufSize && c != EndByte
    ensures var got := Receive(d, buf, [c, EndByte]);
            got.0 && got.1[0] == c
  {
    TerminatedReply([c], []);
    assert [c] + [EndByte] + [] == [c, EndByte];
  }

  /** A pull whose first response is 103 sends one 'c', changes no value, and asks for the push-on-103. */
  lemma PullSees103(s: Store, io: Io, syncro: bool, override: bool, t: Tick, more: seq<Tick>)
    requires Valid(s) && IoOk(io) && io.transport.Serial? && t.reply == [CodePush, EndByte]
    ensures var p := Pull(s, io, syncro, override, [t] + more);
            p.store == s && p.io.sent == io.sent + [BasicFrame(CmdNext)] && p.io.transport == io.transport
            && p.rest == more && p.codes == [CodePush] && !p.syncro && p.override == override && p.push103
  {
    var ticks := [t] + more;
    var y := Exchange(io, BasicFrame(CmdNext), ticks);
    CodeReply(io.dialect, io.buf, CodePush);
    assert ticks[1..] == more;
    assert y.ok && y.io.buf[0] == CodePush && y.rest == more;
    var o := Apply(s, y.io.buf);
    assert o.store == s && o.stop && o.push103 && !o.override;
  }

  /** A pull whose first response is 100 sends one 'c', changes nothing stored, and ends the first sync. */
  lemma PullSeesDone(s: Store, io: Io, syncro: bool, override: bool, t: Tick, more: seq<Tick>)
    requires Valid(s) && IoOk(io) && io.transport.Serial? && t.reply == [CodeDone, EndByte]
    ensures var p := Pull(s, io, syncro, override, [t] + more);
            p.store == s && p.io.sent == io.sent + [BasicFrame(CmdNext)]
            && p.rest == more && p.codes == [CodeDone] && !p.syncro && p.override == override && !p.push103
  {
    var ticks := [t] + more;
    var y := Exchange(io, BasicFrame(CmdNext), ticks);
    CodeReply(io.dialect, io.buf, CodeDone);
    assert ticks[1..] == more;
    assert y.ok && y.io.buf[0] == CodeDone && y.rest == more;
    var o := Apply(s, y.io.buf);
    assert o.store == s && o.stop && !o.push103 && !o.override;
  }

  /** A round of the pull loop that does not stop it hands the rest of the loop the dispatched store. */
  lemma PullOn(s: Store, io: Io, syncro: bool, override: bool, ticks: seq<Tick>)
    requires Valid(s) && IoOk(io)
    requires var x := Exchange(io, BasicFrame(CmdNext), ticks); x.ok && !Stops(x.io.buf[0])
    ensures var x := Exchange(io, BasicFrame(CmdNext), ticks);
            var o := Apply(s, x.io.buf);
            var r := Pull(o.store, x.io, syncro, override || o.override, x.rest);
            Pull(s, io, syncro, override, ticks)
            == PullOut(r.store, r.io, r.rest, [x.io.buf[0]] + r.codes, r.syncro, r.override, r.push103)
  {
  }

  /** The first round of `PullLands`: the reply counts and its dispatch stores the value of `p`. */
  lemma FirstRoundLands(s: Store, io: Io, p: Push, ticks: seq<Tick>)
    requires Valid(s) && IoOk(io) && io.transport.Serial? && PushOk(p)
    requires |ticks| > 0 && ticks[0].reply == PullReply(p)
    ensures var x := Exchange(io, BasicFrame(CmdNext), ticks);
            var o := Apply(s, x.io.buf);
            x.ok && x.io.buf[0] == PullCode(p) && x.rest == ticks[1..] && x.io.sent == io.sent + [BasicFrame(CmdNext)]
            && Holds(o.store, p) && FlagsKept(s, o.store) && !o.override && !o.stop
  {
    PullReplyLands(io.dialect, s, p, io.buf);
  }

  /**
   * A pull whose first response neither stops the loop nor asks for the
   * broadcast, and whose second response is 100: what the first response
   * stored is what the loop leaves, after two 'c' requests.
   */
  lemma PullThenDone(s: Store, io: Io, syncro: bool, override: bool, ticks: seq<Tick>)
    requires Valid(s) && IoOk(io) && io.transport.Serial?
    requires |ticks| >= 2 && ticks[1].reply == [CodeDone, EndByte]
    requires var x := Exchange(io, BasicFrame(CmdNext), ticks);
             x.ok && !Stops(x.io.buf[0]) && !Apply(s, x.io.buf).override
    ensures var x := Exchange(io, BasicFrame(CmdNext), ticks);
            var r := Pull(s, io, syncro, override, ticks);
            r.store == Apply(s, x.io.buf).store && r.codes == [x.io.buf[0], CodeDone]
            && r.io.sent == x.io.sent + [BasicFrame(CmdNext)]
            && r.rest == ticks[2..] && !r.syncro && r.override == override && !r.push103
  {
    var x := Exchange(io, BasicFrame(CmdNext), ticks);
    var o := Apply(s, x.io.buf);
    PullOn(s, io, syncro, override, ticks);
    var rest := ticks[1..];
    assert rest == [rest[0]] + rest[1..] && rest[1..] == ticks[2..];
    PullSeesDone(o.store, x.io, syncro, override, rest[0], rest[1..]);
  }

  /**
   * A pull in which the panel hands over the value of `p` and then says 100,
   * in either dialect: two 'c' requests go out, the value is in the store
   * exactly, no flag moves, and the loop ends with the first sync done.
   */
  lemma PullLands(s: Store, io: Io, syncro: bool, override: bool, p: Push, ticks: seq<Tick>)
    requires Valid(s) && IoOk(io) && io.transport.Serial? && PushOk(p)
    requires |ticks| >= 2 && ticks[0].reply == PullReply(p) && ticks[1].reply == [CodeDone, EndByte]
    ensures var r := Pull(s, io, syncro, override, ticks);
            Holds(r.store, p) && FlagsKept(s, r.store) && r.codes == [PullCode(p), CodeDone]
            && r.io.sent == io.sent + [BasicFrame(CmdNext), BasicFrame(CmdNext)]
            && r.rest == ticks[2..] && !r.syncro && r.override == override && !r.push103
  {
    FirstRoundLands(s, io, p, ticks);
    PullThenDone(s, io, syncro, override, ticks);
  }

  /** The poll of `PushAfter103`: 'c' opens, 103 ends the pull at once, nothing is stored. */
  lemma Poll103(e: Node, t0: Tick, t1: Tick, more: seq<Tick>)
    requires NodeOk(e) && e.io.transport.Serial?
    requires t0.reply == [CodeMore, EndByte] && t1.reply == [CodePush, EndByte]
    ensures var o := Poll(e, [t0, t1] + more);
            o.first == [CodeMore] && o.pull.store == e.store && o.pull.rest == more
            && o.pull.io.sent == e.io.sent + [BasicFrame(Opening(e.syncro))] + [BasicFrame(CmdNext)]
            && o.pull.codes == [CodePush] && !o.pull.syncro && o.pull.override == e.overrideSend && o.pull.push103
  {
    var ticks := [t0, t1] + more;
    var x := Exchange(e.io, BasicFrame(Opening(e.syncro)), ticks);
    CodeReply(e.io.dialect, e.io.buf, CodeMore);
    assert x.ok && x.io.buf[0] == CodeMore && x.rest == [t1] + more;
    PullSees103(e.store, x.io, e.syncro, e.overrideSend, t1, more);
  }

  /**
   * A whole `update` over serial in which the panel answers 'c' and then
   * 103: the node writes the opening command, one 'c', and then exactly the
   * push frames of its pending locations, in order, and leaves the
   * first-sync state. The frames are stated when the script has a tick for each push.
   */
  lemma PushAfter103(e: Node, t0: Tick, t1: Tick, more: seq<Tick>)
    requires NodeOk(e) && e.io.transport.Serial? && !e.overrideSend
    requires t0.reply == [CodeMore, EndByte] && t1.reply == [CodePush, EndByte]
    ensures var r := Update(e, [t0, t1] + more);
            !r.node.syncro && r.first == [CodeMore] && r.codes == [CodePush]
    ensures var r := Update(e, [t0, t1] + more);
            |more| >= |PushList(e.store)| ==>
            r.node.io.sent == e.io.sent + [BasicFrame(Opening(e.syncro)), BasicFrame(CmdNext)] + PushFrames(PushQueue(e.store))
            && r.rest == more[|PushList(e.store)|..]
  {
    Poll103(e, t0, t1, more);
    if |more| < |PushList(e.store)| {
      return;
    }
    var p := Poll(e, [t0, t1] + more).pull;
    var b := Broadcast(e.(store := p.store, io := p.io, syncro := p.syncro, overrideSend := p.override));
    assert b.store == e.store && b.io == p.io;
    SendAllSerial(p.io, PushFrames(PushQueue(e.store)), more);
    Append2(e.io.sent, BasicFrame(Opening(e.syncro)), BasicFrame(CmdNext), PushFrames(PushQueue(e.store)));
  }

  // ------------------------------------------------------------ throttle

  /**
   * Whether `_autoUpdate` at `now` runs an update: only the Python node
   * throttles, when auto-update is on and at least `interval` ms have passed
   * since the last one.
   */
  predicate Due(e: Node, now: int) {
    e.io.dialect.Python? && e.autoOn && now - e.lastUpdate >= e.interval
  }

  /** `_autoUpdate`: run `update` and restart the interval at `now` when due; otherwise nothing. */
  function Throttle(e: Node, now: int, ticks: seq<Tick>): (r: (Node, seq<Tick>))
    requires NodeOk(e)
    ensures NodeOk(r.0) && r.0.screen == e.screen && r.0.autoOn == e.autoOn && r.0.interval == e.interval
    ensures r.0.io.transport == e.io.transport && r.0.io.dialect == e.io.dialect
    ensures !Due(e, now) ==> r == (e, ticks)
    ensures Due(e, now) ==> r.0.lastUpdate == now
  {
    if Due(e, now) then
      var u := Update(e.(lastUpdate := now), ticks);
      (u.node, u.rest)
    else (e, ticks)
  }

  /** Once an update has run at `now`, none runs again until `interval` ms have passed, and no update flag was lost. */
  lemma ThrottleSpacing(e: Node, now: int, ticks: seq<Tick>, u: int)
    requires NodeOk(e) && Due(e, now) && now <= u < now + e.interval
    ensures var r := Throttle(e, now, ticks).0;
            !Due(r, u) && FlagsKept(e.store, r.store) && !r.overrideSend
  {
  }

  /** The Arduino node never updates on its own. */
  lemma ArduinoNeverThrottles(e: Node, now: int, ticks: seq<Tick>)
    requires NodeOk(e) && e.io.dialect.Arduino?
    ensures Throttle(e, now, ticks) == (e, ticks)
  {
  }

  /** `enableAutoUpdate`: switch auto-update and set the interval; switching on restarts the interval at `now`. */
  function EnableAutoUpdate(e: Node, enabled: bool, interval: int, now: int): (r: Node)
    requires NodeOk(e)
    ensures NodeOk(r) && r.autoOn == enabled && r.interval == interval
    ensures enabled ==> forall u :: Due(r, u) <==> e.io.dialect.Python? && u - now >= interval
    ensures !enabled ==> forall u :: !Due(r, u)
    ensures r == e.(autoOn := enabled, interval := interval, lastUpdate := r.lastUpdate)
  {
    e.(autoOn := enabled, interval := interval, lastUpdate := if enabled then now else e.lastUpdate)
  }

  // ----------------------------------------------------------- accessors

  /**
   * A local write and, when it went ahead, its push exchange
   * (`writeBFile` and its siblings).
   */
  function Commit(e: Node, w: Written, ticks: seq<Tick>): (r: (Node, seq<Tick>))
    requires NodeOk(e) && Valid(w.store) && (w.push.Some? ==> PushOk(w.push.value))
    ensures NodeOk(r.0) && r.0 == e.(store := w.store, io := r.0.io)
    ensures w.push.None? ==> r == (e.(store := w.store), ticks)
    ensures w.push.Some? && e.io.transport.Serial? && |ticks| > 0 ==>
              r.0.io.sent == e.io.sent + [PushFrame(w.push.value)] && r.1 == ticks[1..]
    ensures w.push.Some? && e.io.transport.Lan? && |ticks| > 0 ==>
              (r.0.io.sent != e.io.sent <==> Connect(e.io.link, ticks[0].start, ticks[0].accepts, ticks[0].end).0)
  {
    if w.push.Some? then
      var x := Exchange(e.io, PushFrame(w.push.value), ticks);
      (e.(store := w.store, io := x.io), x.rest)
    else (e.(store := w.store), ticks)
  }

  /**
   * `setBoolean`: the local write with its push, then (Python) the
   * throttled update. Without an update due, the store is the local write's
   * and a push goes out exactly when the value changed or an override was
   * pending.
   */
  function SetBool(e: Node, word: int, bit: int, value: bool, now: int, ticks: seq<Tick>): (r: (Node, seq<Tick>))
    requires NodeOk(e)
    ensures NodeOk(r.0) && r.0.screen == e.screen
    ensures !Due(e, now) ==> r.0.store == WriteB(e.store, word, bit, value).store
    ensures !Due(e, now) && e.io.transport.Serial? && |ticks| > 0 ==>
              (r.0.io.sent != e.io.sent <==>
                 0 <= word < BSize && 0 <= bit < 16 && (BitAt(e.store.b.vals, word, bit) != value || BitAt(e.store.b.over, word, bit)))
  {
    var c := Commit(e, WriteB(e.store, word, bit, value), ticks);
    Throttle(c.0, now, c.1)
  }

  /** After `setBoolean` with no update due, the written bit reads back as written and every other bit as before. */
  lemma SetBoolReads(e: Node, word: int, bit: int, value: bool, now: int, ticks: seq<Tick>, w: int, b: int)
    requires NodeOk(e) && !Due(e, now)
    ensures ReadB(SetBool(e, word, bit, value, now, ticks).0.store, w, b)
            == if (w, b) == (word, bit) && 0 <= word < BSize && 0 <= bit < 16 then value else ReadB(e.store, w, b)
  {
    if 0 <= word < BSize && 0 <= bit < 16 {
      ReadAfterWriteB(e.store, word, bit, value, w, b);
    }
  }

  /** `setInt`: as `setBoolean`, for one word. */
  function SetInt(e: Node, word: int, value: U16, now: int, ticks: seq<Tick>): (r: (Node, seq<Tick>))
    requires NodeOk(e)
    ensures NodeOk(r.0) && r.0.screen == e.screen
    ensures !Due(e, now) ==> r.0.store == WriteN(e.store, word, value).store
    ensures !Due(e, now) && e.io.transport.Serial? && |ticks| > 0 ==>
              (r.0.io.sent != e.io.sent <==> 0 <= word < NdfSize && (e.store.n.vals[word] != value || e.store.n.over[word]))
  {
    var c := Commit(e, WriteN(e.store, word, value), ticks);
    Throttle(c.0, now, c.1)
  }

  lemma SetIntReads(e: Node, word: int, value: U16, now: int, ticks: seq<Tick>, w: int)
    requires NodeOk(e) && !Due(e, now)
    ensures ReadN(SetInt(e, word, value, now, ticks).0.store, w)
            == if w == word && 0 <= word < NdfSize then value else ReadN(e.store, w)
  {
    if 0 <= word < NdfSize {
      ReadAfterWriteN(e.store, word, value, w);
    }
  }

  /** `setDInt`: as `setBoolean`, for one word. */
  function SetDInt(e: Node, word: int, value: U32, now: int, ticks: seq<Tick>): (r: (Node, seq<Tick>))
    requires NodeOk(e)
    ensures NodeOk(r.0) && r.0.screen == e.screen
    ensures !Due(e, now) ==> r.0.store == WriteD(e.store, word, value).store
    ensures !Due(e, now) && e.io.transport.Serial? && |ticks| > 0 ==>
              (r.0.io.sent != e.io.sent <==> 0 <= word < NdfSize && (e.store.d.vals[word] != value || e.store.d.over[word]))
  {
    var c := Commit(e, WriteD(e.store, word, value), ticks);
    Throttle(c.0, now, c.1)
  }

  lemma SetDIntReads(e: Node, word: int, value: U32, now: int, ticks: seq<Tick>, w: int)
    requires NodeOk(e) && !Due(e, now)
    ensures ReadD(SetDInt(e, word, value, now, ticks).0.store, w)
            == if w == word && 0 <= word < NdfSize then value else ReadD(e.store, w)
  {
    if 0 <= word < NdfSize {
      ReadAfterWriteD(e.store, word, value, w);
    }
  }

  /** `setFloat`: as `setBoolean`, for one word. */
  function SetFloat(e: Node, word: int, value: Float, now: int, ticks: seq<Tick>): (r: (Node, seq<Tick>))
    requires NodeOk(e)
    ensures NodeOk(r.0) && r.0.screen == e.screen
    ensures !Due(e, now) ==> r.0.store == WriteF(e.store, word, value).store
    ensures !Due(e, now) && e.io.transport.Serial? && |ticks| > 0 ==>
              (r.0.io.sent != e.io.sent <==> 0 <= word < NdfSize && (e.store.f.vals[word] != value || e.store.f.over[word]))
  {
    var c := Commit(e, WriteF(e.store, word, value), ticks);
    Throttle(c.0, now, c.1)
  }

  lemma SetFloatReads(e: Node, word: int, value: Float, now: int, ticks: seq<Tick>, w: int)
    requires NodeOk(e) && !Due(e, now)
    ensures ReadF(SetFloat(e, word, value, now, ticks).0.store, w)
            == if w == word && 0 <= word < NdfSize then value else ReadF(e.store, w)
  {
    if 0 <= word < NdfSize {
      ReadAfterWriteF(e.store, word, value, w);
    }
  }

  /**
   * `getBoolean`: (Python) the throttled update first, then the read. The
   * Arduino node reads without touching anything.
   */
  function GetBool(e: Node, word: int, bit: int, now: int, ticks: seq<Tick>): (r: (bool, Node, seq<Tick>))
    requires NodeOk(e)
    ensures NodeOk(r.1)
    ensures !Due(e, now) ==> r == (ReadB(e.store, word, bit), e, ticks)
    ensures r.0 == ReadB(r.1.store, word, bit)
    ensures Due(e, now) ==> r.1.lastUpdate == now
  {
    var t := Throttle(e, now, ticks);
    (ReadB(t.0.store, word, bit), t.0, t.1)
  }

  /** `getInt`. */
  function GetInt(e: Node, word: int, now: int, ticks: seq<Tick>): (r: (U16, Node, seq<Tick>))
    requires NodeOk(e)
    ensures NodeOk(r.1)
    ensures !Due(e, now) ==> r == (ReadN(e.store, word), e, ticks)
    ensures r.0 == ReadN(r.1.store, word)
    ensures Due(e, now) ==> r.1.lastUpdate == now
  {
    var t := Throttle(e, now, ticks);
    (ReadN(t.0.store, word), t.0, t.1)
  }

  /** `getDInt`. */
  function GetDInt(e: Node, word: int, now: int, ticks: seq<Tick>): (r: (U32, Node, seq<Tick>))
    requires NodeOk(e)
    ensures NodeOk(r.1)
    ensures !Due(e, now) ==> r == (ReadD(e.store, word), e, ticks)
    ensures r.0 == ReadD(r.1.store, word)
    ensures Due(e, now) ==> r.1.lastUpdate == now
  {
    var t := Throttle(e, now, ticks);
    (ReadD(t.0.store, word), t.0, t.1)
  }

  /** `getFloat`. */
  function GetFloat(e: Node, word: int, now: int, ticks: seq<Tick>): (r: (Float, Node, seq<Tick>))
    requires NodeOk(e)
    ensures NodeOk(r.1)
    ensures !Due(e, now) ==> r == (ReadF(e.store, word), e, ticks)
    ensures r.0 == ReadF(r.1.store, word)
    ensures Due(e, now) ==> r.1.lastUpdate == now
  {
    var t := Throttle(e, now, ticks);
    (ReadF(t.0.store, word), t.0, t.1)
  }

  // --------------------------------------------------------------- print

  /**
   * `writeText2Line` with its send: the display frame of the cursor row
   * goes out when the row changed or a full refresh is pending.
   */
  function Show(e: Node, text: seq<Byte>, ticks: seq<Tick>): (r: (Node, seq<Tick>))
    requires NodeOk(e)
    ensures NodeOk(r.0) && r.0 == e.(screen := r.0.screen, io := r.0.io)
    ensures r.0.screen == WriteText(e.screen, text, e.overDisplay).0
    ensures e.io.transport.Serial? && |ticks| > 0 ==>
              (r.0.io.sent != e.io.sent <==> e.overDisplay || (Writable(e.screen, text) && Display.Written(e.screen, text) != Post(e.screen)))
              && (r.0.io.sent != e.io.sent ==>
                    r.0.io.sent == e.io.sent + [DisplayFrame(Row(r.0.screen), r.0.screen.id, r.0.screen.y)])
  {
    var w := WriteText(e.screen, text, e.overDisplay);
    var e1 := e.(screen := w.0);
    if w.1 then
      var x := Exchange(e1.io, DisplayFrame(Row(w.0), w.0.id, w.0.y), ticks);
      (e1.(io := x.io), x.rest)
    else (e1, ticks)
  }

  /** `print`: the text written and sent, then (Python) the throttled update. */
  function Print(e: Node, text: seq<Byte>, now: int, ticks: seq<Tick>): (r: (Node, seq<Tick>))
    requires NodeOk(e)
    ensures NodeOk(r.0) && r.0.screen == WriteText(e.screen, text, e.overDisplay).0
    ensures !Due(e, now) && e.io.transport.Serial? && |ticks| > 0 ==>
              (r.0.io.sent != e.io.sent <==> e.overDisplay || (Writable(e.screen, text) && Display.Written(e.screen, text) != Post(e.screen)))
  {
    var c := Show(e, text, ticks);
    Throttle(c.0, now, c.1)
  }

  /**
   * After an update that ran the broadcast, the next print sends its row even
   * when nothing on it changed: the panel gets every row again.
   */
  lemma BroadcastRefreshesDisplay(e: Node, ticks: seq<Tick>, text: seq<Byte>, more: seq<Tick>)
    requires NodeOk(e) && e.io.transport.Serial? && |more| > 0
    requires CodeOverride in Update(e, ticks).codes
    ensures var n := Update(e, ticks).node;
            Show(n, text, more).0.io.sent != n.io.sent
  {
  }

  // ---------------------------------------------------------------- init

  /** How `init` is called: with a serial port, or with a LAN server and an optional memory bank. */
  datatype Port = SerialPort | LanServer(bank: Option<int>)

  /** The memory bank clamped into 1..6, 1 when none is given. */
  function Slot(bank: Option<int>): (b: Byte)
    ensures 1 <= b <= 6
    ensures bank.Some? && 1 <= bank.value <= 6 ==> b as int == bank.value
    ensures bank.None? || bank.value < 1 ==> b == 1
    ensures bank.Some? && bank.value > 6 ==> b == 6
  {
    match bank
    case None => 1
    case Some(n) => ByteOf(if n < 1 then 1 else if n > 6 then 6 else n)
  }

  /**
   * `init`: clear the display rows, choose the transport, and restart the
   * sync state. Over LAN the link is reset and one connect attempt is made;
   * the reset lets it go ahead whatever the clock, so `now` is the clock
   * once it is over, which a failure records. The Python node also sets
   * auto-update from `auto` and `interval`, restarting the interval at `now`
   * when it is on.
   */
  function Init(e: Node, port: Port, auto: bool, interval: int, now: int, accepts: bool): (r: Node)
    requires NodeOk(e)
    ensures NodeOk(r) && r.syncro && !r.overrideSend && !r.overDisplay
    ensures r.store == e.store && r.screen == InitLcd(e.screen) && r.io.sent == e.io.sent && r.io.buf == e.io.buf
    ensures port.SerialPort? ==> r.io.transport == Serial && r.io.link == e.io.link
    ensures port.LanServer? ==> r.io.transport == Lan(Slot(port.bank)) && (r.io.link.connected <==> accepts)
    ensures port.LanServer? && !accepts ==> !r.io.link.reconnect && r.io.link.serverTime == now
    ensures e.io.dialect.Python? ==> r.autoOn == auto && r.interval == interval
    ensures e.io.dialect.Python? && auto ==> r.lastUpdate == now
    ensures e.io.dialect.Arduino? || !auto ==> r.lastUpdate == e.lastUpdate
    ensures e.io.dialect.Arduino? ==> r.autoOn == e.autoOn && r.interval == e.interval
  {
    var io :=
      match port
      case SerialPort => e.io.(transport := Serial)
      case LanServer(bank) =>
        var c := Connect(e.io.link.(connected := false, reconnect := true), now, accepts, now);
        e.io.(transport := Lan(Slot(bank)), link := c.1);
    var n := e.(screen := InitLcd(e.screen), io := io, syncro := true, overrideSend := false, overDisplay := false);
    if e.io.dialect.Python? then n.(autoOn := auto, interval := interval, lastUpdate := if auto then now else e.lastUpdate)
    else n
  }

  /**
   * The first print after a serial `init` shows the two constructors apart.
   * The C++ post rows are still zero, so a space printed at the origin
   * differs from them and its row goes out; the Python post rows are blank,
   * so the same print sends nothing.
   */
  lemma FirstPrintAfterInit(auto: bool, interval: int, now: int, accepts: bool, t: Tick)
    ensures var e := Init(Fresh(Arduino), SerialPort, auto, interval, now, accepts);
            Show(e, [Space], [t]).0.io.sent == [DisplayFrame(Blank, 1, 0)]
    ensures var e := Init(Fresh(Python), SerialPort, auto, interval, now, accepts);
            Show(e, [Space], [t]).0.io.sent == []
  {
    var a := Init(Fresh(Arduino), SerialPort, auto, interval, now, accepts);
    assert Display.Written(a.screen, [Space]) == Blank;
    assert Blank != Post(a.screen) by { assert Post(a.screen)[0] == 0; }
    var p := Init(Fresh(Python), SerialPort, auto, interval, now, accepts);
    assert Display.Written(p.screen, [Space]) == Blank;
  }
}
