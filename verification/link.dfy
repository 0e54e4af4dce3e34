/**
 * The LAN link's timing state: reconnect backoff in `connect2Server` and the
 * response-timeout streak of `checkLANResponse` that drops the connection.
 * Clock readings (`millis()`, `ticks_ms()`) are inputs, in milliseconds.
 */
module Link {

  /** A failed connect blocks further attempts for more than this long. */
  const RetryGap: int := 3000
  /** A timeout streak longer than this drops the connection. */
  const DropGap: int := 3000

  /**
   * `lanConnectionStatus`, `reconnectServer`, `serverTime` (time of the last
   * failed connect), `lanTimeCount` (a timeout streak is running) and
   * `reconectTime` (when it began).
   */
  datatype Link = Link(connected: bool, reconnect: bool, serverTime: int, streak: bool, streakStart: int)

  /** The state before `init`: disconnected, an attempt allowed, no streak. */
  const Initial: Link := Link(false, true, 0, false, 0)

  /** Whether `connect2Server` at time `now` tries to open the socket. */
  predicate Attempts(l: Link, now: int) {
    !l.connected && (l.reconnect || now - l.serverTime > RetryGap)
  }

  /**
   * `connect2Server`: true when connected or a connect attempt is made and
   * the server `accepts` it. The attempt is decided on the clock `now`; a
   * failed attempt restarts the backoff at `failedAt`, the clock read again
   * once the connect has given up.
   */
  function Connect(l: Link, now: int, accepts: bool, failedAt: int): (r: (bool, Link))
    ensures r.0 <==> l.connected || (Attempts(l, now) && accepts)
    ensures r.0 ==> r.1.connected && (Attempts(l, now) ==> !r.1.streak)
    ensures l.connected ==> r.1 == l
    ensures !l.connected && !Attempts(l, now) ==> r.1 == l
    ensures Attempts(l, now) && accepts ==> r.1 == l.(connected := true, reconnect := false, streak := false)
    ensures Attempts(l, now) && !accepts ==> r.1 == l.(reconnect := false, serverTime := failedAt)
  {
    if l.connected then (true, l)
    else
      var armed := l.reconnect || now - l.serverTime > RetryGap;
      if armed then
        if accepts then (true, l.(reconnect := false, streak := false, connected := true))
        else (false, l.(reconnect := false, serverTime := failedAt))
      else (false, l)
  }

  /**
   * The link part of `checkLANResponse`. `ok`: the response counted.
   * `timedOut`: the 900 ms wait expired (always when nothing arrived, and
   * also when a reply came in the same poll that saw the deadline). A
   * success ends a streak; a timeout starts one if none runs; a streak older
   * than 3000 ms at `now` drops the connection.
   */
  function Settle(l: Link, ok: bool, timedOut: bool, now: int): (r: Link)
    ensures r.reconnect == l.reconnect && r.serverTime == l.serverTime
    ensures r.connected <==> l.connected && !(l.streak && !ok && now - l.streakStart > DropGap)
    ensures r.streak <==> (l.streak && !ok && now - l.streakStart <= DropGap) || (timedOut && !(l.streak && !ok))
    ensures ok && !timedOut ==> !r.streak && r.connected == l.connected
    ensures l.streak && !ok && r.streak ==> r.streakStart == l.streakStart
  {
    var s1 := if ok then l.(streak := false) else l;
    var s2 := if timedOut && !s1.streak then s1.(streak := true, streakStart := now) else s1;
    if s2.streak && now - s2.streakStart > DropGap then s2.(connected := false, streak := false) else s2
  }

  /**
   * After an attempt at `t0` that gave up at `t`, no attempt is made until
   * the clock is more than 3000 ms past `t`, however long the attempt took.
   */
  lemma BackoffSpacing(l: Link, t0: int, t: int, u: int, accepts: bool)
    requires Attempts(l, t0)
    ensures var l1 := Connect(l, t0, false, t).1;
            !l1.connected && (Attempts(l1, u) <==> u - t > RetryGap)
            && (u - t <= RetryGap ==> Connect(l1, u, accepts, u) == (false, l1))
  {
  }

  /** A streak of timeouts that began at `t0` drops the link at the first settle more than 3000 ms later, not before. */
  lemma StreakDrops(l: Link, t0: int, t1: int)
    requires l.connected && !l.streak
    ensures var l1 := Settle(l, false, true, t0);
            l1.connected && l1.streak && l1.streakStart == t0
            && (Settle(l1, false, true, t1).connected <==> t1 - t0 <= DropGap)
  {
  }

  /** A success in the middle of a streak resets it: the next timeout starts a new streak at its own time. */
  lemma SuccessResetsStreak(l: Link, t: int, u: int)
    requires l.connected && l.streak
    ensures var l1 := Settle(l, true, false, t);
            l1.connected && !l1.streak
            && Settle(l1, false, true, u).streakStart == u && Settle(l1, false, true, u).connected
  {
  }

  /** Only a connect attempt the server accepts makes the link connected. */
  lemma OnlyConnectConnects(l: Link, ok: bool, timedOut: bool, now: int)
    requires !l.connected
    ensures !Settle(l, ok, timedOut, now).connected
  {
  }
}
