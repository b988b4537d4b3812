/**
  What every run of the client keeps about its handles: what stopping the client, its callbacks and
  its timers do to them, and when a handle that is gone is used.
 */
module ClientHandles {
  import opened Bytes
  import opened Client
  import T = ClientTransport

  predicate Starting(st: CState) { st == INITED || st == CONNECTING }

  /**
    Handles are closed when the client is, with their timers; a client that reconnects is closed in no
    other way, and its reconnect timer with it.
   */
  predicate Handles(enabled: bool, st: CState, tm: Timers) {
    && (!tm.open ==> st == CLOSED && !tm.beat && !tm.timeout && !tm.handshake)
    && (st == CLOSED ==> !tm.handshake)
    && (tm.reconnectClosed <==> enabled && st == CLOSED)
    && (tm.reconnectClosed ==> !tm.open && !tm.reconnect)
  }

  /** No handshake timer runs on a connection whose handshake was acknowledged; one being made has no handshake yet. */
  ghost predicate Greeted(tps: seq<Transport>, handshake: bool) {
    && (forall t: nat :: IsWorking(tps, t) && tps[t].handshaken ==> !handshake)
    && (forall t: nat :: t < |tps| && tps[t].st.TpConnecting? ==> !tps[t].handshaken)
  }

  /** Before a connection is made a handshake timer is one left over by a reconnection that is under way. */
  predicate LeftOver(c: Client) {
    Starting(c.link.st) && c.timers.handshake ==> c.reconnecting && c.reconnectEnabled
  }

  ghost predicate Good(c: Client) {
    !c.crashed && T.Inv(c) && Handles(c.reconnectEnabled, c.link.st, c.timers) && Greeted(c.link.tps, c.timers.handshake)
  }

  ghost predicate Inv(c: Client) {
    c.crashed || (Good(c) && LeftOver(c))
  }

  // ---------- stopping ----------

  /** Stopping starts the closed reconnect timer. */
  predicate StopCrashes(c: Client) {
    c.reconnectEnabled && c.link.st == CLOSED && !c.reconnecting
  }

  /** Stopping closes the client for good. */
  predicate StopCloses(c: Client) {
    (!c.reconnectEnabled || c.link.st == DISCONNECTING) && c.link.st != INITED && c.link.st != CLOSED
  }

  /** The state a stopped client is in. */
  function StoppedState(c: Client): CState {
    if c.reconnectEnabled && c.link.st != DISCONNECTING then if c.reconnecting || c.link.st == CLOSED then c.link.st else INITED
    else CLOSED
  }

  /** The transport dropped, the rest of what is known of transports stays. */
  lemma DropGreets(l: Link, writes: multiset<Write>, st: CState, h: bool, h': bool)
    requires T.Sound(l, writes) && !T.Live(st) && Greeted(l.tps, h)
    ensures Greeted(DropTransport(l, st).tps, h') && DropTransport(l, st).st == st
  {
    T.DropSound(l, writes, st);
    hide T.Sound;
    var d := DropTransport(l, st);
    assert forall t: nat :: t < |d.tps| && d.tps[t].st.TpConnecting? ==> d.tps[t] == l.tps[t];
  }

  /** Stopping uses a handle that is gone exactly for a client closed while it may reconnect; else it leaves no timer that could do harm. */
  lemma StopCrashIff(c: Client)
    requires Good(c) && (Starting(c.link.st) && c.timers.handshake ==> c.reconnectEnabled)
    ensures Stop(c).crashed <==> StopCrashes(c)
    ensures !StopCrashes(c) ==> Good(Stop(c)) && LeftOver(Stop(c))
    ensures Stop(c).link.st == StoppedState(c)
  {
    hide T.Sound, DropTransport, Greeted, Cleared;
    T.StopKeeps(c);
    DropGreets(c.link, c.work.writes, INITED, c.timers.handshake, c.timers.handshake);
    DropGreets(c.link, c.work.writes, CLOSED, c.timers.handshake, false);
  }

  /** What stopping leaves of the flags. */
  lemma StopFlags(c: Client)
    ensures var d := Stop(c);
      && d.reconnectEnabled == c.reconnectEnabled && d.conn == c.conn
      && (d.reconnecting <==> c.reconnecting || (c.reconnectEnabled && c.link.st != DISCONNECTING && !c.timers.reconnectClosed))
      && (c.timers.open ==> (!d.timers.open <==> StopCloses(c)))
      && (StopCloses(c) ==> d.work == c.work)
  {
    hide DropTransport, Cleared;
  }

  // ---------- callbacks of connect requests ----------

  /** The callback of a failed connect stops the client, and does so where that starts the closed reconnect timer. */
  predicate CallbackCrashes(c: Client, cb: ConnCb) {
    c.reconnectEnabled && c.link.st == CLOSED && Restarts(cb, c.reconnecting)
  }

  predicate Restarts(cb: ConnCb, reconnecting: bool) {
    cb.ReconnectedCb? || (cb.ConnectedCb? && !reconnecting)
  }

  lemma ConnCbCrashIff(c: Client, cb: ConnCb, ok: bool)
    requires Good(c) && LeftOver(c) && (ok ==> !Starting(c.link.st))
    ensures RunConnCb(c, cb, ok).crashed <==> !ok && CallbackCrashes(c, cb)
    ensures Inv(RunConnCb(c, cb, ok))
  {
    hide Stop, T.Sound, Greeted;
    StopCrashIff(c);
    StopCrashIff(c.(reconnecting := false, timers := c.timers.(reconnect := false)));
  }

  lemma PendingConnCrashIff(c: Client, ok: bool)
    requires Good(c) && LeftOver(c) && (ok ==> !Starting(c.link.st))
    ensures RunPendingConn(c, ok).crashed <==> !ok && c.conn.Some? && CallbackCrashes(c, c.conn.value)
    ensures Inv(RunPendingConn(c, ok))
  {
    hide RunConnCb, Good, LeftOver;
    assert !c.crashed by { NotCrashed(c); }
    if c.conn.Some? {
      SameHandles(c, c.(conn := None));
      assert LeftOver(c.(conn := None)) by { SameLeftOver(c, c.(conn := None)); }
      ConnCbCrashIff(c.(conn := None), c.conn.value, ok);
    }
  }

  lemma SameLeftOver(c: Client, d: Client)
    requires LeftOver(c) && d.link.st == c.link.st && d.timers.handshake == c.timers.handshake
    requires d.reconnecting == c.reconnecting && d.reconnectEnabled == c.reconnectEnabled
    ensures LeftOver(d)
  {
  }

  lemma FailedIsSafe(c: Client, cb: ConnCb)
    requires Good(c) && (c.link.st == CONNECTING || c.link.st == CONNECTED)
    requires Starting(c.link.st) && c.timers.handshake ==> c.reconnectEnabled
    ensures Good(TcpConnectFailed(c, cb)) && LeftOver(TcpConnectFailed(c, cb))
  {
    hide Stop, RunConnCb, T.Sound, Greeted, Handles;
    var c1 := c.(conn := None);
    StopCrashIff(c1);
    StopFlags(c1);
    ConnCbCrashIff(Stop(c1), cb, false);
  }

  /** A write of the handshake failed: the client is stopped and then the callback of its connect request run. */
  predicate WriteCrashes(c: Client) {
    c.reconnectEnabled && c.link.st == DISCONNECTING && c.conn.Some? && Restarts(c.conn.value, c.reconnecting)
  }

  lemma WriteFailedCrashIff(c: Client)
    requires Good(c) && LeftOver(c) && (T.Live(c.link.st) || c.link.st == DISCONNECTING)
    ensures WriteFailed(c).crashed <==> WriteCrashes(c)
    ensures Inv(WriteFailed(c))
  {
    hide Stop, RunPendingConn, T.Sound, Greeted, Handles;
    StopCrashIff(c);
    StopFlags(c);
    StillOpen(c);
    PendingConnCrashIff(Stop(c), false);
  }

  /** A client with a working transport, or on its way to one, has its handles. */
  lemma StillOpen(c: Client)
    requires Good(c) && c.link.st != CLOSED
    ensures c.timers.open && !c.timers.reconnectClosed
  {
  }

  // ---------- connecting ----------

  lemma ConnectIsSafe(c: Client, cb: ConnCb, dialed: bool)
    requires Good(c) && LeftOver(c)
    ensures Good(Connect(c, cb, dialed).client) && LeftOver(Connect(c, cb, dialed).client)
  {
    hide T.Sound;
    T.ConnectKeeps(c, cb, dialed);
    var l := Connect(c, cb, dialed).client.link;
    assert forall t: nat :: IsWorking(l.tps, t) ==> IsWorking(c.link.tps, t);
  }

  /** The handshake is written on a connection just made. */
  lemma HandshakeReqIsSafe(c: Client, t: nat, cb: ConnCb, sent: bool)
    requires Good(c) && c.link.st == CONNECTED && t < |c.link.tps| && !c.link.tps[t].handshaken && c.link.transport == Some(t)
    ensures Good(HandshakeReq(c, t, cb, sent)) && LeftOver(HandshakeReq(c, t, cb, sent))
  {
    hide TcpConnectFailed, T.Sound, Greeted;
    T.OtherWriteSound(c.link, c.work.writes, HandshakeWrite(t));
    GreetedAnew(c.link, c.work.writes, t, c.timers.handshake);
    FailedIsSafe(c, cb);
  }

  lemma GreetedAnew(l: Link, writes: multiset<Write>, t: nat, h: bool)
    requires T.Sound(l, writes) && l.transport == Some(t) && t < |l.tps| && !l.tps[t].handshaken && Greeted(l.tps, h)
    ensures Greeted(l.tps, true)
  {
    OnlyCurrent(l, writes, t);
    hide T.Sound;
  }

  lemma OnlyCurrent(l: Link, writes: multiset<Write>, t: nat)
    requires T.Sound(l, writes) && l.transport == Some(t)
    ensures forall u: nat :: IsWorking(l.tps, u) ==> u == t
  {
  }

  /** The pending connect may be dropped, closed, adopted or started. */
  lemma AcceptGreets(l0: Link, writes: multiset<Write>, t: nat, h: bool)
    requires T.Sound(l0, writes) && t in l0.connects && Greeted(l0.tps, h)
    ensures t < |l0.tps| && !l0.tps[t].handshaken
    ensures Greeted(SetTp(l0.tps, t, TpClosed), h)
    ensures Greeted(Started(l0.(connects := l0.connects - {t}), t).tps, h)
  {
    var closed, started := SetTp(l0.tps, t, TpClosed), SetTp(l0.tps, t, TpWorking);
    assert forall u: nat :: IsWorking(closed, u) ==> IsWorking(l0.tps, u);
    assert forall u: nat :: IsWorking(started, u) ==> u == t || IsWorking(l0.tps, u);
  }

  lemma TcpConnectCrashIff(c: Client, t: nat, ok: bool, reading: bool, sent: bool)
    requires Good(c) && LeftOver(c) && t in c.link.connects
    ensures Inv(OnTcpConnect(c, t, ok, reading, sent))
    ensures OnTcpConnect(c, t, ok, reading, sent).crashed <==> CallbackCrashes(c, c.link.connects[t])
  {
    AcceptedTransport(c.link, t);
    hide TcpConnectFailed, RunConnCb, T.Sound, HandshakeReq, SetTp, Started, Greeted;
    var cb := c.link.connects[t];
    var l := c.link.(connects := c.link.connects - {t});
    T.AcceptSound(c.link, c.work.writes, t);
    AcceptGreets(c.link, c.work.writes, t, c.timers.handshake);
    if l.st != CONNECTING {
      ConnCbCrashIff(c.(link := l, conn := None), cb, false);
    } else if !ok {
      FailedIsSafe(c.(link := l.(tps := SetTp(l.tps, t, TpClosed))), cb);
    } else if !reading {
      FailedIsSafe(c.(link := l.(transport := Some(t))), cb);
    } else {
      HandshakeReqIsSafe(c.(link := Started(l, t)), t, cb, sent);
    }
  }

  lemma AcceptedTransport(l0: Link, t: nat)
    ensures var l := Started(l0.(connects := l0.connects - {t}), t);
      && l.st == CONNECTED && l.transport == Some(t) && |l.tps| == |l0.tps|
      && (t < |l0.tps| ==> l.tps[t].handshaken == l0.tps[t].handshaken)
  {
  }

  // ---------- timers and writes ----------

  /** Stopping with its handles there is safe. */
  lemma StopIsSafe(c: Client)
    requires Good(c) && (Starting(c.link.st) && c.timers.handshake ==> c.reconnectEnabled)
    requires c.timers.open || c.timers.reconnect
    ensures Good(Stop(c)) && LeftOver(Stop(c))
  {
    hide Stop, T.Sound, Greeted;
    StopCrashIff(c);
  }

  lemma BeatTimerIsSafe(c: Client, sent: bool)
    requires Good(c) && LeftOver(c) && c.timers.beat
    ensures Good(OnBeatTimer(c, sent)) && LeftOver(OnBeatTimer(c, sent))
  {
    BeatIsOpen(c);
    hide Stop, BinaryWrite, Good, Beat;
    var c1 := c.(timers := c.timers.(beat := false));
    assert !c.crashed by { NotCrashed(c); }
    SameHandles(c, c1);
    StopIsSafe(c1);
    WriteIsSafe(c1, BeatWrite, sent);
    var d := BinaryWrite(c1, BeatWrite, sent).client;
    StopIsSafe(d);
    if d.link.transport.Some? {
      BeatIsSafe(d, d.link.transport.value);
    }
  }

  lemma BeatIsOpen(c: Client)
    requires Good(c) && (c.timers.beat || c.timers.timeout || c.timers.handshake)
    ensures c.timers.open
  {
  }

  lemma NotCrashed(c: Client)
    requires Good(c)
    ensures !c.crashed
  {
  }

  lemma BeatIsSafe(c: Client, t: nat)
    requires Good(c) && LeftOver(c) && c.timers.open
    ensures Good(Beat(c, t)) && LeftOver(Beat(c, t))
  {
    hide T.Sound, Greeted;
  }

  /** Only the link, the writes and these handles matter. */
  lemma SameHandles(c: Client, d: Client)
    requires Good(c) && d.link == c.link && d.work == c.work && !d.crashed && d.reconnectEnabled == c.reconnectEnabled
    requires d.timers.open == c.timers.open && d.timers.handshake == c.timers.handshake && d.timers.reconnectClosed == c.timers.reconnectClosed
    requires (d.timers.beat ==> c.timers.beat) && (d.timers.timeout ==> c.timers.timeout) && (d.timers.reconnect ==> c.timers.reconnect)
    ensures Good(d)
  {
    hide T.Sound, Greeted;
  }

  lemma WriteIsSafe(c: Client, w: Write, sent: bool)
    requires Good(c) && LeftOver(c) && !w.AckWrite?
    ensures var d := BinaryWrite(c, w, sent).client; Good(d) && !d.crashed && LeftOver(d) && d.timers == c.timers && d.link == c.link
  {
    hide T.Sound, Greeted;
    WorkingHasTransport(c);
    T.OtherWriteSound(c.link, c.work.writes, w);
  }

  lemma WorkingHasTransport(c: Client)
    requires T.Inv(c)
    ensures T.Live(c.link.st) ==> c.link.transport.Some?
    ensures forall t: nat :: Working(c, t) ==> c.link.transport.Some? && (T.Live(c.link.st) || c.link.st == DISCONNECTING)
  {
  }

  lemma ReconnectTimerIsSafe(c: Client, resolved: bool, dialed: bool)
    requires Good(c) && LeftOver(c) && c.timers.reconnect
    ensures Good(OnReconnectTimer(c, resolved, dialed)) && LeftOver(OnReconnectTimer(c, resolved, dialed))
  {
    hide Stop, Connect, T.Sound, Greeted;
    var c1 := c.(timers := c.timers.(reconnect := false));
    StopCrashIff(c1.(reconnecting := false));
    ConnectIsSafe(c1, ReconnectedCb, dialed);
    ConnectStays(c1, ReconnectedCb, dialed);
    StopCrashIff(Connect(c1, ReconnectedCb, dialed).client.(reconnecting := false));
  }

  lemma ConnectStays(c: Client, cb: ConnCb, dialed: bool)
    ensures var d := Connect(c, cb, dialed).client; (d.link.st == CLOSED <==> c.link.st == CLOSED) && d.reconnectEnabled == c.reconnectEnabled
  {
  }

  lemma TimeoutIsSafe(c: Client)
    requires Good(c) && LeftOver(c) && c.timers.timeout
    ensures Good(OnTimeout(c)) && LeftOver(OnTimeout(c))
  {
    BeatIsOpen(c);
    hide Stop, T.Sound, Greeted;
    StopIsSafe(c.(log := c.log + [TimedOut], timers := c.timers.(timeout := false)));
  }

  lemma HandshakeTimerIsSafe(c: Client)
    requires Good(c) && LeftOver(c) && c.timers.handshake
    ensures Good(OnHandshakeTimer(c)) && LeftOver(OnHandshakeTimer(c))
  {
    BeatIsOpen(c);
    hide Stop, T.Sound;
    StopIsSafe(c.(log := c.log + [GreetingTimedOut], timers := c.timers.(handshake := false)));
  }

  lemma CloseIsSafe(c: Client)
    requires Good(c) && LeftOver(c) && c.timers.open
    ensures var d := Stop(c.(timers := c.timers.(closeRequested := false))); Good(d) && LeftOver(d)
  {
    hide Stop, T.Sound, Greeted;
    StopIsSafe(c.(timers := c.timers.(closeRequested := false)));
  }

  lemma ReadErrorIsSafe(c: Client, t: nat)
    requires Good(c) && LeftOver(c) && Working(c, t)
    ensures var d := Stop(c.(reconnecting := false)); Good(d) && LeftOver(d)
  {
    WorkingHasTransport(c);
    hide Stop, T.Sound, Greeted, Working;
    StopIsSafe(c.(reconnecting := false));
  }

  lemma RequestIsSafe(c: Client)
    requires Good(c) && LeftOver(c)
    ensures Good(MakeRequest(c)) && LeftOver(MakeRequest(c))
  {
    hide T.Sound, Greeted;
  }

  lemma SendIsSafe(c: Client, r: Req, encoded: bool, sent: bool)
    requires Good(c) && LeftOver(c)
    ensures Good(SendRequest(c, r, encoded, sent)) && LeftOver(SendRequest(c, r, encoded, sent))
  {
    WorkingHasTransport(c);
    T.OtherWriteSound(c.link, c.work.writes, RequestWrite(r));
    hide T.Sound, Greeted;
  }

  lemma DisconnectCrashIff(c: Client)
    requires Good(c) && LeftOver(c)
    ensures Inv(Disconnect(c)) && (Disconnect(c).crashed <==> !c.timers.open)
  {
    T.DisconnectSound(c.link, c.work.writes);
    hide T.Sound, Greeted;
  }

  lemma AckedGreets(l: Link, t: nat, h: bool)
    requires IsWorking(l.tps, t) && l.tps[t].handshaken && Greeted(l.tps, h)
    ensures Greeted(Acked(l, t).tps, h) && !h
  {
    var l' := Acked(l, t);
    assert forall u: nat :: IsWorking(l'.tps, u) <==> IsWorking(l.tps, u);
  }

  /** The completion of a write that is under way. */
  predicate CompletionCrashes(c: Client, w: Write, ok: bool) {
    !ok && (w.BeatWrite? || ((w.HandshakeWrite? || w.AckWrite?) && Working(c, w.tp) && WriteCrashes(c)))
  }

  lemma WrittenCrashIff(c: Client, w: Write, ok: bool)
    requires Good(c) && LeftOver(c) && w in c.work.writes
    ensures Inv(OnWritten(c, w, ok)) && (OnWritten(c, w, ok).crashed <==> CompletionCrashes(c, w, ok))
  {
    hide RunPendingConn, WriteFailed, T.Sound, Greeted, Stop, Handles;
    var c1 := c.(work := c.work.(writes := c.work.writes - multiset{w}));
    T.FewerWritesSound(c.link, c.work.writes, w);
    WorkingHasTransport(c);
    if w.AckWrite? && Working(c1, w.tp) && ok {
      AckCompleted(c, w.tp);
    } else if (w.AckWrite? || w.HandshakeWrite?) && Working(c1, w.tp) && !ok {
      WriteFailedCrashIff(c1);
    }
  }

  lemma AckCompleted(c: Client, t: nat)
    requires Good(c) && LeftOver(c) && AckWrite(t) in c.work.writes && Working(c, t)
    ensures Good(OnWritten(c, AckWrite(t), true)) && LeftOver(OnWritten(c, AckWrite(t), true))
  {
    StillWorking(c, t);
    T.AckedSound(c.link, c.work.writes, t);
    AckedWasShaken(c.link, c.work.writes, t);
    AckedGreets(c.link, t, c.timers.handshake);
    hide RunPendingConn, T.Sound, Greeted;
    var c1 := c.(work := c.work.(writes := c.work.writes - multiset{AckWrite(t)}), link := Acked(c.link, t));
    PendingConnCrashIff(c1, true);
  }

  lemma StillWorking(c: Client, t: nat)
    requires Good(c) && Working(c, t)
    ensures c.timers.open && !c.timers.reconnectClosed && c.link.st != CLOSED && !Starting(c.link.st)
  {
  }

  lemma AckedWasShaken(l: Link, writes: multiset<Write>, t: nat)
    requires T.Sound(l, writes) && AckWrite(t) in writes
    ensures t < |l.tps| && l.tps[t].handshaken
  {
  }

  lemma NewIsGood(b: bool)
    ensures Good(New(b)) && LeftOver(New(b))
  {
    T.NewIsGood(b);
    hide T.Sound;
  }
}
