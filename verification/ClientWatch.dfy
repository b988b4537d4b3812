/**
  What keeps the client going, in every run: a timeout stops it, a reconnection that was decided on is
  scheduled, and the heartbeat of a connection goes on; with the one case in which it does not.
 */
module ClientWatch {
  import opened Bytes
  import opened Client
  import T = ClientTransport
  import H = ClientHandles
  import Crashes = ClientCrashes
  import ClientBeats
  import Runs = ClientRuns

  /** The events that stop the client whatever else they do. */
  predicate Stops(e: Event) {
    e.ETimeoutTimer? || e.EHandshakeTimer? || e.EReadError? || e.EClose?
  }

  /** In every run, after a heartbeat or handshake timeout, a read error or a close, the client is in the state that stopping leaves. */
  lemma RunStops(cs: seq<Client>, es: seq<Event>, n: nat)
    requires IsRun(cs, es) && n < |es| && Stops(es[n])
    ensures var c, d := cs[n], cs[n + 1];
      d.link.st == if !c.reconnectEnabled || c.link.st == DISCONNECTING then CLOSED
                   else if c.reconnecting && !es[n].EReadError? then c.link.st else INITED
  {
    hide H.Good, H.LeftOver, Step, Enabled;
    Crashes.RunKeeps(cs, es, n);
    Crashes.Alive(cs, es, n);
    StopsStep(cs[n], es[n]);
  }

  /** The state that stopping leaves, when the client was not closed while it may reconnect. */
  predicate LeftIn(c: Client, reconnecting: bool, st: CState) {
    st == if !c.reconnectEnabled || c.link.st == DISCONNECTING then CLOSED else if reconnecting then c.link.st else INITED
  }

  lemma StopsStep(c: Client, e: Event)
    requires H.Good(c) && H.LeftOver(c) && Enabled(c, e) && Stops(e)
    ensures LeftIn(c, c.reconnecting && !e.EReadError?, Step(c, e).link.st)
  {
    OpenStates(c, e);
    hide H.Good, H.LeftOver, LeftIn, Step;
    if e.ETimeoutTimer? {
      TimeoutStops(c, e);
    } else if e.EHandshakeTimer? {
      GreetingStops(c, e);
    } else {
      OtherStops(c, e);
    }
  }

  lemma TimeoutStops(c: Client, e: Event)
    requires H.Good(c) && H.LeftOver(c) && (c.reconnectEnabled ==> c.link.st != CLOSED) && Enabled(c, e) && e.ETimeoutTimer?
    ensures LeftIn(c, c.reconnecting, Step(c, e).link.st)
  {
    hide Stop, OnPackages, OnWritten, OnTcpConnect, OnBeatTimer, OnReconnectTimer, H.Good, H.LeftOver, LeftIn, OnHandshakeTimer;
    StopLeaves(c, c.(log := c.log + [TimedOut], timers := c.timers.(timeout := false)));
  }

  lemma GreetingStops(c: Client, e: Event)
    requires H.Good(c) && H.LeftOver(c) && (c.reconnectEnabled ==> c.link.st != CLOSED) && Enabled(c, e) && e.EHandshakeTimer?
    ensures LeftIn(c, c.reconnecting, Step(c, e).link.st)
  {
    hide Stop, OnPackages, OnWritten, OnTcpConnect, OnBeatTimer, OnReconnectTimer, H.Good, H.LeftOver, LeftIn, OnTimeout;
    StopLeaves(c, c.(log := c.log + [GreetingTimedOut], timers := c.timers.(handshake := false)));
  }

  lemma OtherStops(c: Client, e: Event)
    requires H.Good(c) && H.LeftOver(c) && (c.reconnectEnabled ==> c.link.st != CLOSED) && Enabled(c, e) && (e.EReadError? || e.EClose?)
    ensures LeftIn(c, c.reconnecting && !e.EReadError?, Step(c, e).link.st)
  {
    hide Stop, OnPackages, OnWritten, OnTcpConnect, OnBeatTimer, OnReconnectTimer, H.Good, H.LeftOver, LeftIn, OnTimeout, OnHandshakeTimer;
    if e.EReadError? {
      StopLeaves(c, c.(reconnecting := false));
    } else {
      StopLeaves(c, c.(timers := c.timers.(closeRequested := false)));
    }
  }

  lemma StopLeaves(c: Client, d: Client)
    requires H.Good(c) && H.LeftOver(c) && (c.reconnectEnabled ==> c.link.st != CLOSED)
    requires d.link == c.link && d.reconnectEnabled == c.reconnectEnabled && d.timers.reconnectClosed == c.timers.reconnectClosed
    ensures LeftIn(c, d.reconnecting, Stop(d).link.st)
  {
    hide DropTransport, Cleared, T.Sound, H.Greeted;
    H.DropGreets(c.link, c.work.writes, INITED, c.timers.handshake, c.timers.handshake);
    H.DropGreets(c.link, c.work.writes, CLOSED, c.timers.handshake, false);
    if c.reconnectEnabled {
      NoReconnectClosed(c);
    }
  }

  lemma NoReconnectClosed(c: Client)
    requires H.Good(c) && c.reconnectEnabled && c.link.st != CLOSED
    ensures !c.timers.reconnectClosed
  {
  }

  lemma OpenStates(c: Client, e: Event)
    requires H.Good(c) && H.LeftOver(c) && Enabled(c, e) && Stops(e)
    ensures c.reconnectEnabled ==> c.link.st != CLOSED
  {
    H.WorkingHasTransport(c);
    hide T.Sound, H.Greeted;
  }

  // ---------- the way to a working client ----------

  lemma Dials(c: Client, cb: ConnCb)
    requires c.link.st == INITED && !c.crashed
    ensures var d, t := Connect(c, cb, true).client, |c.link.tps|;
      && d.link.st == CONNECTING && t in d.link.connects && d.link.connects[t] == cb && d.conn == Some(cb)
      && |d.link.tps| == t + 1 && d.link.tps[t].st.TpConnecting? && d.timers == c.timers && !d.crashed
  {
  }

  lemma Greets(c: Client, t: nat)
    requires c.link.st == CONNECTING && t in c.link.connects && t < |c.link.tps| && c.link.tps[t].st.TpConnecting? && !c.crashed && c.timers.open
    ensures var d := OnTcpConnect(c, t, true, true, true);
      && d.link.st == CONNECTED && d.link.transport == Some(t) && Working(d, t) && HandshakeWrite(t) in d.work.writes
      && d.timers == c.timers.(handshake := true) && d.conn == c.conn && !d.crashed
  {
    hide TcpConnectFailed, RunConnCb;
  }

  lemma Answers(c: Client, t: nat, p: Pkg)
    requires c.link.st == CONNECTED && c.link.transport == Some(t) && Working(c, t) && !c.crashed && c.timers.open
    requires p.Handshake? && p.code200 && p.accepted && p.sent
    ensures var d := OnPackage(c, p);
      && d.link.st == CONNECTED && d.link.transport == Some(t) && Working(d, t) && AckWrite(t) in d.work.writes
      && !d.timers.handshake && (p.beats.Some? && p.beats.value > 0 ==> d.timers.beat) && !d.crashed
  {
    hide Stop;
  }

  lemma Works(c: Client, t: nat)
    requires c.link.transport == Some(t) && Working(c, t) && !c.crashed
    ensures var d := OnWritten(c, AckWrite(t), true);
      d.link.st == WORKING && d.link.transport == Some(t) && Working(d, t) && d.conn.None? && d.timers.beat == c.timers.beat && !d.crashed
  {
    hide Stop, WriteFailed;
  }

  /**
    In every run: a connect that is dialled and completes, a handshake with code 200 that is accepted, and
    its ack written, make a working client, with its heartbeat timer running if one was asked for.
   */
  lemma HandshakeLeadsToWork(cs: seq<Client>, es: seq<Event>, n: nat, cb: ConnCb, p: Pkg)
    requires IsRun(cs, es) && n + 3 < |es| && cs[n].link.st == INITED
    requires p.Handshake? && p.code200 && p.accepted && p.sent
    requires var t := |cs[n].link.tps|;
      && es[n] == EConnect(cb, true) && es[n + 1] == ETcpConnect(t, true, true, true)
      && es[n + 2] == ERead(t, [p]) && es[n + 3] == EWritten(AckWrite(t), true)
    ensures var d := cs[n + 4];
      && d.link.st == WORKING && d.link.transport == Some(|cs[n].link.tps|) && !d.crashed
      && (p.beats.Some? && p.beats.value > 0 ==> d.timers.beat)
  {
    var t := |cs[n].link.tps|;
    Crashes.RunKeeps(cs, es, n);
    Crashes.Alive(cs, es, n);
    H.StillOpen(cs[n]);
    hide H.Good, H.LeftOver, Connect, OnTcpConnect, OnPackage, OnPackages, OnWritten, OnBeatTimer, OnReconnectTimer, OnTimeout, OnHandshakeTimer, Stop;
    assert cs[n + 1] == Connect(cs[n], cb, true).client;
    Dials(cs[n], cb);
    assert cs[n + 2] == OnTcpConnect(cs[n + 1], t, true, true, true);
    Greets(cs[n + 1], t);
    assert cs[n + 3] == OnPackages(cs[n + 2], [p]);
    Runs.OnePackage(cs[n + 2], p);
    Answers(cs[n + 2], t, p);
    assert cs[n + 4] == OnWritten(cs[n + 3], AckWrite(t), true);
    Works(cs[n + 3], t);
  }

  // ---------- reconnection ----------

  /**
    A client that is to reconnect has its reconnect timer running; while a connect is under way, it has
    that or a connect whose callback will go on with the reconnection.
   */
  predicate Scheduled(c: Client) {
    c.crashed || (c.reconnecting ==>
      && (c.link.st == INITED ==> c.timers.reconnect)
      && (c.link.st == CONNECTING ==> c.timers.reconnect || ReconnectedCb in c.link.connects.Values))
  }

  /** What is left when a pending connect is taken out: another callback, or its own goes on with the reconnection. */
  lemma TakenOut(c: Client, t: nat)
    requires Scheduled(c) && t in c.link.connects
    ensures var l := c.link.(connects := c.link.connects - {t});
      c.crashed || c.link.connects[t] == ReconnectedCb || Scheduled(c.(link := l))
  {
    var m := c.link.connects;
    if ReconnectedCb in m.Values && m[t] != ReconnectedCb {
      var u :| u in m && m[u] == ReconnectedCb;
      assert u in m - {t} && (m - {t})[u] == ReconnectedCb;
    }
  }

  lemma StopSchedules(c: Client)
    requires Scheduled(c)
    ensures Scheduled(Stop(c))
    ensures c.reconnectEnabled && !c.reconnecting && c.link.st != DISCONNECTING ==> Stop(c).crashed || Stop(c).timers.reconnect
  {
    hide Cleared, SetTp;
  }

  lemma ConnCbSchedules(c: Client, cb: ConnCb, ok: bool)
    requires Scheduled(c) || (cb.ReconnectedCb? && !ok)
    ensures Scheduled(RunConnCb(c, cb, ok))
  {
    hide Stop;
    if !cb.ReconnectedCb? {
      StopSchedules(c);
    }
    StopSchedules(c.(reconnecting := false, timers := c.timers.(reconnect := false)));
  }

  lemma PendingConnSchedules(c: Client, ok: bool)
    requires Scheduled(c)
    ensures Scheduled(RunPendingConn(c, ok))
  {
    hide RunConnCb;
    if c.conn.Some? {
      ConnCbSchedules(c.(conn := None), c.conn.value, ok);
    }
  }

  lemma FailedSchedules(c: Client, cb: ConnCb)
    requires Scheduled(c) || cb.ReconnectedCb?
    ensures Scheduled(TcpConnectFailed(c, cb))
  {
    hide Stop, RunConnCb;
    if !cb.ReconnectedCb? {
      StopSchedules(c.(conn := None));
    }
    ConnCbSchedules(Stop(c.(conn := None)), cb, false);
  }

  lemma WriteFailedSchedules(c: Client)
    requires Scheduled(c)
    ensures Scheduled(WriteFailed(c))
  {
    hide Stop, RunPendingConn;
    StopSchedules(c);
    PendingConnSchedules(Stop(c), false);
  }

  lemma TcpConnectSchedules(c: Client, t: nat, ok: bool, reading: bool, sent: bool)
    requires Scheduled(c) && t in c.link.connects
    ensures Scheduled(OnTcpConnect(c, t, ok, reading, sent))
  {
    hide TcpConnectFailed, RunConnCb, SetTp;
    var cb := c.link.connects[t];
    var l := c.link.(connects := c.link.connects - {t});
    TakenOut(c, t);
    assert c.crashed ==> Scheduled(c.(link := l));
    ConnCbSchedules(c.(link := l, conn := None), cb, false);
    FailedSchedules(c.(link := l.(tps := SetTp(l.tps, t, TpClosed))), cb);
    FailedSchedules(c.(link := l.(transport := Some(t))), cb);
    FailedSchedules(c.(link := Started(l, t)), cb);
  }

  lemma AcknowledgeStays(c: Client, sent: bool)
    ensures var d := Acknowledge(c, sent);
      && d.timers == c.timers && d.link.st == c.link.st && d.reconnecting == c.reconnecting && d.reconnectEnabled == c.reconnectEnabled
      && d.link.connects == c.link.connects && (c.crashed ==> d.crashed)
  {
    hide Marked;
  }

  lemma HandshakeSchedules(c: Client, p: Pkg)
    requires Scheduled(c) && p.Handshake?
    ensures Scheduled(HandshakeResp(c, p))
  {
    hide Stop, Acknowledge;
    var c1 := c.(timers := Configured(c.timers, p));
    StopSchedules(c1);
    AcknowledgeStays(c1, p.sent);
  }

  lemma PackageSchedules(c: Client, p: Pkg)
    requires Scheduled(c)
    ensures Scheduled(OnPackage(c, p))
  {
    hide Stop, HandshakeResp;
    StopSchedules(c);
    if p.Handshake? {
      HandshakeSchedules(c, p);
    }
  }

  lemma {:induction false} PackagesSchedule(c: Client, ps: seq<Pkg>)
    requires Scheduled(c)
    ensures Scheduled(OnPackages(c, ps))
    decreases |ps|
  {
    hide OnPackage, Scheduled;
    if ps != [] && !c.crashed {
      PackageSchedules(c, ps[0]);
      PackagesSchedule(OnPackage(c, ps[0]), ps[1..]);
    }
  }

  lemma WriteStays(c: Client, w: Write, sent: bool)
    ensures var d := BinaryWrite(c, w, sent).client;
      && d.timers == c.timers && d.link == c.link && d.reconnecting == c.reconnecting && d.reconnectEnabled == c.reconnectEnabled
      && (d.crashed <==> c.crashed || ((c.link.st == CONNECTED || c.link.st == WORKING) && c.link.transport.None?))
  {
  }

  lemma BeatTimerSchedules(c: Client, sent: bool)
    requires Scheduled(c)
    ensures Scheduled(OnBeatTimer(c, sent))
  {
    hide Stop, BinaryWrite;
    var c1 := c.(timers := c.timers.(beat := false));
    WriteStays(c1, BeatWrite, sent);
    StopSchedules(c1);
    StopSchedules(BinaryWrite(c1, BeatWrite, sent).client);
  }

  /** The timer fires: a connect is under way, or the next reconnection scheduled. */
  lemma ReconnectTimerSchedules(c: Client, resolved: bool, dialed: bool)
    ensures Scheduled(OnReconnectTimer(c, resolved, dialed))
  {
    hide Stop;
    var c1 := c.(timers := c.timers.(reconnect := false));
    StopSchedules(c1.(reconnecting := false));
    var d := Connect(c1, ReconnectedCb, dialed);
    StopSchedules(d.client.(reconnecting := false));
    if d.ok {
      assert d.client.link.connects[|c.link.tps|] == ReconnectedCb;
      assert ReconnectedCb in d.client.link.connects.Values;
    }
  }

  lemma WrittenSchedules(c: Client, w: Write, ok: bool)
    requires Scheduled(c)
    ensures Scheduled(OnWritten(c, w, ok))
  {
    hide WriteFailed, RunPendingConn;
    var c1 := c.(work := c.work.(writes := c.work.writes - multiset{w}));
    WriteFailedSchedules(c1);
    if w.AckWrite? && Working(c1, w.tp) {
      PendingConnSchedules(c1.(link := Acked(c1.link, w.tp)), true);
    }
  }

  lemma StepSchedules(c: Client, e: Event)
    requires Scheduled(c) && Enabled(c, e)
    ensures Scheduled(Step(c, e))
  {
    hide Stop, OnTcpConnect, OnPackages, OnBeatTimer, OnReconnectTimer, OnWritten;
    match e
    case EConnect(_, _) =>
    case ETcpConnect(t, ok, reading, sent) => TcpConnectSchedules(c, t, ok, reading, sent);
    case ERead(_, ps) => PackagesSchedule(c, ps);
    case EReadError(_) => StopSchedules(c.(reconnecting := false));
    case EBeatTimer(sent) => BeatTimerSchedules(c, sent);
    case ETimeoutTimer => StopSchedules(c.(log := c.log + [TimedOut], timers := c.timers.(timeout := false)));
    case EHandshakeTimer => StopSchedules(c.(log := c.log + [GreetingTimedOut], timers := c.timers.(handshake := false)));
    case EReconnectTimer(resolved, dialed) => ReconnectTimerSchedules(c, resolved, dialed);
    case ERequest =>
    case ESend(_, _, _) =>
    case EWritten(w, ok) => WrittenSchedules(c, w, ok);
    case EDisconnect =>
    case EClose => StopSchedules(c.(timers := c.timers.(closeRequested := false)));
  }

  /** In every state of every run a reconnection that was decided on is scheduled or under way. */
  lemma {:induction false} ReconnectionIsScheduled(cs: seq<Client>, es: seq<Event>, n: nat)
    requires IsRun(cs, es) && n < |cs| && !cs[n].crashed && cs[n].reconnecting
    ensures cs[n].link.st == INITED ==> cs[n].timers.reconnect
    ensures cs[n].link.st == CONNECTING ==> cs[n].timers.reconnect || ReconnectedCb in cs[n].link.connects.Values
  {
    RunScheduled(cs, es, n);
  }

  lemma {:induction false} RunScheduled(cs: seq<Client>, es: seq<Event>, n: nat)
    requires IsRun(cs, es) && n < |cs|
    ensures Scheduled(cs[n])
  {
    hide Step;
    if n > 0 {
      RunScheduled(cs, es, n - 1);
      StepSchedules(cs[n - 1], es[n - 1]);
      assert cs[n] == Step(cs[n - 1], es[n - 1]);
    }
  }

  // ---------- heartbeats ----------

  /** The client has a connection whose handshake was acknowledged. */
  predicate Shaken(l: Link) {
    l.transport.Some? && IsWorking(l.tps, l.transport.value) && l.tps[l.transport.value].handshaken
  }

  /** When heartbeats were asked for, one of the two timers of such a connection runs. */
  predicate Watched(c: Client) {
    c.crashed || (Shaken(c.link) && c.timers.repeats ==> c.timers.beat || c.timers.timeout)
  }

  /** Stopping is ignored while the client is reconnecting. */
  predicate StopIgnored(c: Client) {
    c.reconnectEnabled && c.reconnecting && c.link.st != DISCONNECTING
  }

  /** A timer fires that ought to stop the client, and does not. */
  predicate Neglected(c: Client, e: Event) {
    && Shaken(c.link) && c.timers.repeats && StopIgnored(c)
    && match e
       case ETimeoutTimer => true
       case EBeatTimer(sent) => c.link.st != WORKING || !sent
       case _ => false
  }

  lemma DropForgets(l: Link, writes: multiset<Write>, st: CState)
    requires T.Sound(l, writes)
    ensures !Shaken(DropTransport(l, st))
  {
  }

  lemma StopWatches(c: Client)
    requires T.Inv(c) && (StopIgnored(c) ==> Watched(c)) && (Starting(c) ==> Watched(c))
    ensures Watched(Stop(c))
  {
    DropForgets(c.link, c.work.writes, INITED);
    DropForgets(c.link, c.work.writes, CLOSED);
    Idle(c);
    hide T.Sound, DropTransport, Shaken, Cleared;
  }

  predicate Starting(c: Client) { c.link.st == INITED || c.link.st == CLOSED }

  lemma Idle(c: Client)
    requires T.Inv(c)
    ensures c.link.st == INITED || c.link.st == CLOSED || c.link.st == CONNECTING ==> !Shaken(c.link) && !Shaken(c.link.(st := CLOSED))
  {
  }

  lemma ConnCbWatches(c: Client, cb: ConnCb, ok: bool)
    requires T.Inv(c) && Watched(c)
    ensures Watched(RunConnCb(c, cb, ok))
  {
    hide Stop, T.Sound, Shaken;
    StopWatches(c);
    StopWatches(c.(reconnecting := false, timers := c.timers.(reconnect := false)));
  }

  lemma PendingConnWatches(c: Client, ok: bool)
    requires T.Inv(c) && Watched(c)
    ensures Watched(RunPendingConn(c, ok))
  {
    hide RunConnCb, T.Sound, Shaken;
    if c.conn.Some? {
      ConnCbWatches(c.(conn := None), c.conn.value, ok);
    }
  }

  lemma FailedWatches(c: Client, cb: ConnCb)
    requires T.Inv(c) && Watched(c)
    ensures Watched(TcpConnectFailed(c, cb))
  {
    hide Stop, RunConnCb, T.Sound, Shaken;
    var c1 := c.(conn := None);
    T.StopKeeps(c1);
    StopWatches(c1);
    ConnCbWatches(Stop(c1), cb, false);
  }

  lemma WriteFailedWatches(c: Client)
    requires T.Inv(c) && Watched(c)
    ensures Watched(WriteFailed(c))
  {
    hide Stop, RunPendingConn, T.Sound, Shaken;
    T.StopKeeps(c);
    StopWatches(c);
    PendingConnWatches(Stop(c), false);
  }

  /** A connection just made has no handshake. */
  lemma NewIsUnshaken(l0: Link, writes: multiset<Write>, h: bool, t: nat)
    requires T.Sound(l0, writes) && H.Greeted(l0.tps, h) && t in l0.connects
    ensures var l := l0.(connects := l0.connects - {t});
      && (Shaken(l) <==> Shaken(l0))
      && !Shaken(l.(transport := Some(t))) && !Shaken(Started(l, t))
      && (Shaken(l.(tps := SetTp(l.tps, t, TpClosed))) ==> Shaken(l0))
  {
  }

  lemma TcpConnectWatches(c: Client, t: nat, ok: bool, reading: bool, sent: bool)
    requires H.Good(c) && Watched(c) && t in c.link.connects
    ensures Watched(OnTcpConnect(c, t, ok, reading, sent))
  {
    NewIsUnshaken(c.link, c.work.writes, c.timers.handshake, t);
    T.AcceptSound(c.link, c.work.writes, t);
    hide TcpConnectFailed, RunConnCb, SetTp, T.Sound, Shaken, H.Greeted, Started, HandshakeReq;
    var cb := c.link.connects[t];
    var l := c.link.(connects := c.link.connects - {t});
    if l.st != CONNECTING {
      ConnCbWatches(c.(link := l, conn := None), cb, false);
    } else if !ok {
      FailedWatches(c.(link := l.(tps := SetTp(l.tps, t, TpClosed))), cb);
    } else if !reading {
      FailedWatches(c.(link := l.(transport := Some(t))), cb);
    } else {
      GreetWatches(c.(link := Started(l, t)), t, cb, sent);
    }
  }

  lemma GreetWatches(c: Client, t: nat, cb: ConnCb, sent: bool)
    requires T.Inv(c) && !Shaken(c.link)
    ensures Watched(HandshakeReq(c, t, cb, sent))
  {
    hide TcpConnectFailed, T.Sound, Shaken;
    T.OtherWriteSound(c.link, c.work.writes, HandshakeWrite(t));
    FailedWatches(c, cb);
  }

  lemma HeartbeatWatches(c: Client)
    ensures Watched(Heartbeat(c))
  {
  }

  lemma HandshakeWatches(c: Client, p: Pkg)
    requires T.Inv(c) && Watched(c) && p.Handshake?
    ensures Watched(HandshakeResp(c, p))
  {
    hide Stop, Acknowledge, T.Sound, Shaken, Heartbeat;
    var c1 := c.(timers := Configured(c.timers, p));
    HeartbeatWatches(c1);
    HeartbeatWatches(Acknowledge(c1, p.sent));
    if !p.code200 {
      StopWatches(c1);
    }
  }

  lemma PackageWatches(c: Client, p: Pkg)
    requires T.Inv(c) && Watched(c)
    ensures Watched(OnPackage(c, p))
  {
    hide Stop, HandshakeResp, Heartbeat, T.Sound, Shaken;
    StopWatches(c);
    HeartbeatWatches(c);
    if p.Handshake? {
      HandshakeWatches(c, p);
    }
  }

  lemma {:induction false} PackagesWatch(c: Client, ps: seq<Pkg>)
    requires T.Inv(c) && Watched(c)
    ensures Watched(OnPackages(c, ps))
    decreases |ps|
  {
    hide OnPackage, Watched, T.Sound;
    if ps != [] && !c.crashed {
      T.PackageKeeps(c, ps[0]);
      PackageWatches(c, ps[0]);
      PackagesWatch(OnPackage(c, ps[0]), ps[1..]);
    }
  }

  lemma BeatTimerWatchesIff(c: Client, sent: bool)
    requires H.Good(c) && Watched(c) && c.timers.beat && !c.timers.timeout
    ensures Watched(OnBeatTimer(c, sent)) <==> !Neglected(c, EBeatTimer(sent))
  {
    H.BeatIsOpen(c);
    Idle(c);
    H.WorkingHasTransport(c);
    hide Stop, BinaryWrite, T.Sound, Shaken, H.Greeted;
    var c1 := c.(timers := c.timers.(beat := false));
    WriteStays(c1, BeatWrite, sent);
    WriteSent(c1, sent);
    var d := BinaryWrite(c1, BeatWrite, sent).client;
    T.OtherWriteSound(c.link, c.work.writes, BeatWrite);
    StoppedWatchesIff(c1);
    StoppedWatchesIff(d);
  }

  lemma WriteSent(c: Client, sent: bool)
    requires !c.crashed && T.Inv(c)
    ensures c.link.st == WORKING ==> var d := BinaryWrite(c, BeatWrite, sent); d.ok == sent && !d.client.crashed && d.client.link == c.link
    ensures BinaryWrite(c, BeatWrite, sent).client.work.writes == c.work.writes || BinaryWrite(c, BeatWrite, sent).client.work.writes == c.work.writes + multiset{BeatWrite}
  {
  }

  /** Without either timer, a connection is watched after the stop exactly when it is gone. */
  lemma StoppedWatchesIff(c: Client)
    requires T.Inv(c) && !c.crashed && !c.timers.beat && !c.timers.timeout && H.Handles(c.reconnectEnabled, c.link.st, c.timers)
    ensures Watched(Stop(c)) <==> !(Shaken(c.link) && c.timers.repeats && StopIgnored(c))
  {
    DropForgets(c.link, c.work.writes, INITED);
    DropForgets(c.link, c.work.writes, CLOSED);
    Idle(c);
    hide T.Sound, DropTransport, Shaken, Cleared;
  }

  lemma TimeoutWatchesIff(c: Client)
    requires H.Good(c) && Watched(c) && c.timers.timeout && !c.timers.beat
    ensures Watched(OnTimeout(c)) <==> !Neglected(c, ETimeoutTimer)
  {
    H.BeatIsOpen(c);
    hide Stop, T.Sound, Shaken, H.Greeted;
    StoppedWatchesIff(c.(log := c.log + [TimedOut], timers := c.timers.(timeout := false)));
  }

  lemma WrittenWatches(c: Client, w: Write, ok: bool)
    requires T.Inv(c) && Watched(c) && w in c.work.writes
    ensures Watched(OnWritten(c, w, ok))
  {
    hide WriteFailed, RunPendingConn, T.Sound, Shaken;
    var c1 := c.(work := c.work.(writes := c.work.writes - multiset{w}));
    T.FewerWritesSound(c.link, c.work.writes, w);
    WriteFailedWatches(c1);
    if w.AckWrite? && Working(c1, w.tp) && ok {
      T.AckedSound(c.link, c.work.writes, w.tp);
      AckedShaken(c.link, w.tp);
      PendingConnWatches(c1.(link := Acked(c1.link, w.tp)), true);
    }
  }

  lemma AckedShaken(l: Link, t: nat)
    requires IsWorking(l.tps, t)
    ensures Shaken(Acked(l, t)) ==> Shaken(l)
  {
  }

  ghost predicate Ready(c: Client, e: Event) {
    H.Good(c) && H.LeftOver(c) && Enabled(c, e) && Watched(c) && !(c.timers.beat && c.timers.timeout)
  }

  lemma ConnectStep(c: Client, e: Event)
    requires Ready(c, e) && (e.EConnect? || e.ETcpConnect? || e.ERead?)
    ensures Watched(Step(c, e)) <==> !Neglected(c, e)
  {
    hide T.Sound, H.Greeted, H.Handles, Stop, Connect, OnTcpConnect, OnPackages, OnBeatTimer, OnTimeout, OnHandshakeTimer, OnReconnectTimer, MakeRequest,
      SendRequest, OnWritten, Disconnect, Shaken;
    match e
    case EConnect(_, _) => ConnectWatches(c, e.cb, e.dialed);
    case ETcpConnect(_, _, _, _) => TcpConnectWatches(c, e.tp, e.ok, e.reading, e.sent);
    case ERead(_, _) => PackagesWatch(c, e.pkgs);
  }

  lemma FiringStep(c: Client, e: Event)
    requires Ready(c, e) && (e.EReadError? || e.EBeatTimer? || e.ETimeoutTimer?)
    ensures Watched(Step(c, e)) <==> !Neglected(c, e)
  {
    hide T.Sound, H.Greeted, H.Handles, Stop, Connect, OnTcpConnect, OnPackages, OnBeatTimer, OnTimeout, OnHandshakeTimer, OnReconnectTimer, MakeRequest,
      SendRequest, OnWritten, Disconnect, Shaken;
    match e
    case EReadError(_) => StopWatches(c.(reconnecting := false));
    case EBeatTimer(_) => BeatTimerWatchesIff(c, e.sent);
    case ETimeoutTimer => TimeoutWatchesIff(c);
  }

  lemma QuietStep(c: Client, e: Event)
    requires Ready(c, e) && (e.EHandshakeTimer? || e.EReconnectTimer? || e.ERequest?)
    ensures Watched(Step(c, e)) <==> !Neglected(c, e)
  {
    hide T.Sound, H.Greeted, H.Handles, Stop, Connect, OnTcpConnect, OnPackages, OnBeatTimer, OnTimeout, OnHandshakeTimer, OnReconnectTimer, MakeRequest,
      SendRequest, OnWritten, Disconnect, Shaken;
    match e
    case EHandshakeTimer => HandshakeTimerWatches(c);
    case EReconnectTimer(_, _) => ReconnectTimerWatches(c, e.resolved, e.dialed);
    case ERequest => RequestWatches(c);
  }

  lemma OtherStep(c: Client, e: Event)
    requires Ready(c, e) && (e.ESend? || e.EWritten? || e.EDisconnect? || e.EClose?)
    ensures Watched(Step(c, e)) <==> !Neglected(c, e)
  {
    hide T.Sound, H.Greeted, H.Handles, Stop, Connect, OnTcpConnect, OnPackages, OnBeatTimer, OnTimeout, OnHandshakeTimer, OnReconnectTimer, MakeRequest,
      SendRequest, OnWritten, Disconnect, Shaken;
    match e
    case ESend(_, _, _) => SendWatches(c, e.req, e.encoded, e.sent);
    case EWritten(_, _) => WrittenWatches(c, e.write, e.ok);
    case EDisconnect => DisconnectWatches(c);
    case EClose => StopWatches(c.(timers := c.timers.(closeRequested := false)));
  }

  lemma StepWatchesIff(c: Client, e: Event)
    requires Ready(c, e)
    ensures Watched(Step(c, e)) <==> !Neglected(c, e)
  {
    hide Ready, Step, Watched, Neglected;
    assert Enabled(c, e) by { ReadyIsEnabled(c, e); }
    if e.EConnect? || e.ETcpConnect? || e.ERead? {
      ConnectStep(c, e);
    } else if e.EReadError? || e.EBeatTimer? || e.ETimeoutTimer? {
      FiringStep(c, e);
    } else if e.EHandshakeTimer? || e.EReconnectTimer? || e.ERequest? {
      QuietStep(c, e);
    } else {
      OtherStep(c, e);
    }
  }

  lemma ReadyIsEnabled(c: Client, e: Event)
    requires Ready(c, e)
    ensures Enabled(c, e)
  {
  }

  lemma ConnectWatches(c: Client, cb: ConnCb, dialed: bool)
    requires T.Inv(c) && Watched(c)
    ensures Watched(Connect(c, cb, dialed).client)
  {
    Idle(c);
  }

  lemma HandshakeTimerWatches(c: Client)
    requires T.Inv(c) && Watched(c)
    ensures Watched(OnHandshakeTimer(c))
  {
    hide Stop, T.Sound, Shaken;
    StopWatches(c.(log := c.log + [GreetingTimedOut], timers := c.timers.(handshake := false)));
  }

  lemma ReconnectTimerWatches(c: Client, resolved: bool, dialed: bool)
    requires T.Inv(c) && Watched(c)
    ensures Watched(OnReconnectTimer(c, resolved, dialed))
  {
    hide Stop, T.Sound, Shaken, Connect;
    var c1 := c.(timers := c.timers.(reconnect := false));
    StopWatches(c1.(reconnecting := false));
    T.ConnectKeeps(c1, ReconnectedCb, dialed);
    ConnectWatches(c1, ReconnectedCb, dialed);
    StopWatches(Connect(c1, ReconnectedCb, dialed).client.(reconnecting := false));
  }

  lemma RequestWatches(c: Client)
    requires Watched(c)
    ensures Watched(MakeRequest(c))
  {
    hide Shaken;
  }

  lemma SendWatches(c: Client, r: Req, encoded: bool, sent: bool)
    requires Watched(c)
    ensures Watched(SendRequest(c, r, encoded, sent))
  {
    hide Shaken, WireId;
  }

  lemma DisconnectWatches(c: Client)
    requires Watched(c)
    ensures Watched(Disconnect(c))
  {
  }

  /**
    In every run: a connection whose handshake was acknowledged always has one of its heartbeat timers
    running, once heartbeats were asked for, if and only if no timer ever fired whose stop was ignored
    because the client was reconnecting.
   */
  lemma {:induction false} AlwaysWatchedIff(cs: seq<Client>, es: seq<Event>, n: nat)
    requires IsRun(cs, es) && n < |cs|
    ensures (forall i :: 0 <= i <= n ==> Watched(cs[i])) <==> (forall i :: 0 <= i < n ==> !Neglected(cs[i], es[i]))
  {
    hide Step, Enabled, Watched, Neglected, H.Good, H.LeftOver;
    if n == 0 {
      FirstIsWatched(cs[0]);
    } else {
      AlwaysWatchedIff(cs, es, n - 1);
      if forall i :: 0 <= i <= n - 1 ==> Watched(cs[i]) {
        var c, e := cs[n - 1], es[n - 1];
        assert Watched(c);
        Crashes.RunKeeps(cs, es, n - 1);
        Crashes.Alive(cs, es, n - 1);
        ClientBeats.NeverBothTimers(cs, es, n - 1);
        StepWatchesIff(c, e);
        assert cs[n] == Step(c, e);
        assert Watched(cs[n]) <==> !Neglected(c, e);
      } else {
        var k :| 0 <= k < n - 1 && Neglected(cs[k], es[k]);
        var j :| 0 <= j <= n - 1 && !Watched(cs[j]);
      }
    }
  }

  lemma FirstIsWatched(c: Client)
    requires exists b :: c == New(b)
    ensures Watched(c)
  {
  }

  /** In every run: the heartbeat timer of a working client sends a heartbeat on its connection, and the timeout starts to run. */
  lemma BeatIsSent(cs: seq<Client>, es: seq<Event>, n: nat)
    requires IsRun(cs, es) && n < |es| && es[n] == EBeatTimer(true) && cs[n].link.st == WORKING
    ensures var c, d := cs[n], cs[n + 1];
      && c.link.transport.Some? && d.log == c.log + [BeatSent(c.link.transport.value)] && BeatWrite in d.work.writes
      && !d.timers.beat && (c.timers.repeats ==> d.timers.timeout) && d.link == c.link && !d.crashed
  {
    T.TransportSafety(cs, es, n);
    H.WorkingHasTransport(cs[n]);
    hide T.Sound, Stop, OnPackages, OnWritten, OnTcpConnect, OnReconnectTimer;
  }

  // ---------- a run in which the heartbeat of a connection ends ----------

  /** The connection is lost, made again and greeted; the heartbeat timer fires before the ack is written. */
  function NeglectEvents(): seq<Event> {
    [EConnect(UserCb, true), ETcpConnect(0, true, true, true), EReadError(0), EReconnectTimer(true, true), ETcpConnect(1, true, true, true),
     ERead(1, [Handshake(true, Some(3), true, true)]), EBeatTimer(true), EWritten(AckWrite(1), true)]
  }

  function Again(l: Link, tm: Timers, writes: multiset<Write>, conn: Option<ConnCb>, log: seq<Obs>): Client {
    Client(true, l, tm, Work(map[], {}, writes, 0), conn, true, 1, log, false)
  }

  const OLD: Transport := Transport(TpClosed, false, false)

  function NeglectRun(): seq<Client> {
    var q := Runs.QUIET;
    [ New(true), Runs.Dialed(true, UserCb), Runs.Connected(true, UserCb), Runs.Lost(),
      Again(Link(CONNECTING, None, [OLD, Transport(TpConnecting, false, false)], map[1 := ReconnectedCb]), q.(handshake := true),
            multiset{HandshakeWrite(0)}, Some(ReconnectedCb), [Failure({})]),
      Again(Link(CONNECTED, Some(1), [OLD, Transport(TpWorking, false, false)], map[]), q.(handshake := true),
            multiset{HandshakeWrite(0), HandshakeWrite(1)}, Some(ReconnectedCb), [Failure({})]),
      Again(Link(CONNECTED, Some(1), [OLD, Transport(TpWorking, true, false)], map[]), q.(beat := true, repeats := true),
            multiset{HandshakeWrite(0), HandshakeWrite(1), AckWrite(1)}, Some(ReconnectedCb), [Failure({}), BeatHeard]),
      Again(Link(CONNECTED, Some(1), [OLD, Transport(TpWorking, true, false)], map[]), q.(repeats := true),
            multiset{HandshakeWrite(0), HandshakeWrite(1), AckWrite(1)}, Some(ReconnectedCb), [Failure({}), BeatHeard]),
      Again(Link(WORKING, Some(1), [OLD, Transport(TpWorking, true, true)], map[]), q.(repeats := true),
            multiset{HandshakeWrite(0), HandshakeWrite(1)}, None, [Failure({}), BeatHeard]).(reconnecting := false, reconnects := 0) ]
  }

  lemma NeglectGoes3()
    ensures Runs.Goes(NeglectRun()[3], NeglectEvents()[3], NeglectRun()[4])
  {
    hide OnPackages, OnWritten, OnBeatTimer, OnTcpConnect, Stop;
  }

  lemma NeglectGoes4()
    ensures Runs.Goes(NeglectRun()[4], NeglectEvents()[4], NeglectRun()[5])
  {
    hide OnPackages, OnWritten, OnBeatTimer, OnReconnectTimer, Stop;
  }

  lemma NeglectGoes5()
    ensures Runs.Goes(NeglectRun()[5], NeglectEvents()[5], NeglectRun()[6])
  {
    Runs.OnePackage(NeglectRun()[5], Handshake(true, Some(3), true, true));
    hide OnPackages, OnWritten, OnBeatTimer, OnReconnectTimer, Stop, OnTcpConnect;
  }

  lemma NeglectGoes6()
    ensures Runs.Goes(NeglectRun()[6], NeglectEvents()[6], NeglectRun()[7])
  {
    hide OnPackages, OnWritten, OnReconnectTimer, OnTcpConnect;
  }

  lemma NeglectGoes7()
    ensures Runs.Goes(NeglectRun()[7], NeglectEvents()[7], NeglectRun()[8])
  {
    hide OnPackages, OnBeatTimer, OnReconnectTimer, OnTcpConnect, Stop;
  }

  /** The client works, was asked for heartbeats, and will send none. */
  lemma HeartbeatEnds()
    ensures IsRun(NeglectRun(), NeglectEvents())
    ensures NeglectRun()[8].link.st == WORKING && NeglectRun()[8].timers.repeats && !Watched(NeglectRun()[8])
  {
    Runs.Dials(true, UserCb);
    Runs.Connects(true, UserCb);
    Runs.Loses();
    NeglectGoes3();
    NeglectGoes4();
    NeglectGoes5();
    NeglectGoes6();
    NeglectGoes7();
    hide Step, Enabled, Runs.Dialed, Runs.Connected, Runs.Lost;
    assert NeglectRun()[0] == New(true);
  }
}
