/** What every run of the client keeps about its transports and its state. */
module ClientTransport {
  import opened Bytes
  import opened Client

  predicate Live(st: CState) { st == CONNECTED || st == WORKING }

  /**
    At most one transport is working and it is the client's own; a connected or working client has a
    working transport; a working one has processed a code-200 handshake on it and written the ack.
   */
  ghost predicate Sound(l: Link, writes: multiset<Write>) {
    && (l.transport.Some? ==> l.transport.value < |l.tps|)
    && (forall t: nat :: IsWorking(l.tps, t) ==> l.transport == Some(t) && (Live(l.st) || l.st == DISCONNECTING))
    && (Live(l.st) ==> l.transport.Some? && IsWorking(l.tps, l.transport.value))
    && (l.st == WORKING ==> l.tps[l.transport.value].handshaken && l.tps[l.transport.value].acked)
    && (forall t: nat :: AckWrite(t) in writes ==> t < |l.tps| && l.tps[t].handshaken)
    && (forall t: nat :: t in l.connects ==> t < |l.tps| && l.tps[t].st.TpConnecting? && l.transport != Some(t))
  }

  ghost predicate Inv(c: Client) {
    Sound(c.link, c.work.writes)
  }

  lemma DropSound(l: Link, writes: multiset<Write>, st: CState)
    requires Sound(l, writes) && !Live(st)
    ensures Sound(DropTransport(l, st), writes)
    ensures forall t: nat :: !IsWorking(DropTransport(l, st).tps, t)
  {
    var d := DropTransport(l, st);
    forall t: nat
      ensures !IsWorking(d.tps, t)
    {
      if IsWorking(d.tps, t) {
        assert IsWorking(l.tps, t);
      }
    }
  }

  /** Without a working transport the state may become any that is not live. */
  lemma IdleSound(l: Link, writes: multiset<Write>)
    requires Sound(l, writes) && l.st == INITED
    ensures Sound(l.(st := CLOSED), writes)
  {
  }

  lemma StopKeeps(c: Client)
    requires Inv(c)
    ensures Inv(Stop(c))
  {
    hide Sound, DropTransport, Cleared;
    DropSound(c.link, c.work.writes, INITED);
    DropSound(c.link, c.work.writes, CLOSED);
    if c.link.st == INITED {
      IdleSound(c.link, c.work.writes);
    }
  }

  lemma ConnCbKeeps(c: Client, cb: ConnCb, ok: bool)
    requires Inv(c)
    ensures Inv(RunConnCb(c, cb, ok))
  {
    hide Stop, Sound;
    StopKeeps(c);
    StopKeeps(c.(reconnecting := false, timers := c.timers.(reconnect := false)));
  }

  lemma PendingConnKeeps(c: Client, ok: bool)
    requires Inv(c)
    ensures Inv(RunPendingConn(c, ok))
  {
    hide RunConnCb, Sound;
    if c.conn.Some? {
      ConnCbKeeps(c.(conn := None), c.conn.value, ok);
    }
  }

  lemma ConnectKeeps(c: Client, cb: ConnCb, dialed: bool)
    requires Inv(c)
    ensures Inv(Connect(c, cb, dialed).client)
  {
    var l := Connect(c, cb, dialed).client.link;
    assert forall t: nat :: IsWorking(l.tps, t) ==> IsWorking(c.link.tps, t);
  }

  lemma FailedKeeps(c: Client, cb: ConnCb)
    requires Inv(c)
    ensures Inv(TcpConnectFailed(c, cb))
  {
    hide Stop, RunConnCb, Sound;
    StopKeeps(c.(conn := None));
    ConnCbKeeps(Stop(c.(conn := None)), cb, false);
  }

  lemma TcpConnectKeeps(c: Client, t: nat, ok: bool, reading: bool, sent: bool)
    requires Inv(c) && t in c.link.connects
    ensures Inv(OnTcpConnect(c, t, ok, reading, sent))
  {
    hide TcpConnectFailed, RunConnCb, Sound, HandshakeReq, SetTp, Started;
    var cb := c.link.connects[t];
    var l := c.link.(connects := c.link.connects - {t});
    AcceptSound(c.link, c.work.writes, t);
    if l.st != CONNECTING {
      ConnCbKeeps(c.(link := l, conn := None), cb, false);
    } else if !ok {
      FailedKeeps(c.(link := l.(tps := SetTp(l.tps, t, TpClosed))), cb);
    } else if !reading {
      FailedKeeps(c.(link := l.(transport := Some(t))), cb);
    } else {
      HandshakeReqKeeps(c.(link := Started(l, t)), t, cb, sent);
    }
  }

  /** The transport of a pending connect may be closed, adopted, or adopted and started. */
  lemma AcceptSound(l0: Link, writes: multiset<Write>, t: nat)
    requires Sound(l0, writes) && t in l0.connects
    ensures var l := l0.(connects := l0.connects - {t});
      && Sound(l, writes)
      && Sound(l.(tps := SetTp(l.tps, t, TpClosed)), writes)
      && (l.st == CONNECTING ==> Sound(l.(transport := Some(t)), writes))
      && (l.st == CONNECTING ==> Sound(Started(l, t), writes))
  {
    var closed, started := SetTp(l0.tps, t, TpClosed), SetTp(l0.tps, t, TpWorking);
    assert forall u: nat :: IsWorking(closed, u) ==> IsWorking(l0.tps, u);
    assert forall u: nat :: IsWorking(started, u) ==> u == t || IsWorking(l0.tps, u);
  }

  /** Writes other than acks are free. */
  lemma OtherWriteSound(l: Link, writes: multiset<Write>, w: Write)
    requires Sound(l, writes) && !w.AckWrite?
    ensures Sound(l, writes + multiset{w})
  {
  }

  lemma HandshakeReqKeeps(c: Client, t: nat, cb: ConnCb, sent: bool)
    requires Inv(c)
    ensures Inv(HandshakeReq(c, t, cb, sent))
  {
    hide TcpConnectFailed, Sound;
    OtherWriteSound(c.link, c.work.writes, HandshakeWrite(t));
    FailedKeeps(c, cb);
  }

  lemma PackageKeeps(c: Client, p: Pkg)
    requires Inv(c)
    ensures Inv(OnPackage(c, p))
  {
    hide Stop, Sound, HandshakeResp;
    StopKeeps(c);
    if p.Handshake? {
      HandshakeKeeps(c, p);
    }
  }

  lemma HandshakeKeeps(c: Client, p: Pkg)
    requires Inv(c) && p.Handshake?
    ensures Inv(HandshakeResp(c, p))
  {
    hide HandshakeRead, Sound;
    if c.timers.open {
      HandshakeReadKeeps(c.(timers := Configured(c.timers, p)), p);
    }
  }

  lemma HandshakeReadKeeps(c: Client, p: Pkg)
    requires Inv(c) && p.Handshake?
    ensures Inv(HandshakeRead(c, p))
  {
    hide Stop, Sound, Acknowledge;
    StopKeeps(c);
    AcknowledgeKeeps(c, p.sent);
  }

  /** Acknowledging a handshake marks the current transport. */
  lemma AcknowledgeKeeps(c: Client, sent: bool)
    requires Inv(c)
    ensures Inv(Acknowledge(c, sent))
  {
    if c.link.transport.Some? && Live(c.link.st) {
      var t := c.link.transport.value;
      var marked := Marked(c.link.tps, t);
      assert forall u: nat :: IsWorking(marked, u) <==> IsWorking(c.link.tps, u);
    }
  }

  lemma {:induction false} PackagesKeep(c: Client, ps: seq<Pkg>)
    requires Inv(c)
    ensures Inv(OnPackages(c, ps))
    decreases |ps|
  {
    hide OnPackage, Inv;
    if ps != [] {
      PackageKeeps(c, ps[0]);
      PackagesKeep(OnPackage(c, ps[0]), ps[1..]);
    }
  }

  lemma BeatTimerKeeps(c: Client, sent: bool)
    requires Inv(c)
    ensures Inv(OnBeatTimer(c, sent))
  {
    hide Stop, Sound;
    StopKeeps(c.(timers := c.timers.(beat := false)));
    OtherWriteSound(c.link, c.work.writes, BeatWrite);
  }

  lemma ReconnectTimerKeeps(c: Client, resolved: bool, dialed: bool)
    requires Inv(c)
    ensures Inv(OnReconnectTimer(c, resolved, dialed))
  {
    hide Stop, Connect, Sound;
    var c1 := c.(timers := c.timers.(reconnect := false));
    StopKeeps(c1.(reconnecting := false));
    ConnectKeeps(c1, ReconnectedCb, dialed);
    StopKeeps(Connect(c1, ReconnectedCb, dialed).client.(reconnecting := false));
  }

  lemma WrittenKeeps(c: Client, w: Write, ok: bool)
    requires Inv(c) && w in c.work.writes
    ensures Inv(OnWritten(c, w, ok))
  {
    hide Stop, RunPendingConn, Sound, Acked, WriteFailed;
    var c1 := c.(work := c.work.(writes := c.work.writes - multiset{w}));
    FewerWritesSound(c.link, c.work.writes, w);
    WriteFailedKeeps(c1);
    if w.AckWrite? && Working(c1, w.tp) && ok {
      AckedSound(c.link, c.work.writes, w.tp);
      PendingConnKeeps(c1.(link := Acked(c1.link, w.tp)), true);
    }
  }

  lemma WriteFailedKeeps(c: Client)
    requires Inv(c)
    ensures Inv(WriteFailed(c))
  {
    hide Stop, RunPendingConn, Sound;
    StopKeeps(c);
    PendingConnKeeps(Stop(c), false);
  }

  lemma FewerWritesSound(l: Link, writes: multiset<Write>, w: Write)
    requires Sound(l, writes)
    ensures Sound(l, writes - multiset{w})
  {
    assert forall t: nat :: AckWrite(t) in writes - multiset{w} ==> AckWrite(t) in writes;
  }

  lemma AckedSound(l: Link, writes: multiset<Write>, t: nat)
    requires Sound(l, writes) && IsWorking(l.tps, t) && AckWrite(t) in writes
    ensures Sound(Acked(l, t), writes - multiset{AckWrite(t)})
  {
    var l' := Acked(l, t);
    assert forall u: nat :: IsWorking(l'.tps, u) <==> IsWorking(l.tps, u);
    FewerWritesSound(l, writes, AckWrite(t));
  }

  lemma DisconnectSound(l: Link, writes: multiset<Write>)
    requires Sound(l, writes)
    ensures Sound(l.(st := DISCONNECTING), writes)
  {
  }

  lemma StepKeeps(c: Client, e: Event)
    requires Inv(c) && Enabled(c, e)
    ensures Inv(Step(c, e))
  {
    hide Sound, Stop, Connect, OnTcpConnect, OnPackages, OnBeatTimer, OnReconnectTimer, OnWritten;
    match e
    case EConnect(cb, dialed) => ConnectKeeps(c, cb, dialed);
    case ETcpConnect(t, ok, reading, sent) => TcpConnectKeeps(c, t, ok, reading, sent);
    case ERead(_, ps) => PackagesKeep(c, ps);
    case EReadError(_) => StopKeeps(c.(reconnecting := false));
    case EBeatTimer(sent) => BeatTimerKeeps(c, sent);
    case ETimeoutTimer => StopKeeps(c.(log := c.log + [TimedOut], timers := c.timers.(timeout := false)));
    case EHandshakeTimer => StopKeeps(c.(log := c.log + [GreetingTimedOut], timers := c.timers.(handshake := false)));
    case EReconnectTimer(resolved, dialed) => ReconnectTimerKeeps(c, resolved, dialed);
    case ERequest =>
    case ESend(r, encoded, sent) => OtherWriteSound(c.link, c.work.writes, RequestWrite(r));
    case EWritten(w, ok) => WrittenKeeps(c, w, ok);
    case EDisconnect => DisconnectSound(c.link, c.work.writes);
    case EClose => StopKeeps(c.(timers := c.timers.(closeRequested := false)));
  }

  /** In every run, in every state. */
  lemma {:induction false} TransportSafety(cs: seq<Client>, es: seq<Event>, n: nat)
    requires IsRun(cs, es) && n < |cs|
    ensures Inv(cs[n])
  {
    hide Step, Inv;
    if n == 0 {
      var b :| cs[0] == New(b);
      NewIsGood(b);
    } else {
      TransportSafety(cs, es, n - 1);
      StepKeeps(cs[n - 1], es[n - 1]);
    }
  }

  lemma NewIsGood(b: bool)
    ensures Inv(New(b))
  {
    assert forall t: nat :: !IsWorking([], t);
  }
}
