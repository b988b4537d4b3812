/** What every run of the client keeps about its heartbeats. */
module ClientBeats {
  import opened Bytes
  import opened Client

  predicate IsBeat(o: Obs) {
    o.BeatSent? || o.BeatHeard? || o.TimedOut?
  }

  /** The last heartbeat event of a log. */
  function LastBeat(log: seq<Obs>): (o: Option<Obs>)
    ensures o.Some? ==> IsBeat(o.value)
    decreases |log|
  {
    if log == [] then None
    else if IsBeat(log[|log| - 1]) then Some(log[|log| - 1])
    else LastBeat(log[..|log| - 1])
  }

  predicate Heard(o: Option<Obs>) { o == Some(BeatHeard) }
  predicate Unanswered(o: Option<Obs>) { o.Some? && o.value.BeatSent? }

  /** A heartbeat is only sent in answer to one that was heard, and a timeout only follows an unanswered one. */
  ghost predicate Paced(log: seq<Obs>) {
    forall i :: 0 <= i < |log| ==>
      && (log[i].BeatSent? ==> Heard(LastBeat(log[..i])))
      && (log[i].TimedOut? ==> Unanswered(LastBeat(log[..i])))
  }

  /** The heartbeat timer runs only after one was heard, the timeout timer only after one was sent. */
  ghost predicate Timed(tm: Timers, log: seq<Obs>) {
    && Paced(log)
    && (!tm.open ==> !tm.beat && !tm.timeout)
    && (tm.beat ==> Heard(LastBeat(log)))
    && (tm.timeout ==> Unanswered(LastBeat(log)))
  }

  ghost predicate Inv(c: Client) {
    Timed(c.timers, c.log)
  }

  lemma OneMore(log: seq<Obs>, o: Obs)
    requires Paced(log)
    requires o.BeatSent? ==> Heard(LastBeat(log))
    requires o.TimedOut? ==> Unanswered(LastBeat(log))
    ensures Paced(log + [o])
    ensures LastBeat(log + [o]) == if IsBeat(o) then Some(o) else LastBeat(log)
  {
    var more := log + [o];
    assert more[..|log|] == log;
    forall i | 0 <= i < |more|
      ensures more[i].BeatSent? ==> Heard(LastBeat(more[..i]))
      ensures more[i].TimedOut? ==> Unanswered(LastBeat(more[..i]))
    {
      if i < |log| {
        assert more[i] == log[i] && more[..i] == log[..i];
      }
    }
  }

  lemma StopKeeps(c: Client)
    requires Inv(c)
    ensures Inv(Stop(c))
  {
    hide Reconnect, Shutdown, Timed;
    ReconnectKeeps(c);
    ShutdownKeeps(c);
  }

  lemma ReconnectKeeps(c: Client)
    requires Inv(c)
    ensures Inv(Reconnect(c))
  {
    hide DropTransport, Paced, LastBeat;
    OneMore(c.log, Failure(c.work.requests.Values));
  }

  lemma ShutdownKeeps(c: Client)
    requires Inv(c)
    ensures Inv(Shutdown(c))
  {
    hide DropTransport, Paced, LastBeat;
  }

  lemma ConnCbKeeps(c: Client, cb: ConnCb, ok: bool)
    requires Inv(c)
    ensures Inv(RunConnCb(c, cb, ok))
  {
    hide Stop, Paced, LastBeat;
    StopKeeps(c);
    StopKeeps(c.(reconnecting := false, timers := c.timers.(reconnect := false)));
  }

  lemma PendingConnKeeps(c: Client, ok: bool)
    requires Inv(c)
    ensures Inv(RunPendingConn(c, ok))
  {
    hide RunConnCb, Timed;
    if c.conn.Some? {
      ConnCbKeeps(c.(conn := None), c.conn.value, ok);
    }
  }

  lemma FailedKeeps(c: Client, cb: ConnCb)
    requires Inv(c)
    ensures Inv(TcpConnectFailed(c, cb))
  {
    hide Stop, RunConnCb, Timed;
    StopKeeps(c.(conn := None));
    ConnCbKeeps(Stop(c.(conn := None)), cb, false);
  }

  lemma HandshakeReqKeeps(c: Client, t: nat, cb: ConnCb, sent: bool)
    requires Inv(c)
    ensures Inv(HandshakeReq(c, t, cb, sent))
  {
    hide TcpConnectFailed, Paced, LastBeat;
    FailedKeeps(c, cb);
  }

  lemma TcpConnectKeeps(c: Client, t: nat, ok: bool, reading: bool, sent: bool)
    requires Inv(c) && t in c.link.connects
    ensures Inv(OnTcpConnect(c, t, ok, reading, sent))
  {
    hide TcpConnectFailed, RunConnCb, Timed, HandshakeReq, SetTp, Started;
    var cb := c.link.connects[t];
    var l := c.link.(connects := c.link.connects - {t});
    if l.st != CONNECTING {
      ConnCbKeeps(c.(link := l, conn := None), cb, false);
    } else if !ok {
      FailedKeeps(c.(link := l.(tps := SetTp(l.tps, t, TpClosed))), cb);
    } else if !reading {
      FailedKeeps(c.(link := l.(transport := Some(t))), cb);
    } else {
      HandshakeReqKeeps(c.(link := Started(l, t)), t, cb, sent);
    }
  }

  /** Hearing a heartbeat stops the timeout and starts the wait for the next sending. */
  lemma HeartbeatKeeps(c: Client)
    requires Inv(c)
    ensures Inv(Heartbeat(c))
  {
    hide Paced, LastBeat;
    OneMore(c.log, BeatHeard);
  }

  lemma HandshakeKeeps(c: Client, p: Pkg)
    requires Inv(c) && p.Handshake?
    ensures Inv(HandshakeResp(c, p))
  {
    hide HandshakeRead, Timed;
    if c.timers.open {
      SameTimers(c.timers, Configured(c.timers, p), c.log);
      HandshakeReadKeeps(c.(timers := Configured(c.timers, p)), p);
    }
  }

  lemma HandshakeReadKeeps(c: Client, p: Pkg)
    requires Inv(c) && p.Handshake?
    ensures Inv(HandshakeRead(c, p))
  {
    hide Stop, Timed, Heartbeat, Acknowledge;
    StopKeeps(c);
    AcknowledgeIsQuiet(c, p.sent);
    HeartbeatKeeps(Acknowledge(c, p.sent));
    HeartbeatKeeps(c);
  }

  lemma SameTimers(tm: Timers, tm': Timers, log: seq<Obs>)
    requires Timed(tm, log) && tm.open == tm'.open && tm.beat == tm'.beat && tm.timeout == tm'.timeout
    ensures Timed(tm', log)
  {
  }

  lemma AcknowledgeIsQuiet(c: Client, sent: bool)
    ensures Acknowledge(c, sent).timers == c.timers && Acknowledge(c, sent).log == c.log
  {
    hide Marked;
  }

  lemma PackageKeeps(c: Client, p: Pkg)
    requires Inv(c)
    ensures Inv(OnPackage(c, p))
  {
    hide Stop, HandshakeResp, Heartbeat, Paced, LastBeat;
    StopKeeps(c);
    HeartbeatKeeps(c);
    if p.Handshake? {
      HandshakeKeeps(c, p);
    } else if p.Data? && p.id in c.work.requests {
      OneMore(c.log, Success(c.work.requests[p.id], Some(p.id)));
    }
  }

  lemma {:induction false} PackagesKeep(c: Client, ps: seq<Pkg>)
    requires Inv(c)
    ensures Inv(OnPackages(c, ps))
    decreases |ps|
  {
    hide OnPackage, Inv;
    if ps != [] {
      PackageKeeps(c, ps[0]);
      PackagesKeep(OnPackage(c, ps[0]), ps[1..]);
    }
  }

  /** A heartbeat is sent once per heartbeat heard, and starts the timeout. */
  lemma BeatTimerKeeps(c: Client, sent: bool)
    requires Inv(c) && c.timers.beat
    ensures Inv(OnBeatTimer(c, sent))
  {
    hide Stop, Paced, LastBeat, Beat;
    var c1 := c.(timers := c.timers.(beat := false));
    StopKeeps(c1);
    var d := BinaryWrite(c1, BeatWrite, sent).client;
    StopKeeps(d);
    if d.link.transport.Some? {
      BeatKeeps(d, d.link.transport.value);
    }
  }

  lemma BeatKeeps(c: Client, t: nat)
    requires Inv(c) && c.timers.open && !c.timers.beat && Heard(LastBeat(c.log))
    ensures Inv(Beat(c, t))
  {
    hide Paced, LastBeat;
    OneMore(c.log, BeatSent(t));
  }

  lemma TimeoutKeeps(c: Client)
    requires Inv(c) && c.timers.timeout
    ensures Inv(OnTimeout(c))
  {
    hide Stop, Paced, LastBeat;
    OneMore(c.log, TimedOut);
    StopKeeps(c.(log := c.log + [TimedOut], timers := c.timers.(timeout := false)));
  }

  lemma HandshakeTimerKeeps(c: Client)
    requires Inv(c)
    ensures Inv(OnHandshakeTimer(c))
  {
    hide Stop, Paced, LastBeat;
    OneMore(c.log, GreetingTimedOut);
    StopKeeps(c.(log := c.log + [GreetingTimedOut], timers := c.timers.(handshake := false)));
  }

  lemma ReconnectTimerKeeps(c: Client, resolved: bool, dialed: bool)
    requires Inv(c)
    ensures Inv(OnReconnectTimer(c, resolved, dialed))
  {
    hide Stop, Paced, LastBeat;
    var c1 := c.(timers := c.timers.(reconnect := false));
    StopKeeps(c1.(reconnecting := false));
    StopKeeps(Connect(c1, ReconnectedCb, dialed).client.(reconnecting := false));
  }

  lemma SendKeeps(c: Client, r: Req, encoded: bool, sent: bool)
    requires Inv(c)
    ensures Inv(SendRequest(c, r, encoded, sent))
  {
    hide Paced, LastBeat;
    OneMore(c.log, Success(r, None));
    OneMore(c.log, Failure({r}));
  }

  lemma WrittenKeeps(c: Client, w: Write, ok: bool)
    requires Inv(c)
    ensures Inv(OnWritten(c, w, ok))
  {
    hide Stop, RunPendingConn, Paced, LastBeat, Acked;
    var c1 := c.(work := c.work.(writes := c.work.writes - multiset{w}));
    StopKeeps(c1);
    PendingConnKeeps(Stop(c1), false);
    if w.RequestWrite? {
      OneMore(c.log, Failure({w.req}));
    } else if w.AckWrite? && Working(c1, w.tp) && ok {
      PendingConnKeeps(c1.(link := Acked(c1.link, w.tp)), true);
    }
  }

  lemma StepKeeps(c: Client, e: Event)
    requires Inv(c) && Enabled(c, e)
    ensures Inv(Step(c, e))
  {
    hide Timed, Stop, Connect, OnTcpConnect, OnPackages, OnBeatTimer, OnReconnectTimer, OnWritten, OnTimeout, OnHandshakeTimer, SendRequest, Disconnect;
    match e
    case EConnect(cb, dialed) => ConnectIsQuiet(c, cb, dialed);
    case ETcpConnect(t, ok, reading, sent) => TcpConnectKeeps(c, t, ok, reading, sent);
    case ERead(_, ps) => PackagesKeep(c, ps);
    case EReadError(_) => StopKeeps(c.(reconnecting := false));
    case EBeatTimer(sent) => BeatTimerKeeps(c, sent);
    case ETimeoutTimer => TimeoutKeeps(c);
    case EHandshakeTimer => HandshakeTimerKeeps(c);
    case EReconnectTimer(resolved, dialed) => ReconnectTimerKeeps(c, resolved, dialed);
    case ERequest =>
    case ESend(r, encoded, sent) => SendKeeps(c, r, encoded, sent);
    case EWritten(w, ok) => WrittenKeeps(c, w, ok);
    case EDisconnect => DisconnectKeeps(c);
    case EClose =>
      SameTimers(c.timers, c.timers.(closeRequested := false), c.log);
      StopKeeps(c.(timers := c.timers.(closeRequested := false)));
  }

  lemma DisconnectKeeps(c: Client)
    requires Inv(c)
    ensures Inv(Disconnect(c))
  {
    hide Paced, LastBeat;
  }

  lemma ConnectIsQuiet(c: Client, cb: ConnCb, dialed: bool)
    ensures Connect(c, cb, dialed).client.timers == c.timers && Connect(c, cb, dialed).client.log == c.log
  {
  }

  lemma {:induction false} RunKeeps(cs: seq<Client>, es: seq<Event>, n: nat)
    requires IsRun(cs, es) && n < |cs|
    ensures Inv(cs[n])
  {
    hide Step, Inv;
    if n == 0 {
      var b :| cs[0] == New(b);
      NewIsGood(b);
    } else {
      RunKeeps(cs, es, n - 1);
      StepKeeps(cs[n - 1], es[n - 1]);
    }
  }

  lemma NewIsGood(b: bool)
    ensures Inv(New(b))
  {
  }

  /** An unanswered sending is the last heartbeat event: nothing was heard since. */
  lemma {:induction false} LastBeatIs(log: seq<Obs>)
    ensures match LastBeat(log)
      case None => forall k :: 0 <= k < |log| ==> !IsBeat(log[k])
      case Some(o) => exists k :: 0 <= k < |log| && log[k] == o && forall m :: k < m < |log| ==> !IsBeat(log[m])
    decreases |log|
  {
    if log != [] {
      var n := |log| - 1;
      if IsBeat(log[n]) {
        assert log[n] == LastBeat(log).value;
      } else {
        LastBeatIs(log[..n]);
        if LastBeat(log).Some? {
          var k :| 0 <= k < n && log[..n][k] == LastBeat(log).value && forall m :: k < m < n ==> !IsBeat(log[..n][m]);
          assert log[k] == LastBeat(log).value;
          forall m | k < m < |log|
            ensures !IsBeat(log[m])
          {
            if m < n {
              assert log[..n][m] == log[m];
            }
          }
        } else {
          assert forall k :: 0 <= k < n ==> log[k] == log[..n][k];
        }
      }
    }
  }

  /** In every state of every run the two timers are not both active. */
  lemma NeverBothTimers(cs: seq<Client>, es: seq<Event>, n: nat)
    requires IsRun(cs, es) && n < |cs|
    ensures !(cs[n].timers.beat && cs[n].timers.timeout)
    ensures !cs[n].timers.open ==> !cs[n].timers.beat && !cs[n].timers.timeout
  {
    hide IsRun;
    RunKeeps(cs, es, n);
  }

  /** In every run two sendings of a heartbeat have a heartbeat, or an accepted handshake, between them. */
  lemma SendsAreSeparated(cs: seq<Client>, es: seq<Event>, n: nat, i: nat, j: nat)
    requires IsRun(cs, es) && n < |cs|
    requires i < j < |cs[n].log| && cs[n].log[i].BeatSent? && cs[n].log[j].BeatSent?
    ensures exists k :: i < k < j && cs[n].log[k].BeatHeard?
  {
    hide IsRun, LastBeat;
    RunKeeps(cs, es, n);
    var log := cs[n].log;
    LastBeatIs(log[..j]);
    var k :| 0 <= k < j && log[..j][k] == BeatHeard && forall m :: k < m < j ==> !IsBeat(log[..j][m]);
    assert log[k] == log[..j][k] && log[i] == log[..j][i];
  }

  /**
    In every run, when the timeout callback runs there was a sending since which nothing was heard,
    and since which it had not run before.
   */
  lemma TimeoutsAreDeserved(cs: seq<Client>, es: seq<Event>, n: nat, j: nat)
    requires IsRun(cs, es) && n < |cs|
    requires j < |cs[n].log| && cs[n].log[j].TimedOut?
    ensures exists i :: 0 <= i < j && cs[n].log[i].BeatSent? && forall k :: i < k < j ==> !IsBeat(cs[n].log[k])
  {
    hide IsRun, LastBeat;
    RunKeeps(cs, es, n);
    var log := cs[n].log;
    LastBeatIs(log[..j]);
    var i :| 0 <= i < j && log[..j][i].BeatSent? && forall m :: i < m < j ==> !IsBeat(log[..j][m]);
    assert log[i] == log[..j][i];
    forall k | i < k < j
      ensures !IsBeat(log[k])
    {
      assert log[k] == log[..j][k];
    }
  }
}
