/** Where the responses come from that requests succeed by, in every run of the client. */
module ClientAnswers {
  import opened Bytes
  import opened Client

  /** The successes by a response in a log. */
  function Answers(log: seq<Obs>): set<Obs> {
    set o | o in log && o.Success? && o.response.Some?
  }

  predicate IsAnswer(o: Obs) { o.Success? && o.response.Some? }

  lemma OneMore(log: seq<Obs>, o: Obs)
    ensures Answers(log + [o]) == Answers(log) + if IsAnswer(o) then {o} else {}
  {
    assert forall p :: p in log + [o] <==> p in log || p == o;
  }

  /** No answer was added, and no request filed. */
  ghost predicate Silent(c: Client, d: Client) {
    Answers(d.log) == Answers(c.log) && Fewer(c.work.requests, d.work.requests)
  }

  ghost predicate Fewer(m: map<nat, Req>, m': map<nat, Req>) {
    forall id :: id in m' ==> id in m && m'[id] == m[id]
  }

  lemma StopIsSilent(c: Client)
    ensures Silent(c, Stop(c))
  {
    hide DropTransport, Answers;
    OneMore(c.log, Failure(c.work.requests.Values));
  }

  lemma ConnCbIsSilent(c: Client, cb: ConnCb, ok: bool)
    ensures Silent(c, RunConnCb(c, cb, ok))
  {
    hide Stop, Answers;
    StopIsSilent(c);
    StopIsSilent(c.(reconnecting := false, timers := c.timers.(reconnect := false)));
  }

  lemma PendingConnIsSilent(c: Client, ok: bool)
    ensures Silent(c, RunPendingConn(c, ok))
  {
    hide RunConnCb, Answers;
    if c.conn.Some? {
      ConnCbIsSilent(c.(conn := None), c.conn.value, ok);
    }
  }

  lemma FailedIsSilent(c: Client, cb: ConnCb)
    ensures Silent(c, TcpConnectFailed(c, cb))
  {
    hide Stop, RunConnCb, Answers;
    StopIsSilent(c.(conn := None));
    ConnCbIsSilent(Stop(c.(conn := None)), cb, false);
  }

  lemma WriteFailedIsSilent(c: Client)
    ensures Silent(c, WriteFailed(c))
  {
    hide Stop, RunPendingConn, Answers;
    StopIsSilent(c);
    PendingConnIsSilent(Stop(c), false);
  }

  lemma HandshakeReqIsSilent(c: Client, t: nat, cb: ConnCb, sent: bool)
    ensures Silent(c, HandshakeReq(c, t, cb, sent))
  {
    hide TcpConnectFailed, Answers;
    FailedIsSilent(c, cb);
  }

  lemma TcpConnectIsSilent(c: Client, t: nat, ok: bool, reading: bool, sent: bool)
    requires t in c.link.connects
    ensures Silent(c, OnTcpConnect(c, t, ok, reading, sent))
  {
    hide TcpConnectFailed, RunConnCb, HandshakeReq, SetTp, Started, Answers;
    var cb := c.link.connects[t];
    var l := c.link.(connects := c.link.connects - {t});
    ConnCbIsSilent(c.(link := l, conn := None), cb, false);
    FailedIsSilent(c.(link := l.(tps := SetTp(l.tps, t, TpClosed))), cb);
    FailedIsSilent(c.(link := l.(transport := Some(t))), cb);
    HandshakeReqIsSilent(c.(link := Started(l, t)), t, cb, sent);
  }

  lemma HeartbeatIsSilent(c: Client)
    ensures Silent(c, Heartbeat(c))
  {
    hide Answers;
    OneMore(c.log, BeatHeard);
  }

  lemma HandshakeIsSilent(c: Client, p: Pkg)
    requires p.Handshake?
    ensures Silent(c, HandshakeResp(c, p))
  {
    hide Stop, Answers, Heartbeat, Acknowledge;
    var c1 := c.(timers := Configured(c.timers, p));
    StopIsSilent(c1);
    AcknowledgeIsSilent(c1, p.sent);
    HeartbeatIsSilent(c1);
    HeartbeatIsSilent(Acknowledge(c1, p.sent));
  }

  lemma AcknowledgeIsSilent(c: Client, sent: bool)
    ensures Acknowledge(c, sent).log == c.log && Acknowledge(c, sent).work.requests == c.work.requests
  {
    hide Marked;
  }

  /** `o` is the success of an outstanding request by this package. */
  predicate AnsweredBy(m: map<nat, Req>, p: Pkg, o: Obs) {
    p.Data? && p.readable && p.id in m && o == Success(m[p.id], Some(p.id))
  }

  lemma PackageAnswers(c: Client, p: Pkg, o: Obs)
    ensures var d := OnPackage(c, p);
      Fewer(c.work.requests, d.work.requests) && (o in Answers(d.log) ==> o in Answers(c.log) || AnsweredBy(c.work.requests, p, o))
  {
    hide Stop, HandshakeResp, Heartbeat, Answers;
    StopIsSilent(c);
    HeartbeatIsSilent(c);
    if p.Handshake? {
      HandshakeIsSilent(c, p);
    } else if p.Data? && p.id in c.work.requests {
      OneMore(c.log, Success(c.work.requests[p.id], Some(p.id)));
    }
  }

  /** An answer that a chunk adds is by one of its packages, to a request outstanding when it came. */
  lemma {:induction false} PackagesAnswer(c: Client, ps: seq<Pkg>, o: Obs)
    requires o in Answers(OnPackages(c, ps).log) && o !in Answers(c.log)
    ensures exists k :: 0 <= k < |ps| && AnsweredBy(c.work.requests, ps[k], o)
    decreases |ps|
  {
    hide OnPackage, Answers;
    if ps != [] && !c.crashed {
      var c1 := OnPackage(c, ps[0]);
      PackageAnswers(c, ps[0], o);
      if o in Answers(c1.log) {
        assert AnsweredBy(c.work.requests, ps[0], o);
      } else {
        PackagesAnswer(c1, ps[1..], o);
        var k :| 0 <= k < |ps[1..]| && AnsweredBy(c1.work.requests, ps[1..][k], o);
        assert AnsweredBy(c.work.requests, ps[k + 1], o);
      }
    }
  }

  lemma BeatTimerIsSilent(c: Client, sent: bool)
    ensures Answers(OnBeatTimer(c, sent).log) == Answers(c.log)
  {
    hide Stop, Answers, BinaryWrite;
    var c1 := c.(timers := c.timers.(beat := false));
    StopIsSilent(c1);
    WriteIsSilent(c1, BeatWrite, sent);
    var d := BinaryWrite(c1, BeatWrite, sent).client;
    StopIsSilent(d);
    if d.link.transport.Some? {
      OneMore(c.log, BeatSent(d.link.transport.value));
    }
  }

  lemma WriteIsSilent(c: Client, w: Write, sent: bool)
    ensures BinaryWrite(c, w, sent).client.log == c.log
  {
  }

  lemma ReconnectTimerIsSilent(c: Client, resolved: bool, dialed: bool)
    ensures Answers(OnReconnectTimer(c, resolved, dialed).log) == Answers(c.log)
  {
    hide Stop, Answers;
    var c1 := c.(timers := c.timers.(reconnect := false));
    StopIsSilent(c1.(reconnecting := false));
    StopIsSilent(Connect(c1, ReconnectedCb, dialed).client.(reconnecting := false));
  }

  lemma SendIsSilent(c: Client, r: Req, encoded: bool, sent: bool)
    ensures Answers(SendRequest(c, r, encoded, sent).log) == Answers(c.log)
  {
    hide Answers, WireId;
    OneMore(c.log, Success(r, None));
    OneMore(c.log, Failure({r}));
  }

  lemma WrittenIsSilent(c: Client, w: Write, ok: bool)
    ensures Answers(OnWritten(c, w, ok).log) == Answers(c.log)
  {
    hide WriteFailed, RunPendingConn, Acked, Answers, WireId;
    var c1 := c.(work := c.work.(writes := c.work.writes - multiset{w}));
    WriteFailedIsSilent(c1);
    if w.RequestWrite? {
      OneMore(c.log, Failure({w.req}));
    } else if w.AckWrite? && Working(c1, w.tp) {
      PendingConnIsSilent(c1.(link := Acked(c1.link, w.tp)), true);
    }
  }

  lemma StepAnswers(c: Client, e: Event, o: Obs)
    requires Enabled(c, e) && o in Answers(Step(c, e).log) && o !in Answers(c.log)
    ensures e.ERead? && exists k :: 0 <= k < |e.pkgs| && AnsweredBy(c.work.requests, e.pkgs[k], o)
  {
    hide Answers, Stop, Connect, OnTcpConnect, OnPackages, OnBeatTimer, OnReconnectTimer, OnWritten, SendRequest;
    match e
    case EConnect(cb, dialed) => ConnectIsSilent(c, cb, dialed);
    case ETcpConnect(t, ok, reading, sent) => TcpConnectIsSilent(c, t, ok, reading, sent);
    case ERead(_, ps) => PackagesAnswer(c, ps, o);
    case EReadError(_) => StopIsSilent(c.(reconnecting := false));
    case EBeatTimer(sent) => BeatTimerIsSilent(c, sent);
    case ETimeoutTimer =>
      OneMore(c.log, TimedOut);
      StopIsSilent(c.(log := c.log + [TimedOut], timers := c.timers.(timeout := false)));
    case EHandshakeTimer =>
      OneMore(c.log, GreetingTimedOut);
      StopIsSilent(c.(log := c.log + [GreetingTimedOut], timers := c.timers.(handshake := false)));
    case EReconnectTimer(resolved, dialed) => ReconnectTimerIsSilent(c, resolved, dialed);
    case ERequest =>
    case ESend(r, encoded, sent) => SendIsSilent(c, r, encoded, sent);
    case EWritten(w, ok) => WrittenIsSilent(c, w, ok);
    case EDisconnect =>
    case EClose => StopIsSilent(c.(timers := c.timers.(closeRequested := false)));
  }

  lemma ConnectIsSilent(c: Client, cb: ConnCb, dialed: bool)
    ensures Connect(c, cb, dialed).client.log == c.log
  {
  }

  /**
    In every run, a success by a response came at a step that read a message with the response's id,
    and the request was outstanding under that id when the step began. So a response whose id is not
    outstanding serves nobody.
   */
  lemma {:induction false} AnswersAreRead(cs: seq<Client>, es: seq<Event>, n: nat, o: Obs)
    requires IsRun(cs, es) && n < |cs| && o in cs[n].log && IsAnswer(o)
    ensures exists m, k ::
      && 0 <= m < n && es[m].ERead? && o !in cs[m].log && o in cs[m + 1].log
      && 0 <= k < |es[m].pkgs| && AnsweredBy(cs[m].work.requests, es[m].pkgs[k], o)
  {
    hide Step, Enabled, AnsweredBy, Answers;
    if n == 0 {
      assert false;
    } else if o in cs[n - 1].log {
      AnswersAreRead(cs, es, n - 1, o);
    } else {
      AnswersHold(cs[n].log, cs[n - 1].log, o);
      assert cs[n] == Step(cs[n - 1], es[n - 1]);
      StepAnswers(cs[n - 1], es[n - 1], o);
      var k :| 0 <= k < |es[n - 1].pkgs| && AnsweredBy(cs[n - 1].work.requests, es[n - 1].pkgs[k], o);
      var m := n - 1;
      assert o in cs[m + 1].log;
    }
  }

  lemma AnswersHold(log: seq<Obs>, before: seq<Obs>, o: Obs)
    requires IsAnswer(o) && o in log && o !in before
    ensures o in Answers(log) && o !in Answers(before)
  {
  }
}
