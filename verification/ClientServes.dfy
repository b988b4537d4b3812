/**
  What a request can count on, in every run of the client: it is handed over when the client works, it is
  never lost without a callback, and a response that is read runs the callback of its request.
 */
module ClientServes {
  import opened Bytes
  import opened Client
  import T = ClientTransport
  import H = ClientHandles
  import K = ClientChunks
  import Crashes = ClientCrashes
  import opened ClientRequests

  /** The requests still to be called back. */
  function Pending(w: Work): set<nat> {
    Uids(w.queued) + Uids(w.requests.Values)
  }

  /** Those whose callback ran, with either status. */
  function Called(log: seq<Obs>): set<nat> {
    Served(log) + Failed(log)
  }

  /** From `c` to `d` no callback is undone, and nobody is forgotten. */
  ghost predicate Conserves(c: Client, d: Client) {
    Called(c.log) <= Called(d.log) && Pending(c.work) <= Pending(d.work) + Called(d.log)
  }

  lemma Logged(log: seq<Obs>, o: Obs)
    ensures Called(log + [o]) == Called(log) + if o.Success? then {o.req.uid} else if o.Failure? then Uids(o.reqs) else {}
  {
    hide Served, Failed, Unanswered;
    Append(log, [o]);
    Single(o);
  }

  lemma StopConserves(c: Client)
    ensures Conserves(c, Stop(c))
  {
    hide Called, DropTransport;
    Logged(c.log, Failure(c.work.requests.Values));
  }

  lemma ConnCbConserves(c: Client, cb: ConnCb, ok: bool)
    ensures Conserves(c, RunConnCb(c, cb, ok))
  {
    hide Stop, Called, Pending;
    StopConserves(c);
    StopConserves(c.(reconnecting := false, timers := c.timers.(reconnect := false)));
  }

  lemma PendingConnConserves(c: Client, ok: bool)
    ensures Conserves(c, RunPendingConn(c, ok))
  {
    hide RunConnCb, Called, Pending;
    if c.conn.Some? {
      ConnCbConserves(c.(conn := None), c.conn.value, ok);
    }
  }

  lemma FailedConserves(c: Client, cb: ConnCb)
    ensures Conserves(c, TcpConnectFailed(c, cb))
  {
    hide Stop, RunConnCb, Called, Pending;
    StopConserves(c.(conn := None));
    ConnCbConserves(Stop(c.(conn := None)), cb, false);
  }

  lemma WriteFailedConserves(c: Client)
    ensures Conserves(c, WriteFailed(c))
  {
    hide Stop, RunPendingConn, Called, Pending;
    StopConserves(c);
    PendingConnConserves(Stop(c), false);
  }

  lemma WriteStays(c: Client, w: Write, sent: bool)
    ensures var d := BinaryWrite(c, w, sent).client; d.log == c.log && Pending(d.work) == Pending(c.work)
  {
  }

  lemma HandshakeReqConserves(c: Client, t: nat, cb: ConnCb, sent: bool)
    ensures Conserves(c, HandshakeReq(c, t, cb, sent))
  {
    hide TcpConnectFailed, Called, Pending, BinaryWrite;
    WriteStays(c, HandshakeWrite(t), sent);
    FailedConserves(BinaryWrite(c, HandshakeWrite(t), sent).client, cb);
  }

  lemma TcpConnectConserves(c: Client, t: nat, ok: bool, reading: bool, sent: bool)
    requires t in c.link.connects
    ensures Conserves(c, OnTcpConnect(c, t, ok, reading, sent))
  {
    hide TcpConnectFailed, RunConnCb, HandshakeReq, SetTp, Started, Called, Pending;
    var cb := c.link.connects[t];
    var l := c.link.(connects := c.link.connects - {t});
    ConnCbConserves(c.(link := l, conn := None), cb, false);
    FailedConserves(c.(link := l.(tps := SetTp(l.tps, t, TpClosed))), cb);
    FailedConserves(c.(link := l.(transport := Some(t))), cb);
    HandshakeReqConserves(c.(link := Started(l, t)), t, cb, sent);
  }

  lemma HeartbeatConserves(c: Client)
    ensures Conserves(c, Heartbeat(c))
  {
    hide Called, Pending;
    Logged(c.log, BeatHeard);
  }

  lemma AcknowledgeStays(c: Client, sent: bool)
    ensures var d := Acknowledge(c, sent); d.log == c.log && Pending(d.work) == Pending(c.work)
  {
    hide Marked, Pending, BinaryWrite;
    if c.link.transport.Some? {
      WriteStays(c, AckWrite(c.link.transport.value), sent);
    }
  }

  lemma HandshakeConserves(c: Client, p: Pkg)
    requires p.Handshake?
    ensures Conserves(c, HandshakeResp(c, p))
  {
    hide Stop, Called, Pending, Heartbeat, Acknowledge;
    var c1 := c.(timers := Configured(c.timers, p));
    StopConserves(c1);
    AcknowledgeStays(c1, p.sent);
    HeartbeatConserves(c1);
    HeartbeatConserves(Acknowledge(c1, p.sent));
  }

  lemma RemovedIsPending(w: Work, id: nat)
    requires id in w.requests
    ensures Pending(w) <= Pending(w.(requests := w.requests - {id})) + {w.requests[id].uid}
  {
    var w' := w.(requests := w.requests - {id});
    forall r | r in w.requests.Values
      ensures r.uid in Pending(w') + {w.requests[id].uid}
    {
      var i :| i in w.requests && w.requests[i] == r;
      if i != id {
        assert i in w'.requests && w'.requests[i] == r;
        assert r in w'.requests.Values;
      }
    }
  }

  lemma DataConserves(c: Client, id: nat, isResponse: bool, readable: bool)
    ensures Conserves(c, OnData(c, id, isResponse, readable))
  {
    hide Stop, Called, Pending;
    StopConserves(c);
    if id in c.work.requests {
      Logged(c.log, Success(c.work.requests[id], Some(id)));
      RemovedIsPending(c.work, id);
    }
  }

  lemma PackageConserves(c: Client, p: Pkg)
    ensures Conserves(c, OnPackage(c, p))
  {
    hide Stop, HandshakeResp, Heartbeat, OnData, Called, Pending;
    match p
    case Handshake(_, _, _, _) => HandshakeConserves(c, p);
    case HeartbeatPkg => HeartbeatConserves(c);
    case Data(id, isResponse, readable) => DataConserves(c, id, isResponse, readable);
    case Kick =>
    case Unknown => StopConserves(c);
  }

  lemma {:induction false} PackagesConserve(c: Client, ps: seq<Pkg>)
    ensures Conserves(c, OnPackages(c, ps))
    decreases |ps|
  {
    hide OnPackage, Called, Pending;
    if ps != [] && !c.crashed {
      PackageConserves(c, ps[0]);
      PackagesConserve(OnPackage(c, ps[0]), ps[1..]);
    }
  }

  lemma BeatTimerConserves(c: Client, sent: bool)
    ensures Conserves(c, OnBeatTimer(c, sent))
  {
    hide Stop, Called, Pending, BinaryWrite;
    var c1 := c.(timers := c.timers.(beat := false));
    StopConserves(c1);
    WriteStays(c1, BeatWrite, sent);
    var d := BinaryWrite(c1, BeatWrite, sent).client;
    StopConserves(d);
    if d.link.transport.Some? {
      Logged(d.log, BeatSent(d.link.transport.value));
    }
  }

  lemma ReconnectTimerConserves(c: Client, resolved: bool, dialed: bool)
    ensures Conserves(c, OnReconnectTimer(c, resolved, dialed))
  {
    hide Stop, Called, Pending;
    var c1 := c.(timers := c.timers.(reconnect := false));
    StopConserves(c1.(reconnecting := false));
    StopConserves(Connect(c1, ReconnectedCb, dialed).client.(reconnecting := false));
  }

  lemma TimeoutConserves(c: Client)
    ensures Conserves(c, OnTimeout(c)) && Conserves(c, OnHandshakeTimer(c))
  {
    hide Stop, Called, Pending;
    Logged(c.log, TimedOut);
    Logged(c.log, GreetingTimedOut);
    StopConserves(c.(log := c.log + [TimedOut], timers := c.timers.(timeout := false)));
    StopConserves(c.(log := c.log + [GreetingTimedOut], timers := c.timers.(handshake := false)));
  }

  /** What leaves the queue is filed or called back. */
  lemma DequeuedIsPending(w: Work, r: Req)
    ensures Pending(w) <= Pending(w.(queued := w.queued - {r})) + {r.uid}
    ensures WireId(r) !in w.requests ==>
      Pending(w) <= Pending(w.(queued := w.queued - {r}, requests := w.requests[WireId(r) := r], writes := w.writes + multiset{RequestWrite(r)}))
  {
    var w' := w.(queued := w.queued - {r}, requests := w.requests[WireId(r) := r], writes := w.writes + multiset{RequestWrite(r)});
    forall q | q in w.queued
      ensures q.uid in Pending(w.(queued := w.queued - {r})) + {r.uid} && q.uid in Pending(w')
    {
      if q != r {
        assert q in w.queued - {r};
      } else {
        assert w'.requests[WireId(r)] == r;
        assert r in w'.requests.Values;
      }
    }
    if WireId(r) !in w.requests {
      forall q | q in w.requests.Values
        ensures q in w'.requests.Values
      {
        var i :| i in w.requests && w.requests[i] == q;
        assert w'.requests[i] == q;
      }
    }
  }

  lemma SendConserves(c: Client, r: Req, encoded: bool, sent: bool)
    requires WireId(r) !in c.work.requests
    ensures Conserves(c, SendRequest(c, r, encoded, sent))
  {
    hide Called, Pending, WireId;
    DequeuedIsPending(c.work, r);
    Logged(c.log, Success(r, None));
    Logged(c.log, Failure({r}));
    assert Uids({r}) == {r.uid};
  }

  lemma RequestWrittenConserves(c: Client, r: Req, ok: bool)
    requires Inv(c) && RequestWrite(r) in c.work.writes && c.work.nextUid < TWO32
    ensures Conserves(c, OnWritten(c, RequestWrite(r), ok))
  {
    hide Called, Inv, Pending, Uids;
    WrittenMeans(c, r);
    Logged(c.log, Failure({r}));
    assert Uids({r}) == {r.uid} by { OneUid(r); }
    SamePending(c.work, c.work.writes - multiset{RequestWrite(r)});
    if WireId(r) in c.work.requests {
      RemovedIsPending(c.work, WireId(r));
      SamePending(c.work.(requests := c.work.requests - {WireId(r)}), c.work.writes - multiset{RequestWrite(r)});
    } else {
      assert c.work.requests - {WireId(r)} == c.work.requests;
    }
  }

  lemma OneUid(r: Req)
    ensures Uids({r}) == {r.uid}
  {
  }

  lemma SamePending(w: Work, writes: multiset<Write>)
    ensures Pending(w.(writes := writes)) == Pending(w)
  {
  }

  lemma WrittenMeans(c: Client, r: Req)
    requires Inv(c) && RequestWrite(r) in c.work.writes && c.work.nextUid < TWO32
    ensures WireId(r) == r.uid + 1 && (WireId(r) in c.work.requests ==> c.work.requests[WireId(r)] == r)
  {
    hide T.Sound, Filed, Waiting, Settled, Fair, Linked;
  }

  lemma WrittenConserves(c: Client, w: Write, ok: bool)
    requires Inv(c) && w in c.work.writes && c.work.nextUid < TWO32
    ensures Conserves(c, OnWritten(c, w, ok))
  {
    if w.RequestWrite? {
      RequestWrittenConserves(c, w.req, ok);
    } else {
      hide WriteFailed, RunPendingConn, Called, Inv, Acked;
      var c1 := c.(work := c.work.(writes := c.work.writes - multiset{w}));
      WriteFailedConserves(c1);
      if w.AckWrite? && Working(c1, w.tp) {
        PendingConnConserves(c1.(link := Acked(c1.link, w.tp)), true);
      }
    }
  }

  lemma RequestConserves(c: Client)
    ensures Conserves(c, MakeRequest(c))
  {
    hide Called;
  }

  lemma SendIsNew(c: Client, r: Req)
    requires Inv(c) && r in c.work.queued && c.work.nextUid < TWO32
    ensures WireId(r) !in c.work.requests
  {
    hide T.Sound, Filed, Writing, Settled, Fair, Linked;
  }

  lemma StepConserves(c: Client, e: Event)
    requires Inv(c) && Enabled(c, e) && c.work.nextUid < TWO32
    ensures Conserves(c, Step(c, e))
  {
    hide Inv, Stop, Connect, OnTcpConnect, OnPackages, OnBeatTimer, OnReconnectTimer, OnWritten, OnTimeout, OnHandshakeTimer, SendRequest, MakeRequest,
      Disconnect, Called, Pending;
    match e
    case EConnect(cb, dialed) => ConnectStays(c, cb, dialed);
    case ETcpConnect(t, ok, reading, sent) => TcpConnectConserves(c, t, ok, reading, sent);
    case ERead(_, ps) => PackagesConserve(c, ps);
    case EReadError(_) => StopConserves(c.(reconnecting := false));
    case EBeatTimer(sent) => BeatTimerConserves(c, sent);
    case ETimeoutTimer => TimeoutConserves(c);
    case EHandshakeTimer => TimeoutConserves(c);
    case EReconnectTimer(resolved, dialed) => ReconnectTimerConserves(c, resolved, dialed);
    case ERequest => RequestConserves(c);
    case ESend(r, encoded, sent) => SendIsNew(c, r); SendConserves(c, r, encoded, sent);
    case EWritten(w, ok) => WrittenConserves(c, w, ok);
    case EDisconnect => DisconnectStays(c);
    case EClose => StopConserves(c.(timers := c.timers.(closeRequested := false)));
  }

  lemma ConnectStays(c: Client, cb: ConnCb, dialed: bool)
    ensures var d := Connect(c, cb, dialed).client; d.log == c.log && d.work == c.work
  {
  }

  lemma DisconnectStays(c: Client)
    ensures Disconnect(c).log == c.log && Disconnect(c).work == c.work
  {
  }

  // ---------- whole runs ----------

  lemma {:induction false} FewerMade(es: seq<Event>, m: nat, n: nat)
    requires m <= n <= |es|
    ensures RequestsMade(es, m) <= RequestsMade(es, n)
    decreases n - m
  {
    if m < n {
      FewerMade(es, m + 1, n);
    }
  }

  /**
    In every run with fewer than 2^32 requests: a request that waits to be sent or answered is, in every
    later state, still waiting, or its callback has run.
   */
  lemma {:induction false} NobodyIsForgotten(cs: seq<Client>, es: seq<Event>, m: nat, n: nat)
    requires IsRun(cs, es) && m <= n < |cs| && RequestsMade(es, n) < TWO32
    ensures Pending(cs[m].work) <= Pending(cs[n].work) + Called(cs[n].log) && Called(cs[m].log) <= Called(cs[n].log)
    decreases n
  {
    hide Step, Inv, Pending, Called;
    if m < n {
      FewerMade(es, n - 1, n);
      NobodyIsForgotten(cs, es, m, n - 1);
      RunKeeps(cs, es, n - 1);
      StepConserves(cs[n - 1], es[n - 1]);
      assert cs[n] == Step(cs[n - 1], es[n - 1]);
    }
  }

  /** In every run a request made on a working client is handed over to the loop, for its transport, under the next number. */
  lemma RequestIsHandedOver(cs: seq<Client>, es: seq<Event>, n: nat)
    requires IsRun(cs, es) && n < |es| && es[n].ERequest?
    ensures var c, d := cs[n], cs[n + 1];
      if c.link.st == WORKING then
        c.link.transport.Some? && d == c.(work := c.work.(nextUid := c.work.nextUid + 1,
                                                          queued := c.work.queued + {Req(c.work.nextUid, c.link.transport.value)}))
      else d == c
  {
    T.TransportSafety(cs, es, n);
    RequestStep(cs[n]);
  }

  lemma RequestStep(c: Client)
    requires T.Inv(c)
    ensures if c.link.st == WORKING then
        c.link.transport.Some? && MakeRequest(c) == c.(work := c.work.(nextUid := c.work.nextUid + 1,
                                                          queued := c.work.queued + {Req(c.work.nextUid, c.link.transport.value)}))
      else MakeRequest(c) == c
  {
  }

  /** In every run a request sent on its working transport is outstanding under its number plus one, and its write under way. */
  lemma SentIsOutstanding(cs: seq<Client>, es: seq<Event>, n: nat)
    requires IsRun(cs, es) && n < |es| && RequestsMade(es, n) < TWO32
    requires es[n].ESend? && es[n].encoded && es[n].sent && Working(cs[n], es[n].req.tp)
    ensures var r, d := es[n].req, cs[n + 1];
      && r.uid + 1 in d.work.requests && d.work.requests[r.uid + 1] == r && RequestWrite(r) in d.work.writes && r !in d.work.queued
      && d.log == cs[n].log && !d.crashed
  {
    hide Inv, Served, Failed;
    var c, r := cs[n], es[n].req;
    RunKeeps(cs, es, n);
    SendStep(c, es[n]);
    SentMeans(c, r);
  }

  lemma SentMeans(c: Client, r: Req)
    requires Inv(c) && c.work.nextUid < TWO32 && r in c.work.queued && Working(c, r.tp)
    ensures c.link.transport.Some? && WireId(r) == r.uid + 1
  {
    hide Filed, Writing, Settled, Fair, Linked;
  }

  // ---------- responses ----------

  ghost predicate Prefix(a: seq<Obs>, b: seq<Obs>) {
    |a| <= |b| && b[..|a|] == a
  }

  lemma Grows(a: seq<Obs>, o: Obs)
    ensures Prefix(a, a + [o])
  {
  }

  lemma StopGrows(c: Client)
    ensures Prefix(c.log, Stop(c).log) && Stop(c).work.requests.Keys <= c.work.requests.Keys
  {
    hide DropTransport;
  }

  lemma HandshakeGrows(c: Client, p: Pkg)
    requires p.Handshake?
    ensures var d := HandshakeResp(c, p); Prefix(c.log, d.log) && d.work.requests.Keys <= c.work.requests.Keys
    ensures p.code200 ==> HandshakeResp(c, p).work.requests == c.work.requests
  {
    hide Stop, Acknowledge;
    var c1 := c.(timers := Configured(c.timers, p));
    StopGrows(c1);
    AcknowledgeKeepsRequests(c1, p.sent);
    Grows(c.log, BeatHeard);
  }

  lemma AcknowledgeKeepsRequests(c: Client, sent: bool)
    ensures Acknowledge(c, sent).log == c.log && Acknowledge(c, sent).work.requests == c.work.requests
  {
    hide Marked, BinaryWrite;
    if c.link.transport.Some? {
      WriteKeepsRequests(c, AckWrite(c.link.transport.value), sent);
    }
  }

  lemma WriteKeepsRequests(c: Client, w: Write, sent: bool)
    ensures var d := BinaryWrite(c, w, sent).client; d.log == c.log && d.work.requests == c.work.requests
  {
  }

  lemma PackageGrows(c: Client, p: Pkg)
    ensures var d := OnPackage(c, p); Prefix(c.log, d.log) && d.work.requests.Keys <= c.work.requests.Keys
  {
    hide Stop, HandshakeResp;
    StopGrows(c);
    if p.Handshake? {
      HandshakeGrows(c, p);
    }
  }

  lemma {:induction false} PackagesGrow(c: Client, ps: seq<Pkg>)
    ensures var d := OnPackages(c, ps); Prefix(c.log, d.log) && d.work.requests.Keys <= c.work.requests.Keys
    decreases |ps|
  {
    hide OnPackage;
    if ps != [] && !c.crashed {
      PackageGrows(c, ps[0]);
      PackagesGrow(OnPackage(c, ps[0]), ps[1..]);
    }
  }

  /** A package that does not stop the client, nor answers `id`, leaves the request under `id` as it is. */
  lemma PackageSpares(c: Client, p: Pkg, id: nat)
    requires id in c.work.requests && !K.Stopping(c.work.requests.Keys, p) && !Answers(p, id)
    ensures var d := OnPackage(c, p); id in d.work.requests && d.work.requests[id] == c.work.requests[id]
  {
    hide Stop, HandshakeResp;
    if p.Handshake? {
      HandshakeGrows(c, p);
    }
  }

  predicate Answers(p: Pkg, id: nat) { p.Data? && p.readable && p.id == id && id > 0 }

  lemma {:induction false} PackagesServe(c: Client, ps: seq<Pkg>, k: nat, id: nat)
    requires H.Good(c) && H.LeftOver(c) && c.timers.open && k < |ps| && Answers(ps[k], id) && id in c.work.requests
    requires forall j :: 0 <= j < k ==> !K.Fatal(c.work.requests.Keys, ps, j) && !Answers(ps[j], id)
    ensures var d := OnPackages(c, ps); Success(c.work.requests[id], Some(id)) in d.log && id !in d.work.requests
    decreases k
  {
    hide H.Good, H.LeftOver, K.Fatal, K.Answered, OnPackage, K.Stopping;
    assert !c.crashed by { H.NotCrashed(c); }
    var c1, rest := OnPackage(c, ps[0]), ps[1..];
    var keys := c.work.requests.Keys;
    if k == 0 {
      DataServes(c, ps[0], id);
      PackagesGrow(c1, rest);
    } else {
      K.FatalHead(keys, ps);
      K.QuietPackage(c, ps[0]);
      PackageSpares(c, ps[0], id);
      forall j | 0 <= j < k - 1
        ensures !K.Fatal(c1.work.requests.Keys, rest, j) && !Answers(rest[j], id)
      {
        K.FatalTail(keys, ps, j + 1);
        assert !Answers(ps[j + 1], id);
      }
      PackagesServe(c1, rest, k - 1, id);
    }
  }

  lemma DataServes(c: Client, p: Pkg, id: nat)
    requires Answers(p, id) && id in c.work.requests
    ensures var d := OnPackage(c, p); Success(c.work.requests[id], Some(id)) in d.log && id !in d.work.requests
  {
    hide Stop;
    var o := Success(c.work.requests[id], Some(id));
    assert (c.log + [o])[|c.log|] == o;
  }

  /**
    In every run: a readable message under the id of an outstanding request runs that request's callback
    with status 0, and the request is no longer outstanding, provided no package before it in the chunk
    stops the client or has that id.
   */
  lemma ResponseIsServed(cs: seq<Client>, es: seq<Event>, n: nat, k: nat, id: nat)
    requires IsRun(cs, es) && n < |es| && es[n].ERead? && k < |es[n].pkgs|
    requires Answers(es[n].pkgs[k], id) && id in cs[n].work.requests
    requires forall j :: 0 <= j < k ==> !K.Fatal(cs[n].work.requests.Keys, es[n].pkgs, j) && !Answers(es[n].pkgs[j], id)
    ensures Success(cs[n].work.requests[id], Some(id)) in cs[n + 1].log && id !in cs[n + 1].work.requests
  {
    hide H.Good, H.LeftOver, K.Fatal, OnPackages, Answers;
    Crashes.RunKeeps(cs, es, n);
    assert Working(cs[n], es[n].tp) && cs[n + 1] == OnPackages(cs[n], es[n].pkgs);
    H.StillWorking(cs[n], es[n].tp);
    PackagesServe(cs[n], es[n].pkgs, k, id);
  }
}
