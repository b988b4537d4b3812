/** What every run of the client keeps about its requests and their callbacks. */
module ClientRequests {
  import opened Bytes
  import opened Client
  import T = ClientTransport

  /** The requests whose callback ran with status 0. */
  function Served(log: seq<Obs>): set<nat> {
    set o | o in log && o.Success? :: o.req.uid
  }

  /** The requests whose callback ran with status -1. */
  function Failed(log: seq<Obs>): set<nat> {
    set o, r | o in log && o.Failure? && r in o.reqs :: r.uid
  }

  function Uids(rs: set<Req>): set<nat> {
    set r | r in rs :: r.uid
  }

  /** The requests whose callback ran with status 0 although there was no response. */
  function Unanswered(log: seq<Obs>): set<nat> {
    set o | o in log && o.Success? && o.response.None? :: o.req.uid
  }

  /** A request succeeds at most once, never after it failed, and only by a response with its own id. */
  ghost predicate Fair(log: seq<Obs>) {
    forall j :: 0 <= j < |log| && log[j].Success? ==>
      && log[j].req.uid !in Served(log[..j])
      && log[j].req.uid !in Failed(log[..j])
      && (log[j].response.Some? ==> log[j].response.value == log[j].req.uid + 1)
  }

  /** Outstanding requests are filed under their own id. */
  ghost predicate Filed(w: Work) {
    forall id :: id in w.requests ==> id == w.requests[id].uid + 1 <= w.nextUid
  }

  /** Requests handed over are distinct, and not outstanding yet. */
  ghost predicate Waiting(w: Work) {
    && (forall r :: r in w.queued ==> r.uid < w.nextUid && r.uid + 1 !in w.requests)
    && (forall r, q :: r in w.queued && q in w.queued && r.uid == q.uid ==> r == q)
  }

  /** A write under way belongs to the request filed under its id, if there still is one. */
  ghost predicate Writing(w: Work) {
    forall r :: RequestWrite(r) in w.writes ==>
      && r.uid < w.nextUid
      && (r.uid + 1 in w.requests ==> w.requests[r.uid + 1] == r)
      && (forall q :: q in w.queued ==> q.uid != r.uid)
  }

  /** A request that succeeded is neither outstanding nor handed over; one that failed is not handed over. */
  ghost predicate Settled(w: Work, log: seq<Obs>) {
    && (forall u :: u in Served(log) ==> u < w.nextUid && u + 1 !in w.requests)
    && (forall u :: u in Failed(log) ==> u < w.nextUid)
    && (forall q :: q in w.queued ==> q.uid !in Served(log) && q.uid !in Failed(log))
  }

  ghost predicate Orderly(w: Work, log: seq<Obs>) {
    Filed(w) && Waiting(w) && Writing(w) && Settled(w, log) && Fair(log)
  }

  /** No outstanding request has failed. */
  ghost predicate Fresh(w: Work, log: seq<Obs>) {
    forall id :: id in w.requests ==> w.requests[id].uid !in Failed(log)
  }

  /** While a transport works, the outstanding requests are its own, and none of them has failed. */
  ghost predicate Linked(l: Link, w: Work, log: seq<Obs>) {
    && (l.st == INITED || l.st == CONNECTING ==> w.requests == map[])
    && (forall t: nat :: IsWorking(l.tps, t) ==> Fresh(w, log) && forall id :: id in w.requests ==> w.requests[id].tp == t)
  }

  ghost predicate Inv(c: Client) {
    T.Inv(c) && Orderly(c.work, c.log) && Linked(c.link, c.work, c.log)
  }

  /** From `c` to `d` no request was made, and none succeeded without a response. */
  ghost predicate Same(c: Client, d: Client) {
    d.work.nextUid == c.work.nextUid && Unanswered(d.log) == Unanswered(c.log)
  }

  lemma Append(a: seq<Obs>, b: seq<Obs>)
    ensures Served(a + b) == Served(a) + Served(b)
    ensures Failed(a + b) == Failed(a) + Failed(b)
    ensures Unanswered(a + b) == Unanswered(a) + Unanswered(b)
  {
    assert forall o :: o in a + b <==> o in a || o in b;
  }

  lemma Single(o: Obs)
    ensures Served([o]) == if o.Success? then {o.req.uid} else {}
    ensures Failed([o]) == if o.Failure? then Uids(o.reqs) else {}
    ensures Unanswered([o]) == if o.Success? && o.response.None? then {o.req.uid} else {}
  {
    assert forall p :: p in [o] <==> p == o;
    assert o in [o];
  }

  lemma FairMore(log: seq<Obs>, o: Obs)
    requires Fair(log)
    requires o.Success? ==> o.req.uid !in Served(log) && o.req.uid !in Failed(log) && (o.response.Some? ==> o.response.value == o.req.uid + 1)
    ensures Fair(log + [o])
    ensures Served(log + [o]) == Served(log) + if o.Success? then {o.req.uid} else {}
    ensures Failed(log + [o]) == Failed(log) + if o.Failure? then Uids(o.reqs) else {}
    ensures Unanswered(log + [o]) == Unanswered(log) + if o.Success? && o.response.None? then {o.req.uid} else {}
  {
    hide Served, Failed, Unanswered;
    Append(log, [o]);
    Single(o);
    var more := log + [o];
    assert more[..|log|] == log;
    forall j | 0 <= j < |more| && more[j].Success?
      ensures && more[j].req.uid !in Served(more[..j]) && more[j].req.uid !in Failed(more[..j])
              && (more[j].response.Some? ==> more[j].response.value == more[j].req.uid + 1)
    {
      if j < |log| {
        assert more[j] == log[j] && more[..j] == log[..j];
      }
    }
  }

  // ---------- steps on the work and the log ----------

  /** pc_map_clear fails every outstanding request. */
  lemma ClearKeeps(w: Work, log: seq<Obs>)
    requires Orderly(w, log)
    ensures Orderly(w.(requests := map[]), log + Cleared(w))
    ensures Unanswered(log + Cleared(w)) == Unanswered(log)
  {
    hide Served, Failed, Fair, Unanswered, Filed, Waiting, Writing, Settled;
    FairMore(log, Failure(w.requests.Values));
    ClearWaits(w);
    ClearSettles(w, log);
  }

  lemma ClearWaits(w: Work)
    requires Waiting(w) && Writing(w)
    ensures var w' := w.(requests := map[]); Filed(w') && Waiting(w') && Writing(w')
  {
  }

  lemma ClearSettles(w: Work, log: seq<Obs>)
    requires Filed(w) && Waiting(w) && Settled(w, log) && Fair(log)
    ensures Settled(w.(requests := map[]), log + [Failure(w.requests.Values)])
  {
    hide Served, Failed, Fair, Unanswered;
    FairMore(log, Failure(w.requests.Values));
    assert forall r :: r in w.requests.Values ==> exists id :: id in w.requests && w.requests[id] == r;
  }

  /** An observation that is no callback of a request. */
  lemma AsideKeeps(w: Work, log: seq<Obs>, o: Obs)
    requires Orderly(w, log) && !o.Success? && !o.Failure?
    ensures Orderly(w, log + [o]) && Unanswered(log + [o]) == Unanswered(log)
    ensures Fresh(w, log) ==> Fresh(w, log + [o])
    ensures Failed(log + [o]) == Failed(log)
  {
    hide Served, Failed, Fair, Unanswered, Filed, Waiting, Writing;
    FairMore(log, o);
  }

  lemma ResponseKeeps(w: Work, log: seq<Obs>, id: nat)
    requires Orderly(w, log) && Fresh(w, log) && id in w.requests
    ensures var log' := log + [Success(w.requests[id], Some(id))];
            && Orderly(w.(requests := w.requests - {id}), log')
            && Unanswered(log') == Unanswered(log)
            && Failed(log') == Failed(log)
  {
    hide Served, Failed, Fair, Unanswered, Waiting, Writing, Settled;
    assert w.requests[id].uid + 1 == id;
    ResponseSettled(w, log, id);
    RemoveKeeps(w, log, id);
  }

  lemma ResponseSettled(w: Work, log: seq<Obs>, id: nat)
    requires Filed(w) && Waiting(w) && Settled(w, log) && Fresh(w, log) && Fair(log) && id in w.requests
    ensures var log' := log + [Success(w.requests[id], Some(id))];
            && Settled(w.(requests := w.requests - {id}), log')
            && Fair(log') && Unanswered(log') == Unanswered(log) && Failed(log') == Failed(log)
  {
    hide Served, Failed, Fair, Unanswered;
    FairMore(log, Success(w.requests[id], Some(id)));
  }

  /** A request handed over has its callback run right away. */
  lemma RefuseKeeps(w: Work, log: seq<Obs>, r: Req, o: Obs)
    requires Orderly(w, log) && r in w.queued && (o == Failure({r}) || o == Success(r, None))
    ensures Orderly(w.(queued := w.queued - {r}), log + [o])
    ensures Fresh(w, log) ==> Fresh(w, log + [o])
  {
    hide Served, Failed, Fair, Unanswered, Filed, Waiting, Writing, Settled;
    RefuseWaiting(w, r);
    RefuseSettled(w, log, r, o);
  }

  lemma RefuseWaiting(w: Work, r: Req)
    requires Filed(w) && Waiting(w) && Writing(w)
    ensures var w' := w.(queued := w.queued - {r}); Filed(w') && Waiting(w') && Writing(w')
  {
  }

  lemma RefuseSettled(w: Work, log: seq<Obs>, r: Req, o: Obs)
    requires Waiting(w) && Settled(w, log) && Fair(log) && r in w.queued && (o == Failure({r}) || o == Success(r, None))
    ensures Settled(w.(queued := w.queued - {r}), log + [o]) && Fair(log + [o])
    ensures Filed(w) && Fresh(w, log) ==> Fresh(w, log + [o])
  {
    hide Served, Failed, Fair, Unanswered;
    FairMore(log, o);
  }

  lemma SendKeeps(w: Work, log: seq<Obs>, r: Req)
    requires Orderly(w, log) && r in w.queued && w.nextUid < TWO32
    ensures Orderly(w.(queued := w.queued - {r}, requests := w.requests[WireId(r) := r], writes := w.writes + multiset{RequestWrite(r)}), log)
    ensures r.uid !in Failed(log)
  {
    hide Served, Failed, Fair, Unanswered;
    assert WireId(r) == r.uid + 1;
  }

  lemma MakeKeeps(w: Work, log: seq<Obs>, t: nat)
    requires Orderly(w, log)
    ensures Orderly(w.(nextUid := w.nextUid + 1), log)
    ensures Orderly(w.(nextUid := w.nextUid + 1, queued := w.queued + {Req(w.nextUid, t)}), log)
  {
    hide Served, Failed, Fair, Unanswered, Filed, Waiting, Writing, Settled;
    MakeFiled(w, t);
    MakeWaiting(w, t);
    MakeWriting(w, t);
    MakeSettled(w, log, t);
  }

  lemma MakeFiled(w: Work, t: nat)
    requires Filed(w)
    ensures Filed(w.(nextUid := w.nextUid + 1))
    ensures Filed(w.(nextUid := w.nextUid + 1, queued := w.queued + {Req(w.nextUid, t)}))
  {
  }

  lemma MakeWaiting(w: Work, t: nat)
    requires Filed(w) && Waiting(w)
    ensures Waiting(w.(nextUid := w.nextUid + 1))
    ensures Waiting(w.(nextUid := w.nextUid + 1, queued := w.queued + {Req(w.nextUid, t)}))
  {
  }

  lemma MakeWriting(w: Work, t: nat)
    requires Writing(w)
    ensures Writing(w.(nextUid := w.nextUid + 1))
    ensures Writing(w.(nextUid := w.nextUid + 1, queued := w.queued + {Req(w.nextUid, t)}))
  {
  }

  lemma MakeSettled(w: Work, log: seq<Obs>, t: nat)
    requires Settled(w, log)
    ensures Settled(w.(nextUid := w.nextUid + 1), log)
    ensures Settled(w.(nextUid := w.nextUid + 1, queued := w.queued + {Req(w.nextUid, t)}), log)
  {
    hide Served, Failed;
  }

  /** A write that completed; when it is that of a request, the request may fail, and be removed. */
  lemma CompletedKeeps(w: Work, log: seq<Obs>, x: Write)
    requires Orderly(w, log) && x in w.writes
    ensures Orderly(w.(writes := w.writes - multiset{x}), log)
    ensures x.RequestWrite? ==> Orderly(w.(writes := w.writes - multiset{x}), log + [Failure({x.req})])
    ensures x.RequestWrite? ==> Unanswered(log + [Failure({x.req})]) == Unanswered(log)
    ensures x.RequestWrite? ==> Failed(log + [Failure({x.req})]) == Failed(log) + {x.req.uid}
  {
    hide Served, Failed, Fair, Unanswered, Filed, Waiting, Writing, Settled;
    FewerWrites(w, log, x);
    if x.RequestWrite? {
      LostSettled(w, log, x.req);
      FewerWrites(w, log + [Failure({x.req})], x);
    }
  }

  lemma FewerWrites(w: Work, log: seq<Obs>, x: Write)
    requires Filed(w) && Waiting(w) && Writing(w) && Settled(w, log)
    ensures var w' := w.(writes := w.writes - multiset{x}); Filed(w') && Waiting(w') && Writing(w') && Settled(w', log)
  {
    hide Served, Failed;
    assert forall r :: RequestWrite(r) in w.writes - multiset{x} ==> RequestWrite(r) in w.writes;
  }

  lemma LostSettled(w: Work, log: seq<Obs>, r: Req)
    requires Writing(w) && Settled(w, log) && Fair(log) && RequestWrite(r) in w.writes
    ensures var log' := log + [Failure({r})];
      Settled(w, log') && Fair(log') && Unanswered(log') == Unanswered(log) && Failed(log') == Failed(log) + {r.uid}
  {
    hide Served, Failed, Fair, Unanswered;
    FairMore(log, Failure({r}));
  }

  lemma RemoveKeeps(w: Work, log: seq<Obs>, id: nat)
    requires Orderly(w, log)
    ensures Orderly(w.(requests := w.requests - {id}), log)
  {
    hide Served, Failed, Fair, Unanswered;
  }

  lemma OtherWriteKeeps(w: Work, log: seq<Obs>, x: Write)
    requires Orderly(w, log) && !x.RequestWrite?
    ensures Orderly(w.(writes := w.writes + multiset{x}), log)
  {
    hide Served, Failed, Fair, Unanswered;
    assert forall r :: RequestWrite(r) in w.writes + multiset{x} ==> RequestWrite(r) in w.writes;
  }

  // ---------- steps of the client ----------

  lemma ReconnectKeeps(c: Client)
    requires Inv(c)
    ensures var d := Reconnect(c); Orderly(d.work, d.log) && Linked(d.link, d.work, d.log) && Same(c, d)
    ensures Fresh(c.work, c.log) ==> Fresh(Reconnect(c).work, Reconnect(c).log)
  {
    hide Orderly, T.Sound, Cleared, DropTransport, Unanswered, Failed;
    T.DropSound(c.link, c.work.writes, INITED);
    ClearKeeps(c.work, c.log);
    DropEnters(c.link, INITED);
  }

  lemma DropEnters(l: Link, st: CState)
    ensures DropTransport(l, st).st == st
  {
  }

  lemma StopKeeps(c: Client)
    requires Inv(c)
    ensures Inv(Stop(c)) && Same(c, Stop(c))
    ensures Fresh(c.work, c.log) ==> Fresh(Stop(c).work, Stop(c).log)
  {
    hide Orderly, Fresh, Reconnect, Unanswered, T.Sound;
    T.StopKeeps(c);
    ReconnectKeeps(c);
    ShutdownKeeps(c);
    assert c.link.st == INITED ==> Linked(c.link.(st := CLOSED), c.work, c.log);
  }

  lemma ShutdownKeeps(c: Client)
    requires Inv(c)
    ensures var d := Shutdown(c); d.work == c.work && d.log == c.log && Linked(d.link, d.work, d.log)
  {
    hide Orderly, T.Sound, DropTransport, Fresh;
    T.DropSound(c.link, c.work.writes, CLOSED);
    DropEnters(c.link, CLOSED);
  }

  /** The invariant looks at the link, the work and the log alone. */
  lemma SameParts(c: Client, d: Client)
    requires Inv(c) && d.link == c.link && d.work == c.work && d.log == c.log
    ensures Inv(d) && Same(c, d)
  {
  }

  lemma ConnCbKeeps(c: Client, cb: ConnCb, ok: bool)
    requires Inv(c)
    ensures Inv(RunConnCb(c, cb, ok)) && Same(c, RunConnCb(c, cb, ok))
  {
    hide Stop, Inv, Unanswered;
    var c1 := c.(reconnecting := false, timers := c.timers.(reconnect := false));
    SameParts(c, c1);
    SameParts(c, c1.(reconnects := 0));
    StopKeeps(c);
    StopKeeps(c1);
  }

  lemma PendingConnKeeps(c: Client, ok: bool)
    requires Inv(c)
    ensures Inv(RunPendingConn(c, ok)) && Same(c, RunPendingConn(c, ok))
  {
    hide RunConnCb, Inv, Unanswered;
    if c.conn.Some? {
      SameParts(c, c.(conn := None));
      ConnCbKeeps(c.(conn := None), c.conn.value, ok);
    }
  }

  lemma FailedKeeps(c: Client, cb: ConnCb)
    requires Inv(c)
    ensures Inv(TcpConnectFailed(c, cb)) && Same(c, TcpConnectFailed(c, cb))
  {
    hide Stop, RunConnCb, Inv, Unanswered;
    SameParts(c, c.(conn := None));
    StopKeeps(c.(conn := None));
    ConnCbKeeps(Stop(c.(conn := None)), cb, false);
  }

  lemma WriteFailedKeeps(c: Client)
    requires Inv(c)
    ensures Inv(WriteFailed(c)) && Same(c, WriteFailed(c))
  {
    hide Stop, RunPendingConn, Inv, Unanswered;
    StopKeeps(c);
    PendingConnKeeps(Stop(c), false);
  }

  lemma ConnectKeeps(c: Client, cb: ConnCb, dialed: bool)
    requires Inv(c)
    ensures Inv(Connect(c, cb, dialed).client) && Same(c, Connect(c, cb, dialed).client)
  {
    hide T.Sound, Orderly, Fresh, Unanswered;
    T.ConnectKeeps(c, cb, dialed);
    var l := Connect(c, cb, dialed).client.link;
    assert forall t: nat :: IsWorking(l.tps, t) ==> IsWorking(c.link.tps, t);
  }

  /** An adopted transport finds no outstanding request. */
  lemma AcceptLinked(l0: Link, w: Work, log: seq<Obs>, t: nat)
    requires Linked(l0, w, log) && T.Sound(l0, w.writes) && t in l0.connects
    ensures var l := l0.(connects := l0.connects - {t});
      && Linked(l, w, log)
      && Linked(l.(tps := SetTp(l.tps, t, TpClosed)), w, log)
      && Linked(l.(transport := Some(t)), w, log)
      && (l.st == CONNECTING ==> Linked(Started(l, t), w, log))
  {
    hide Fresh;
    var closed, started := SetTp(l0.tps, t, TpClosed), SetTp(l0.tps, t, TpWorking);
    assert forall u: nat :: IsWorking(closed, u) ==> IsWorking(l0.tps, u);
    assert l0.st == CONNECTING ==> Fresh(w, log) by { EmptyIsFresh(w, log); }
  }

  lemma EmptyIsFresh(w: Work, log: seq<Obs>)
    ensures w.requests == map[] ==> Fresh(w, log)
  {
  }

  lemma TcpConnectKeeps(c: Client, t: nat, ok: bool, reading: bool, sent: bool)
    requires Inv(c) && t in c.link.connects
    ensures Inv(OnTcpConnect(c, t, ok, reading, sent)) && Same(c, OnTcpConnect(c, t, ok, reading, sent))
  {
    hide TcpConnectFailed, RunConnCb, T.Sound, HandshakeReq, SetTp, Started, Orderly, Linked, Unanswered;
    var cb := c.link.connects[t];
    var l := c.link.(connects := c.link.connects - {t});
    T.AcceptSound(c.link, c.work.writes, t);
    AcceptLinked(c.link, c.work, c.log, t);
    if l.st != CONNECTING {
      ConnCbKeeps(c.(link := l, conn := None), cb, false);
    } else if !ok {
      FailedKeeps(c.(link := l.(tps := SetTp(l.tps, t, TpClosed))), cb);
    } else if !reading {
      FailedKeeps(c.(link := l.(transport := Some(t))), cb);
    } else {
      HandshakeReqKeeps(c.(link := Started(l, t)), t, cb, sent);
    }
  }

  /** A write that is not that of a request. */
  lemma BinaryWriteKeeps(c: Client, w: Write, sent: bool)
    requires Inv(c) && !w.RequestWrite? && !w.AckWrite?
    ensures var d := BinaryWrite(c, w, sent).client; Inv(d) && Same(c, d) && d.log == c.log && d.work.requests == c.work.requests
  {
    hide T.Sound, Orderly, Linked, Unanswered;
    OtherWriteKeeps(c.work, c.log, w);
    T.OtherWriteSound(c.link, c.work.writes, w);
    MoreWritesLinked(c.link, c.work, c.log, w);
  }

  lemma MoreWritesLinked(l: Link, w: Work, log: seq<Obs>, x: Write)
    requires Linked(l, w, log)
    ensures Linked(l, w.(writes := w.writes + multiset{x}), log)
    ensures Linked(l, w.(writes := w.writes - multiset{x}), log)
  {
    hide Failed;
  }

  lemma HandshakeReqKeeps(c: Client, t: nat, cb: ConnCb, sent: bool)
    requires Inv(c)
    ensures Inv(HandshakeReq(c, t, cb, sent)) && Same(c, HandshakeReq(c, t, cb, sent))
  {
    hide TcpConnectFailed, BinaryWrite, Inv, Unanswered;
    BinaryWriteKeeps(c, HandshakeWrite(t), sent);
    var d := BinaryWrite(c, HandshakeWrite(t), sent).client;
    FailedKeeps(d, cb);
    SameParts(d, d.(timers := d.timers.(handshake := true)));
    SameParts(d, Crash(d));
  }

  /** The log gains an observation that is no callback of a request. */
  lemma AsideInv(c: Client, o: Obs)
    requires Inv(c) && !o.Success? && !o.Failure?
    ensures var d := c.(log := c.log + [o]); Inv(d) && Same(c, d) && (Fresh(c.work, c.log) ==> Fresh(d.work, d.log))
  {
    hide T.Sound, Orderly, Unanswered, Failed;
    AsideKeeps(c.work, c.log, o);
  }

  lemma HeartbeatKeeps(c: Client)
    requires Inv(c)
    ensures var d := Heartbeat(c); Inv(d) && Same(c, d) && (Fresh(c.work, c.log) ==> Fresh(d.work, d.log))
  {
    hide Inv, Unanswered, Fresh;
    AsideInv(c, BeatHeard);
    SameParts(c, Crash(c));
    SameParts(c.(log := c.log + [BeatHeard]), Heartbeat(c).(log := c.log + [BeatHeard]));
  }

  lemma AcknowledgeKeeps(c: Client, sent: bool)
    requires Inv(c)
    ensures var d := Acknowledge(c, sent); Inv(d) && Same(c, d) && d.log == c.log && d.work.requests == c.work.requests
  {
    hide T.Sound, Orderly, Unanswered, Linked, Marked;
    T.AcknowledgeKeeps(c, sent);
    match c.link.transport
    case None =>
      BinaryWriteKeeps(c, BeatWrite, sent);
    case Some(t) =>
      OtherWriteKeeps(c.work, c.log, AckWrite(t));
      MoreWritesLinked(c.link, c.work, c.log, AckWrite(t));
      if t < |c.link.tps| {
        MarkedLinked(c.link, c.work.(writes := c.work.writes + multiset{AckWrite(t)}), c.log, t);
      }
  }

  lemma MarkedLinked(l: Link, w: Work, log: seq<Obs>, t: nat)
    requires Linked(l, w, log) && t < |l.tps|
    ensures Linked(l.(tps := Marked(l.tps, t)), w, log)
  {
    hide Fresh;
    var marked := Marked(l.tps, t);
    assert forall u: nat :: IsWorking(marked, u) <==> IsWorking(l.tps, u);
  }

  lemma HandshakeKeeps(c: Client, p: Pkg)
    requires Inv(c) && Fresh(c.work, c.log) && p.Handshake?
    ensures var d := HandshakeResp(c, p); Inv(d) && Same(c, d) && Fresh(d.work, d.log)
  {
    hide Stop, Acknowledge, Heartbeat, Inv, Unanswered, Failed;
    SameParts(c, Crash(c));
    var c1 := c.(timers := Configured(c.timers, p));
    SameParts(c, c1);
    StopKeeps(c1);
    AcknowledgeKeeps(c1, p.sent);
    HeartbeatKeeps(Acknowledge(c1, p.sent));
    HeartbeatKeeps(c1);
  }

  /** A response runs the callback of the request with its id, and of no other. */
  lemma DataKeeps(c: Client, id: nat, isResponse: bool, readable: bool)
    requires Inv(c) && Fresh(c.work, c.log)
    ensures var d := OnData(c, id, isResponse, readable); Inv(d) && Same(c, d) && Fresh(d.work, d.log)
  {
    hide Stop, T.Sound, Orderly, Unanswered, Failed;
    StopKeeps(c);
    if id in c.work.requests {
      ResponseKeeps(c.work, c.log, id);
    }
  }

  lemma PackageKeeps(c: Client, p: Pkg)
    requires Inv(c) && Fresh(c.work, c.log)
    ensures var d := OnPackage(c, p); Inv(d) && Same(c, d) && Fresh(d.work, d.log)
  {
    hide Stop, HandshakeResp, Heartbeat, OnData, Inv, Fresh, Unanswered;
    match p
    case Handshake(_, _, _, _) => HandshakeKeeps(c, p);
    case HeartbeatPkg => HeartbeatKeeps(c);
    case Data(id, isResponse, readable) => DataKeeps(c, id, isResponse, readable);
    case Kick =>
    case Unknown => StopKeeps(c);
  }

  lemma {:induction false} PackagesKeep(c: Client, ps: seq<Pkg>)
    requires Inv(c) && Fresh(c.work, c.log)
    ensures var d := OnPackages(c, ps); Inv(d) && Same(c, d) && Fresh(d.work, d.log)
    decreases |ps|
  {
    hide OnPackage, Inv, Fresh, Unanswered;
    if ps != [] {
      PackageKeeps(c, ps[0]);
      PackagesKeep(OnPackage(c, ps[0]), ps[1..]);
    }
  }

  lemma BeatTimerKeeps(c: Client, sent: bool)
    requires Inv(c)
    ensures Inv(OnBeatTimer(c, sent)) && Same(c, OnBeatTimer(c, sent))
  {
    hide Stop, BinaryWrite, Beat, Inv, Unanswered;
    var c1 := c.(timers := c.timers.(beat := false));
    SameParts(c, c1);
    StopKeeps(c1);
    BinaryWriteKeeps(c1, BeatWrite, sent);
    var d := BinaryWrite(c1, BeatWrite, sent).client;
    StopKeeps(d);
    if d.link.transport.Some? {
      BeatKeeps(d, d.link.transport.value);
    }
  }

  lemma BeatKeeps(c: Client, t: nat)
    requires Inv(c)
    ensures Inv(Beat(c, t)) && Same(c, Beat(c, t))
  {
    hide Inv, Unanswered;
    AsideInv(c, BeatSent(t));
    SameParts(c.(log := c.log + [BeatSent(t)]), Beat(c, t));
  }

  lemma TimeoutKeeps(c: Client)
    requires Inv(c)
    ensures Inv(OnTimeout(c)) && Same(c, OnTimeout(c))
  {
    hide Stop, Inv, Unanswered;
    AsideInv(c, TimedOut);
    var c1 := c.(log := c.log + [TimedOut], timers := c.timers.(timeout := false));
    SameParts(c.(log := c.log + [TimedOut]), c1);
    StopKeeps(c1);
  }

  lemma HandshakeTimerKeeps(c: Client)
    requires Inv(c)
    ensures Inv(OnHandshakeTimer(c)) && Same(c, OnHandshakeTimer(c))
  {
    hide Stop, Inv, Unanswered;
    AsideInv(c, GreetingTimedOut);
    var c1 := c.(log := c.log + [GreetingTimedOut], timers := c.timers.(handshake := false));
    SameParts(c.(log := c.log + [GreetingTimedOut]), c1);
    StopKeeps(c1);
  }

  lemma ReconnectTimerKeeps(c: Client, resolved: bool, dialed: bool)
    requires Inv(c)
    ensures Inv(OnReconnectTimer(c, resolved, dialed)) && Same(c, OnReconnectTimer(c, resolved, dialed))
  {
    hide Stop, Connect, Inv, Unanswered;
    var c1 := c.(timers := c.timers.(reconnect := false));
    SameParts(c, c1);
    SameParts(c, c1.(reconnecting := false));
    StopKeeps(c1.(reconnecting := false));
    ConnectKeeps(c1, ReconnectedCb, dialed);
    var d := Connect(c1, ReconnectedCb, dialed).client;
    SameParts(d, d.(reconnecting := false));
    StopKeeps(d.(reconnecting := false));
  }

  /** A request is made: the one thing that uses up an id. */
  lemma RequestKeeps(c: Client)
    requires Inv(c)
    ensures var d := MakeRequest(c); Inv(d) && d.work.nextUid <= c.work.nextUid + 1 && d.log == c.log
  {
    hide T.Sound, Orderly, Failed;
    if c.link.transport.Some? {
      MakeKeeps(c.work, c.log, c.link.transport.value);
    } else {
      MakeKeeps(c.work, c.log, 0);
    }
  }

  lemma SendRequestKeeps(c: Client, r: Req, encoded: bool, sent: bool)
    requires Inv(c) && r in c.work.queued && c.work.nextUid < TWO32
    ensures var d := SendRequest(c, r, encoded, sent); Inv(d) && c.work.nextUid == d.work.nextUid
  {
    hide T.Sound, Orderly, Linked, WireId;
    if !Working(c, r.tp) {
      RefuseKeeps(c.work, c.log, r, Success(r, None));
      RefusedLinked(c.link, c.work, c.log, r, Success(r, None));
    } else if !encoded || !sent {
      RefuseKeeps(c.work, c.log, r, Failure({r}));
      RefusedLinked(c.link, c.work, c.log, r, Failure({r}));
    } else {
      SendKeeps(c.work, c.log, r);
      SentLinked(c.link, c.work, c.log, r);
      T.OtherWriteSound(c.link, c.work.writes, RequestWrite(r));
    }
  }

  lemma RefusedLinked(l: Link, w: Work, log: seq<Obs>, r: Req, o: Obs)
    requires Linked(l, w, log) && Orderly(w, log) && r in w.queued && (o == Failure({r}) || o == Success(r, None))
    ensures Linked(l, w.(queued := w.queued - {r}), log + [o])
  {
    hide Orderly, Failed;
    RefuseKeeps(w, log, r, o);
  }

  lemma SentLinked(l: Link, w: Work, log: seq<Obs>, r: Req)
    requires Linked(l, w, log) && Orderly(w, log) && T.Sound(l, w.writes) && IsWorking(l.tps, r.tp) && r in w.queued && w.nextUid < TWO32
    ensures Linked(l, w.(queued := w.queued - {r}, requests := w.requests[WireId(r) := r], writes := w.writes + multiset{RequestWrite(r)}), log)
  {
    hide Orderly, Failed, WireId;
    SendKeeps(w, log, r);
    assert forall t: nat :: IsWorking(l.tps, t) ==> t == r.tp;
  }

  lemma WrittenKeeps(c: Client, x: Write, ok: bool)
    requires Inv(c) && x in c.work.writes && c.work.nextUid < TWO32
    ensures Inv(OnWritten(c, x, ok)) && Same(c, OnWritten(c, x, ok))
  {
    hide WriteFailed, RunPendingConn, T.Sound, Orderly, Linked, Unanswered, Acked;
    var c1 := c.(work := c.work.(writes := c.work.writes - multiset{x}));
    T.FewerWritesSound(c.link, c.work.writes, x);
    CompletedKeeps(c.work, c.log, x);
    MoreWritesLinked(c.link, c.work, c.log, x);
    match x
    case HandshakeWrite(_) => WriteFailedKeeps(c1);
    case AckWrite(t) =>
      WriteFailedKeeps(c1);
      if Working(c1, t) && ok {
        T.AckedSound(c.link, c.work.writes, t);
        AckedLinked(c1.link, c1.work, c1.log, t);
        PendingConnKeeps(c1.(link := Acked(c1.link, t)), true);
      }
    case BeatWrite =>
    case RequestWrite(r) => RequestWrittenKeeps(c, c1, r, ok);
  }

  /** The write of a request completed. */
  lemma RequestWrittenKeeps(c: Client, c1: Client, r: Req, ok: bool)
    requires Inv(c) && RequestWrite(r) in c.work.writes && c.work.nextUid < TWO32
    requires c1 == c.(work := c.work.(writes := c.work.writes - multiset{RequestWrite(r)}))
    requires Inv(c1)
    ensures Inv(OnWritten(c, RequestWrite(r), ok)) && Same(c, OnWritten(c, RequestWrite(r), ok))
  {
    hide T.Sound, Orderly, Linked, Unanswered, WireId;
    CompletedKeeps(c.work, c.log, RequestWrite(r));
    if !Working(c1, r.tp) {
      LostLinked(c.link, c.work, c.log, r);
      MoreWritesLinked(c.link, c.work, c.log + [Failure({r})], RequestWrite(r));
    } else if !ok {
      RemoveKeeps(c1.work, c.log + [Failure({r})], WireId(r));
      RemovedLinked(c1.link, c.work, c1.work, c1.log, r);
    }
  }

  /** A request that fails with its transport gone is not outstanding on one that works. */
  lemma LostLinked(l: Link, w: Work, log: seq<Obs>, r: Req)
    requires Linked(l, w, log) && Orderly(w, log) && RequestWrite(r) in w.writes && !IsWorking(l.tps, r.tp)
    ensures Linked(l, w, log + [Failure({r})])
  {
    hide Failed, Served, Fair, Waiting, Settled;
    CompletedKeeps(w, log, RequestWrite(r));
  }

  lemma RemovedLinked(l: Link, w: Work, w1: Work, log: seq<Obs>, r: Req)
    requires Linked(l, w, log) && Orderly(w, log) && RequestWrite(r) in w.writes && w.nextUid < TWO32
    requires w1 == w.(writes := w.writes - multiset{RequestWrite(r)})
    ensures Linked(l, w1.(requests := w1.requests - {WireId(r)}), log + [Failure({r})])
  {
    hide Failed, Served, Fair, Waiting, Settled;
    CompletedKeeps(w, log, RequestWrite(r));
    assert WireId(r) == r.uid + 1;
  }

  lemma AckedLinked(l: Link, w: Work, log: seq<Obs>, t: nat)
    requires Linked(l, w, log) && IsWorking(l.tps, t)
    ensures Linked(Acked(l, t), w, log)
  {
    hide Fresh;
    var l' := Acked(l, t);
    assert forall u: nat :: IsWorking(l'.tps, u) <==> IsWorking(l.tps, u);
  }

  lemma DisconnectKeeps(c: Client)
    requires Inv(c)
    ensures Inv(Disconnect(c)) && Same(c, Disconnect(c))
  {
    hide T.Sound, Orderly, Unanswered, Fresh;
    T.DisconnectSound(c.link, c.work.writes);
  }

  lemma ReadKeeps(c: Client, t: nat, ps: seq<Pkg>)
    requires Inv(c) && Working(c, t)
    ensures Inv(OnPackages(c, ps)) && Same(c, OnPackages(c, ps))
  {
    hide OnPackages, Orderly, T.Sound, Fresh, Unanswered;
    PackagesKeep(c, ps);
  }

  predicate Asks(e: Event) { e.ERequest? || e.ESend? }

  lemma StepKeeps(c: Client, e: Event)
    requires Inv(c) && Enabled(c, e) && c.work.nextUid < TWO32
    ensures Inv(Step(c, e))
    ensures Step(c, e).work.nextUid <= c.work.nextUid + if e.ERequest? then 1 else 0
    ensures !Asks(e) ==> Same(c, Step(c, e))
    ensures e.ERequest? ==> Step(c, e).log == c.log
  {
    hide Inv, Unanswered, Stop, Connect, OnTcpConnect, OnPackages, OnBeatTimer, OnReconnectTimer, OnWritten, OnTimeout, OnHandshakeTimer, SendRequest, MakeRequest, Disconnect;
    match e
    case EConnect(cb, dialed) => ConnectKeeps(c, cb, dialed);
    case ETcpConnect(t, ok, reading, sent) => TcpConnectKeeps(c, t, ok, reading, sent);
    case ERead(t, ps) => ReadKeeps(c, t, ps);
    case EReadError(_) =>
      SameParts(c, c.(reconnecting := false));
      StopKeeps(c.(reconnecting := false));
    case EBeatTimer(sent) => BeatTimerKeeps(c, sent);
    case ETimeoutTimer => TimeoutKeeps(c);
    case EHandshakeTimer => HandshakeTimerKeeps(c);
    case EReconnectTimer(resolved, dialed) => ReconnectTimerKeeps(c, resolved, dialed);
    case ERequest => RequestKeeps(c);
    case ESend(r, encoded, sent) => SendRequestKeeps(c, r, encoded, sent);
    case EWritten(w, ok) => WrittenKeeps(c, w, ok);
    case EDisconnect => DisconnectKeeps(c);
    case EClose =>
      SameParts(c, c.(timers := c.timers.(closeRequested := false)));
      StopKeeps(c.(timers := c.timers.(closeRequested := false)));
  }

  // ---------- whole runs ----------

  /** The calls of pc_request among the first `n` events. */
  function RequestsMade(es: seq<Event>, n: nat): nat
    requires n <= |es|
  {
    if n == 0 then 0 else RequestsMade(es, n - 1) + if es[n - 1].ERequest? then 1 else 0
  }

  lemma {:induction false} RunKeeps(cs: seq<Client>, es: seq<Event>, n: nat)
    requires IsRun(cs, es) && n < |cs| && RequestsMade(es, n) < TWO32
    ensures Inv(cs[n]) && cs[n].work.nextUid <= RequestsMade(es, n)
  {
    hide Step, Inv;
    if n == 0 {
      var b :| cs[0] == New(b);
      NewIsGood(b);
    } else {
      RunKeeps(cs, es, n - 1);
      StepKeeps(cs[n - 1], es[n - 1]);
    }
  }

  lemma NewIsGood(b: bool)
    ensures Inv(New(b)) && New(b).work.nextUid == 0
  {
    hide T.Sound;
    T.NewIsGood(b);
  }

  /**
    In every run with fewer than 2^32 requests: when the callback of a request runs with status 0 it
    had not run before, with any status, and the response, if there was one, carried the request's id.
   */
  lemma SuccessIsFirst(cs: seq<Client>, es: seq<Event>, n: nat, i: nat, j: nat)
    requires IsRun(cs, es) && n < |cs| && RequestsMade(es, n) < TWO32
    requires i < j < |cs[n].log| && cs[n].log[j].Success?
    ensures cs[n].log[i].Success? ==> cs[n].log[i].req.uid != cs[n].log[j].req.uid
    ensures cs[n].log[i].Failure? ==> cs[n].log[j].req.uid !in Uids(cs[n].log[i].reqs)
    ensures cs[n].log[j].response.Some? ==> cs[n].log[j].response.value == cs[n].log[j].req.uid + 1
  {
    hide IsRun, T.Inv, Filed, Waiting, Writing, Settled, Linked;
    RunKeeps(cs, es, n);
    assert cs[n].log[i] in cs[n].log[..j];
  }

  /**
    In every run, the callback of a request comes to run with status 0 and no response exactly when
    the request reaches the loop after its transport has stopped working.
   */
  lemma UnansweredSuccessIff(cs: seq<Client>, es: seq<Event>, n: nat, u: nat)
    requires IsRun(cs, es) && n < |es| && RequestsMade(es, n) < TWO32
    ensures u in Unanswered(cs[n + 1].log) && u !in Unanswered(cs[n].log)
       <==> es[n].ESend? && es[n].req.uid == u && !Working(cs[n], es[n].req.tp)
  {
    hide Step, Inv, Unanswered;
    RunKeeps(cs, es, n);
    var c, e := cs[n], es[n];
    StepKeeps(c, e);
    if e.ESend? {
      SendStep(c, e);
      SendIsUnansweredIff(c, e.req, e.encoded, e.sent, u);
    }
  }

  lemma SendIsUnansweredIff(c: Client, r: Req, encoded: bool, sent: bool, u: nat)
    requires Inv(c) && r in c.work.queued
    ensures u in Unanswered(SendRequest(c, r, encoded, sent).log) && u !in Unanswered(c.log) <==> r.uid == u && !Working(c, r.tp)
  {
    hide T.Inv, Linked, Orderly, Served, Unanswered, WireId;
    assert r.uid !in Unanswered(c.log) by { QueuedIsUnserved(c.work, c.log, r); }
    Append(c.log, [Success(r, None)]);
    Append(c.log, [Failure({r})]);
    Single(Success(r, None));
    Single(Failure({r}));
  }

  lemma QueuedIsUnserved(w: Work, log: seq<Obs>, r: Req)
    requires Orderly(w, log) && r in w.queued
    ensures r.uid !in Unanswered(log)
  {
    hide Filed, Waiting, Writing, Fair;
    assert r.uid !in Served(log);
  }

  lemma SendStep(c: Client, e: Event)
    requires Enabled(c, e) && e.ESend?
    ensures Step(c, e) == SendRequest(c, e.req, e.encoded, e.sent) && e.req in c.work.queued
  {
    hide SendRequest;
  }

  /** In every run with fewer than 2^32 requests, pc__request files a request under an id that is not in use. */
  lemma FiledUnderNewId(cs: seq<Client>, es: seq<Event>, n: nat, r: Req)
    requires IsRun(cs, es) && n < |cs| && RequestsMade(es, n) < TWO32 && r in cs[n].work.queued
    ensures WireId(r) == r.uid + 1 && WireId(r) !in cs[n].work.requests
  {
    hide IsRun, T.Inv, Filed, Writing, Settled, Fair, Linked;
    RunKeeps(cs, es, n);
  }

  function SampleEvents(): seq<Event> {
    [EConnect(UserCb, true), ETcpConnect(0, true, true, true), ERead(0, [Handshake(true, None, true, true)]),
     EWritten(AckWrite(0), true), ERequest, EDisconnect, EClose, ESend(Req(0, 0), true, true)]
  }

  function SampleClient(l: Link, tm: Timers, w: Work, conn: Option<ConnCb>, log: seq<Obs>): Client {
    Client(false, l, tm, w, conn, false, 0, log, false)
  }

  function SampleLink(st: CState, tp: Transport): Link {
    Link(st, Some(0), [tp], map[])
  }

  /** The states of a run in which the client is closed while a request is handed over. */
  function SampleRun(): seq<Client> {
    var idle := Timers(true, false, false, false, false, false, false, false);
    var asking := idle.(closeRequested := true);
    var waiting := idle.(handshake := true);
    var closed := Timers(false, false, false, false, false, false, false, false);
    var w := Work(map[], {}, multiset{}, 0);
    var w1 := w.(writes := multiset{HandshakeWrite(0)});
    var w2 := w.(writes := multiset{HandshakeWrite(0), AckWrite(0)});
    var w3 := w1.(queued := {Req(0, 0)}, nextUid := 1);
    var up, shaken, acked := Transport(TpWorking, false, false), Transport(TpWorking, true, false), Transport(TpWorking, true, true);
    [ New(false),
      SampleClient(Link(CONNECTING, None, [Transport(TpConnecting, false, false)], map[0 := UserCb]), idle, w, Some(UserCb), []),
      SampleClient(SampleLink(CONNECTED, up), waiting, w1, Some(UserCb), []),
      SampleClient(SampleLink(CONNECTED, shaken), idle, w2, Some(UserCb), [BeatHeard]),
      SampleClient(SampleLink(WORKING, acked), idle, w1, None, [BeatHeard]),
      SampleClient(SampleLink(WORKING, acked), idle, w3, None, [BeatHeard]),
      SampleClient(SampleLink(DISCONNECTING, acked), asking, w3, None, [BeatHeard]),
      SampleClient(Link(CLOSED, None, [acked.(st := TpClosed)], map[]), closed, w3, None, [BeatHeard]),
      SampleClient(Link(CLOSED, None, [acked.(st := TpClosed)], map[]), closed, w3.(queued := {}), None,
                   [BeatHeard, Success(Req(0, 0), None)]) ]
  }

  predicate SampleGoes(k: nat)
    requires k < 8
  {
    var c, e := SampleRun()[k], SampleEvents()[k];
    Enabled(c, e) && Step(c, e) == SampleRun()[k + 1]
  }

  lemma SampleConnects()
    ensures SampleGoes(0) && SampleGoes(1)
  {
    hide OnPackages, OnWritten;
  }

  lemma OnlyPackage(c: Client, p: Pkg)
    requires !c.crashed
    ensures OnPackages(c, [p]) == OnPackage(c, p)
  {
    hide OnPackage;
    assert [p][1..] == [];
  }

  lemma SampleShakesHands()
    ensures SampleGoes(2)
  {
    var c := SampleRun()[2];
    var p := Handshake(true, None, true, true);
    hide Stop;
    OnlyPackage(c, p);
  }

  lemma SampleRequests()
    ensures SampleGoes(3) && SampleGoes(4)
  {
    hide OnPackages;
  }

  lemma SampleDisconnects()
    ensures SampleGoes(5)
  {
    hide OnPackages;
  }

  lemma SampleCloses()
    ensures SampleGoes(6)
  {
    hide OnPackages;
  }

  lemma SampleAnswers()
    ensures SampleGoes(7)
  {
    hide OnPackages;
  }

  /** A run that ends with a success without a response. */
  lemma SuccessWithoutResponse()
    ensures IsRun(SampleRun(), SampleEvents())
    ensures Success(Req(0, 0), None) in SampleRun()[8].log
  {
    SampleConnects();
    SampleShakesHands();
    SampleRequests();
    SampleDisconnects();
    SampleCloses();
    SampleAnswers();
    var cs, es := SampleRun(), SampleEvents();
    hide Step, Enabled;
    forall i | 0 <= i < |es|
      ensures Enabled(cs[i], es[i]) && cs[i + 1] == Step(cs[i], es[i])
    {
      assert SampleGoes(i);
    }
  }
}
