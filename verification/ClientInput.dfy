/**
  The client together with the parser of its input: what of one connection is still in the parser
  when the next one is made.
 */
module ClientInput {
  import opened Bytes
  import opened Client
  import H = ClientHandles
  import K = ClientChunks
  import Crashes = ClientCrashes
  import Runs = ClientRuns
  import P = Package

  /** pc_pkg_type: what a package can be read as. */
  predicate Fits(p: P.Package, q: Pkg) {
    match p.kind
    case 1 => q.Handshake?
    case 3 => q.HeartbeatPkg?
    case 4 => q.Data?
    case 5 => q.Kick?
    case _ => q.Unknown?
  }

  /** The packages as the client reads them. */
  predicate Reads(ps: seq<P.Package>, qs: seq<Pkg>) {
    |qs| == |ps| && forall i :: 0 <= i < |ps| ==> Fits(ps[i], qs[i])
  }

  /**
    The parser after a step. A reconnection resets it; but one that is started by a package of a chunk
    does so between two packages, and the rest of the chunk is parsed all the same.
   */
  function Parsed(c: Client, e: Event, s: P.State, data: seq<byte>): (s': P.State)
    requires Enabled(c, e) && P.Reachable(s)
    ensures P.Reachable(s')
  {
    if e.ERead? then P.Run(s, data).state
    else if Step(c, e).reconnects > c.reconnects && !s.Closed? then P.AtHead([])
    else s
  }

  /** Nothing of an earlier connection is in the parser while the next one is made. */
  predicate Clean(c: Client, s: P.State) {
    H.Starting(c.link.st) ==> s == P.AtHead([])
  }

  /** From `c` to `d` the client went back to its beginnings only by a reconnection, which is counted. */
  predicate Counted(c: Client, d: Client) {
    c.reconnects <= d.reconnects && (H.Starting(d.link.st) ==> H.Starting(c.link.st) || c.reconnects < d.reconnects)
  }

  lemma StopCounts(c: Client)
    ensures Counted(c, Stop(c))
  {
    hide Cleared, SetTp;
  }

  lemma ConnCbCounts(c: Client, cb: ConnCb)
    ensures Counted(c, RunConnCb(c, cb, false))
  {
    hide Stop;
    StopCounts(c);
    StopCounts(c.(reconnecting := false, timers := c.timers.(reconnect := false)));
  }

  lemma PendingCounts(c: Client)
    ensures Counted(c, RunPendingConn(c, false))
  {
    hide RunConnCb;
    if c.conn.Some? {
      ConnCbCounts(c.(conn := None), c.conn.value);
    }
  }

  lemma FailedCounts(c: Client, cb: ConnCb)
    ensures Counted(c, TcpConnectFailed(c, cb))
  {
    hide Stop, RunConnCb;
    StopCounts(c.(conn := None));
    ConnCbCounts(Stop(c.(conn := None)), cb);
  }

  lemma TcpConnectCounts(c: Client, t: nat, ok: bool, reading: bool, sent: bool)
    requires t in c.link.connects
    ensures Counted(c, OnTcpConnect(c, t, ok, reading, sent))
  {
    hide TcpConnectFailed, RunConnCb, SetTp;
    var cb := c.link.connects[t];
    var l := c.link.(connects := c.link.connects - {t});
    ConnCbCounts(c.(link := l, conn := None), cb);
    FailedCounts(c.(link := l.(tps := SetTp(l.tps, t, TpClosed))), cb);
    FailedCounts(c.(link := l.(transport := Some(t))), cb);
    FailedCounts(c.(link := Started(l, t)), cb);
  }

  lemma BeatTimerCounts(c: Client, sent: bool)
    ensures Counted(c, OnBeatTimer(c, sent))
  {
    hide Stop, BinaryWrite;
    var c1 := c.(timers := c.timers.(beat := false));
    StopCounts(c1);
    WriteStays(c1, BeatWrite, sent);
    StopCounts(BinaryWrite(c1, BeatWrite, sent).client);
  }

  lemma WriteStays(c: Client, w: Write, sent: bool)
    ensures var d := BinaryWrite(c, w, sent).client; d.link == c.link && d.reconnects == c.reconnects
  {
  }

  lemma ReconnectTimerCounts(c: Client, resolved: bool, dialed: bool)
    ensures Counted(c, OnReconnectTimer(c, resolved, dialed))
  {
    hide Stop;
    var c1 := c.(timers := c.timers.(reconnect := false));
    StopCounts(c1.(reconnecting := false));
    StopCounts(Connect(c1, ReconnectedCb, dialed).client.(reconnecting := false));
  }

  /** A connection that works is never one being made, even though its count starts again at 0. */
  lemma WrittenCounts(c: Client, w: Write, ok: bool)
    ensures var d := OnWritten(c, w, ok); H.Starting(d.link.st) ==> H.Starting(c.link.st) || c.reconnects < d.reconnects
  {
    hide Stop, RunPendingConn;
    var c1 := c.(work := c.work.(writes := c.work.writes - multiset{w}));
    StopCounts(c1);
    PendingCounts(Stop(c1));
    if w.AckWrite? && Working(c1, w.tp) && ok {
      AckedWorks(c1.(link := Acked(c1.link, w.tp)));
    }
  }

  lemma AckedWorks(c: Client)
    ensures RunPendingConn(c, true).link == c.link
  {
  }

  lemma StepCounts(c: Client, e: Event)
    requires Enabled(c, e) && !e.ERead?
    ensures var d := Step(c, e); H.Starting(d.link.st) ==> H.Starting(c.link.st) || c.reconnects < d.reconnects
  {
    hide Stop, OnTcpConnect, OnPackages, OnBeatTimer, OnReconnectTimer, OnWritten;
    match e
    case EConnect(_, _) =>
    case ETcpConnect(t, ok, reading, sent) => TcpConnectCounts(c, t, ok, reading, sent);
    case EReadError(_) => StopCounts(c.(reconnecting := false));
    case EBeatTimer(sent) => BeatTimerCounts(c, sent);
    case ETimeoutTimer => StopCounts(c.(log := c.log + [TimedOut], timers := c.timers.(timeout := false)));
    case EHandshakeTimer => StopCounts(c.(log := c.log + [GreetingTimedOut], timers := c.timers.(handshake := false)));
    case EReconnectTimer(resolved, dialed) => ReconnectTimerCounts(c, resolved, dialed);
    case ERequest =>
    case ESend(_, _, _) =>
    case EWritten(w, ok) => WrittenCounts(c, w, ok);
    case EDisconnect =>
    case EClose => StopCounts(c.(timers := c.timers.(closeRequested := false)));
  }

  /** A package of the chunk is fatal, and the client is one that such a package makes reconnect. */
  ghost predicate Restarting(c: Client, ps: seq<Pkg>) {
    c.reconnectEnabled && !c.reconnecting && c.link.st != DISCONNECTING && K.AnyFatal(c.work.requests.Keys, ps)
  }

  /** The chunk makes the client start again, and ends in the middle of a package. */
  ghost predicate CutShort(c: Client, e: Event, s: P.State, data: seq<byte>)
    requires P.Reachable(s)
  {
    e.ERead? && Restarting(c, e.pkgs) && P.Run(s, data).state != P.AtHead([])
  }

  /** A chunk makes a client start again exactly when it holds a package that makes it reconnect. */
  lemma RestartsIff(c: Client, e: Event)
    requires H.Good(c) && H.LeftOver(c) && e.ERead? && Enabled(c, e)
    ensures H.Starting(Step(c, e).link.st) <==> Restarting(c, e.pkgs)
  {
    H.WorkingHasTransport(c);
    hide OnPackages, H.Good, H.LeftOver, K.AnyFatal, K.ClosedTooEarly;
    K.ChunkOutcome(c, e.pkgs);
  }

  lemma CleanIff(c: Client, e: Event, s: P.State, data: seq<byte>)
    requires H.Good(c) && H.LeftOver(c) && Enabled(c, e) && P.Reachable(s) && Clean(c, s) && !s.Closed?
    ensures Clean(Step(c, e), Parsed(c, e, s, data)) <==> !CutShort(c, e, s, data)
  {
    hide Step, P.Run, Restarting, H.Good, H.LeftOver;
    if e.ERead? {
      RestartsIff(c, e);
    } else {
      StepCounts(c, e);
    }
  }

  // ---------- whole runs ----------

  /** `ss` are the states of the parser along the run, `data` the chunks of the read steps. */
  ghost predicate IsFed(cs: seq<Client>, es: seq<Event>, ss: seq<P.State>, data: seq<seq<byte>>) {
    && IsRun(cs, es) && |ss| == |cs| && |data| == |es| && ss[0] == P.AtHead([])
    && (forall i :: 0 <= i < |ss| ==> P.Reachable(ss[i]))
    && (forall i :: 0 <= i < |es| ==> Enabled(cs[i], es[i]) && ss[i + 1] == Parsed(cs[i], es[i], ss[i], data[i]))
    && (forall i :: 0 <= i < |es| && es[i].ERead? ==> Reads(P.Run(ss[i], data[i]).out, es[i].pkgs))
  }

  lemma {:induction false} StaysOpen(cs: seq<Client>, es: seq<Event>, ss: seq<P.State>, data: seq<seq<byte>>, n: nat)
    requires IsFed(cs, es, ss, data) && n < |ss|
    ensures !ss[n].Closed?
  {
    hide Step, Enabled, P.Run, Reads;
    if n > 0 {
      StaysOpen(cs, es, ss, data, n - 1);
      RunStaysOpen(ss[n - 1], data[n - 1]);
    }
  }

  lemma {:induction false} RunStaysOpen(s: P.State, data: seq<byte>)
    requires P.Reachable(s) && !s.Closed?
    ensures !P.Run(s, data).state.Closed?
    decreases |data|
  {
    if data != [] {
      RunStaysOpen(P.Step(s, data[0]).state, data[1..]);
    }
  }

  /**
    In every run: the parser holds nothing of an earlier connection whenever one is made, exactly when
    no chunk with a package that makes the client reconnect ended in the middle of a package.
   */
  lemma {:induction false} AlwaysCleanIff(cs: seq<Client>, es: seq<Event>, ss: seq<P.State>, data: seq<seq<byte>>, n: nat)
    requires IsFed(cs, es, ss, data) && n < |ss|
    ensures (forall i :: 0 <= i <= n ==> Clean(cs[i], ss[i])) <==> (forall i :: 0 <= i < n ==> !CutShort(cs[i], es[i], ss[i], data[i]))
  {
    hide Step, Enabled, P.Run, Reads, CutShort, Clean, H.Good, H.LeftOver;
    if n == 0 {
      FirstIsClean(cs[0], ss[0]);
    } else {
      AlwaysCleanIff(cs, es, ss, data, n - 1);
      StaysOpen(cs, es, ss, data, n - 1);
      Crashes.RunKeeps(cs, es, n - 1);
      Crashes.Alive(cs, es, n - 1);
      if forall i :: 0 <= i <= n - 1 ==> Clean(cs[i], ss[i]) {
        assert Clean(cs[n - 1], ss[n - 1]);
        CleanIff(cs[n - 1], es[n - 1], ss[n - 1], data[n - 1]);
        assert cs[n] == Step(cs[n - 1], es[n - 1]) && ss[n] == Parsed(cs[n - 1], es[n - 1], ss[n - 1], data[n - 1]);
        assert Clean(cs[n], ss[n]) <==> !CutShort(cs[n - 1], es[n - 1], ss[n - 1], data[n - 1]);
      } else {
        var k :| 0 <= k < n - 1 && CutShort(cs[k], es[k], ss[k], data[k]);
        var j :| 0 <= j <= n - 1 && !Clean(cs[j], ss[j]);
      }
    }
  }

  lemma FirstIsClean(c: Client, s: P.State)
    requires s == P.AtHead([])
    ensures Clean(c, s)
  {
  }

  // ---------- a run whose second connection begins behind a byte of the first ----------

  /** A package of no known kind, and the first byte of another. */
  const LEFTOVER: seq<byte> := [9, 0, 0, 0, 4]

  function SpoiledEvents(): seq<Event> {
    [EConnect(UserCb, true), ETcpConnect(0, true, true, true), ERead(0, [Unknown])]
  }

  lemma Spoils()
    ensures Runs.Goes(Runs.Connected(true, UserCb), ERead(0, [Unknown]), Runs.Lost())
  {
    Runs.NoValues();
    var c := Runs.Connected(true, UserCb);
    assert OnPackages(c, [Unknown]) == OnPackage(c, Unknown) by {
      hide OnPackage;
      assert [Unknown][1..] == [];
    }
    hide OnPackages, OnWritten, OnBeatTimer, OnReconnectTimer, OnTcpConnect;
  }

  lemma LeftoverParses()
    ensures P.Run(P.AtHead([]), LEFTOVER) == P.Fed(P.AtHead([4]), [P.Package(9, [])])
  {
    var first: seq<byte> := [9, 0, 0, 0];
    assert LEFTOVER == first + [4];
    P.RunSplit(P.AtHead([]), first, [4]);
    P.RunHeadEnd([], first);
    P.RunOne(P.AtHead([]), 4);
    hide P.Run;
  }

  function SpoiledRun(): seq<Client> {
    [New(true), Runs.Dialed(true, UserCb), Runs.Connected(true, UserCb), Runs.Lost()]
  }

  function SpoiledStates(): seq<P.State> {
    [P.AtHead([]), P.AtHead([]), P.AtHead([]), P.AtHead([4])]
  }

  lemma SpoiledIsRun()
    ensures IsRun(SpoiledRun(), SpoiledEvents())
  {
    Runs.Dials(true, UserCb);
    Runs.Connects(true, UserCb);
    Spoils();
    hide Step, Enabled, Runs.Dialed, Runs.Connected, Runs.Lost;
    assert SpoiledRun()[0] == New(true);
  }

  lemma SpoiledParses(i: nat)
    requires i < 3 && Enabled(SpoiledRun()[i], SpoiledEvents()[i])
    ensures SpoiledStates()[i + 1] == Parsed(SpoiledRun()[i], SpoiledEvents()[i], SpoiledStates()[i], [[], [], LEFTOVER][i])
  {
    if i == 2 {
      LeftoverParses();
    } else {
      Runs.Dials(true, UserCb);
      Runs.Connects(true, UserCb);
    }
    hide Step, Enabled, P.Run;
  }

  /** The client reconnects with a byte of the lost connection in its parser. */
  lemma LeftoverOutlives()
    ensures IsFed(SpoiledRun(), SpoiledEvents(), SpoiledStates(), [[], [], LEFTOVER])
    ensures !Clean(SpoiledRun()[3], SpoiledStates()[3])
  {
    hide Step, Enabled, P.Run, Parsed, Runs.Dialed, Runs.Connected;
    SpoiledIsRun();
    var cs, es, ss, data := SpoiledRun(), SpoiledEvents(), SpoiledStates(), [[], [], LEFTOVER];
    forall i | 0 <= i < |es|
      ensures Enabled(cs[i], es[i]) && ss[i + 1] == Parsed(cs[i], es[i], ss[i], data[i])
    {
      SpoiledParses(i);
    }
    LeftoverParses();
  }
}
