/** Runs of the client that end in a crash, and one in which the handshake timer outlives its connection. */
module ClientRuns {
  import opened Bytes
  import opened Client
  import opened ClientHandles
  import opened ClientChunks
  import opened ClientCrashes

  const QUIET: Timers := Timers(true, false, false, false, false, false, false, false)

  function State(enabled: bool, l: Link, tm: Timers, writes: multiset<Write>, conn: Option<ConnCb>, log: seq<Obs>): Client {
    Client(enabled, l, tm, Work(map[], {}, writes, 0), conn, false, 0, log, false)
  }

  /** A client whose first connection was just made, and the way there. */
  function Dialed(enabled: bool, cb: ConnCb): Client {
    State(enabled, Link(CONNECTING, None, [Transport(TpConnecting, false, false)], map[0 := cb]), QUIET, multiset{}, Some(cb), [])
  }

  function Connected(enabled: bool, cb: ConnCb): Client {
    State(enabled, Link(CONNECTED, Some(0), [Transport(TpWorking, false, false)], map[]), QUIET.(handshake := true),
          multiset{HandshakeWrite(0)}, Some(cb), [])
  }

  predicate Goes(c: Client, e: Event, d: Client) {
    Enabled(c, e) && Step(c, e) == d
  }

  lemma Dials(enabled: bool, cb: ConnCb)
    ensures Goes(New(enabled), EConnect(cb, true), Dialed(enabled, cb))
  {
    hide OnPackages, OnWritten, Stop;
  }

  lemma Connects(enabled: bool, cb: ConnCb)
    ensures Goes(Dialed(enabled, cb), ETcpConnect(0, true, true, true), Connected(enabled, cb))
  {
    hide OnPackages, OnWritten, Stop;
  }

  /** A heartbeat is sent, and its write fails. */
  function BeatEvents(): seq<Event> {
    [EConnect(UserCb, true), ETcpConnect(0, true, true, true), ERead(0, [Handshake(true, Some(3), true, true)]),
     EWritten(AckWrite(0), true), EBeatTimer(true), EWritten(BeatWrite, false)]
  }

  function Shaken(): Client {
    State(false, Link(CONNECTED, Some(0), [Transport(TpWorking, true, false)], map[]), QUIET.(beat := true, repeats := true),
          multiset{HandshakeWrite(0), AckWrite(0)}, Some(UserCb), [BeatHeard])
  }

  function Greeting(): Client {
    State(false, Link(WORKING, Some(0), [Transport(TpWorking, true, true)], map[]), QUIET.(beat := true, repeats := true),
          multiset{HandshakeWrite(0)}, None, [BeatHeard])
  }

  function Beating(): Client {
    State(false, Link(WORKING, Some(0), [Transport(TpWorking, true, true)], map[]), QUIET.(timeout := true, repeats := true),
          multiset{HandshakeWrite(0), BeatWrite}, None, [BeatHeard, BeatSent(0)])
  }

  lemma Shakes()
    ensures Goes(Connected(false, UserCb), EventAt(2), Shaken())
  {
    hide Stop;
    OnePackage(Connected(false, UserCb), Handshake(true, Some(3), true, true));
  }

  function EventAt(i: nat): Event
    requires i < 6
  {
    BeatEvents()[i]
  }

  lemma OnePackage(c: Client, p: Pkg)
    requires !c.crashed
    ensures OnPackages(c, [p]) == OnPackage(c, p)
  {
    hide OnPackage;
    assert [p][1..] == [];
  }

  lemma Greets()
    ensures Goes(Shaken(), EventAt(3), Greeting())
  {
    hide OnPackages, Stop;
  }

  lemma Beats()
    ensures Goes(Greeting(), EventAt(4), Beating())
  {
    hide OnPackages, Stop, OnWritten;
  }

  /** A run in which the failed write of a heartbeat makes the callback take the transport for the client. */
  lemma HeartbeatWriteCrashes()
    ensures exists cs: seq<Client> :: IsRun(cs, BeatEvents()) && cs[6].crashed
  {
    hide Step, Enabled, Dialed, Connected, Shaken, Greeting, Beating;
    Dials(false, UserCb);
    Connects(false, UserCb);
    Shakes();
    Greets();
    Beats();
    WriteFails();
    var es := BeatEvents();
    var cs := [New(false), Dialed(false, UserCb), Connected(false, UserCb), Shaken(), Greeting(), Beating(), Step(Beating(), EventAt(5))];
    assert cs[0] == New(false);
    forall i | 0 <= i < |es|
      ensures Enabled(cs[i], es[i]) && cs[i + 1] == Step(cs[i], es[i])
    {
      assert es[i] == EventAt(i);
    }
    assert IsRun(cs, es);
  }

  lemma WriteFails()
    ensures Enabled(Beating(), EventAt(5)) && Step(Beating(), EventAt(5)).crashed
  {
    hide OnPackages, Stop, OnBeatTimer, OnReconnectTimer, OnTcpConnect;
  }

  lemma NoValues()
    ensures var m: map<nat, Req> := map[]; m.Values == {}
  {
  }

  /** Disconnecting a client that is closed. */
  function TwiceEvents(): seq<Event> { [EDisconnect, EClose, EDisconnect] }

  lemma SecondDisconnectCrashes()
    ensures exists cs: seq<Client> :: IsRun(cs, TwiceEvents()) && cs[3].crashed
  {
    hide OnPackages, OnWritten, OnTcpConnect, OnBeatTimer, OnReconnectTimer;
    var es := TwiceEvents();
    var c0 := New(false);
    var c1 := c0.(link := c0.link.(st := DISCONNECTING), timers := QUIET.(closeRequested := true));
    var c2 := c0.(link := c0.link.(st := CLOSED), timers := QUIET.(open := false));
    assert Goes(c0, es[0], c1);
    assert Goes(c1, es[1], c2);
    var cs := [c0, c1, c2, Step(c2, es[2])];
    assert IsRun(cs, es);
  }

  /** A heartbeat that comes, in one chunk, after a package that closed the client. */
  function ChunkEvents(): seq<Event> {
    [EConnect(UserCb, true), ETcpConnect(0, true, true, true), ERead(0, [Unknown, HeartbeatPkg])]
  }

  lemma LateHeartbeatCrashes()
    ensures exists cs: seq<Client> :: IsRun(cs, ChunkEvents()) && cs[3].crashed
  {
    hide OnPackages, OnWritten, OnBeatTimer, OnTcpConnect, OnReconnectTimer, Stop, Fatal;
    Dials(false, UserCb);
    Connects(false, UserCb);
    var es := ChunkEvents();
    var c := Connected(false, UserCb);
    assert Enabled(c, es[2]);
    var cs := [New(false), Dialed(false, UserCb), c, Step(c, es[2])];
    assert IsRun(cs, es) by { hide Step, Enabled, Dialed, Connected; }
    FatalHead(c.work.requests.Keys, es[2].pkgs);
    assert Fatal(c.work.requests.Keys, es[2].pkgs, 0) && Late(c, es[2].pkgs, 1);
    RunCrashIff(cs, es, 2);
  }

  /** The client that may reconnect is connected, and asked to disconnect. */
  function Leaving(cb: ConnCb): Client {
    var c := Connected(true, cb);
    c.(link := c.link.(st := DISCONNECTING), timers := c.timers.(closeRequested := true))
  }

  lemma Leaves(cb: ConnCb)
    ensures Goes(Connected(true, cb), EDisconnect, Leaving(cb))
  {
    hide OnPackages, OnWritten, OnBeatTimer, OnTcpConnect, OnReconnectTimer, Stop;
  }

  function LeavingEvents(cb: ConnCb, last: Event): seq<Event> {
    [EConnect(cb, true), ETcpConnect(0, true, true, true), EDisconnect, last]
  }

  lemma LeavingCrashes(cb: ConnCb, last: Event)
    requires Enabled(Leaving(cb), last) && Crashes(Leaving(cb), last)
    ensures exists cs: seq<Client> :: IsRun(cs, LeavingEvents(cb, last)) && cs[4].crashed
  {
    hide Step, Enabled, Dialed, Connected, Leaving, Crashes;
    Dials(true, cb);
    Connects(true, cb);
    Leaves(cb);
    var es := LeavingEvents(cb, last);
    var cs := [New(true), Dialed(true, cb), Connected(true, cb), Leaving(cb), Step(Leaving(cb), last)];
    assert cs[0] == New(true);
    assert IsRun(cs, es);
    RunCrashIff(cs, es, 3);
  }

  /** Two packages that stop the client: the first closes it, the second starts its closed reconnect timer. */
  lemma LatePackageCrashes()
    ensures exists cs: seq<Client> :: IsRun(cs, LeavingEvents(UserCb, ERead(0, [Unknown, Unknown]))) && cs[4].crashed
  {
    hide OnPackages, Fatal, Answered;
    var c, ps := Leaving(UserCb), [Unknown, Unknown];
    var keys := c.work.requests.Keys;
    FatalHead(keys, ps);
    FatalTail(keys, ps, 1);
    FatalHead(keys - Answered([ps[0]]), ps[1..]);
    assert Fatal(keys, ps, 0) && Late(c, ps, 1);
    LeavingCrashes(UserCb, ERead(0, ps));
  }

  /** The handshake cannot be written: the client is closed, and the callback of its connect request stops it once more. */
  lemma LateHandshakeCrashes()
    ensures exists cs: seq<Client> :: IsRun(cs, LeavingEvents(ConnectedCb, EWritten(HandshakeWrite(0), false))) && cs[4].crashed
  {
    LeavingCrashes(ConnectedCb, EWritten(HandshakeWrite(0), false));
  }

  /** A connect that completes after the client was closed. */
  function LateEvents(): seq<Event> {
    [EConnect(ConnectedCb, true), EDisconnect, EClose, ETcpConnect(0, true, true, true)]
  }

  function LateRun(): seq<Client> {
    var l := Link(CONNECTING, None, [Transport(TpConnecting, false, false)], map[0 := ConnectedCb]);
    [ New(true),
      Dialed(true, ConnectedCb),
      State(true, l.(st := DISCONNECTING), QUIET.(closeRequested := true), multiset{}, Some(ConnectedCb), []),
      State(true, l.(st := CLOSED), QUIET.(open := false, reconnectClosed := true), multiset{}, Some(ConnectedCb), []) ]
  }

  lemma LateGoes1()
    ensures Goes(LateRun()[1], LateEvents()[1], LateRun()[2])
  {
    hide OnPackages, OnWritten, OnBeatTimer, OnReconnectTimer, OnTcpConnect, Stop;
  }

  lemma LateGoes2()
    ensures Goes(LateRun()[2], LateEvents()[2], LateRun()[3])
  {
    hide OnPackages, OnWritten, OnBeatTimer, OnReconnectTimer, OnTcpConnect;
  }

  lemma LateCrash()
    ensures Enabled(LateRun()[3], LateEvents()[3]) && Crashes(LateRun()[3], LateEvents()[3])
  {
  }

  lemma LateReconnectionCrashes()
    ensures exists cs: seq<Client> :: IsRun(cs, LateEvents()) && cs[4].crashed
  {
    hide Step, Enabled, Crashes;
    var es, rs := LateEvents(), LateRun();
    LateCrash();
    var cs := rs + [Step(rs[3], es[3])];
    Dials(true, ConnectedCb);
    LateGoes1();
    LateGoes2();
    forall i | 0 <= i < |es|
      ensures Enabled(cs[i], es[i]) && cs[i + 1] == Step(cs[i], es[i])
    {
    }
    assert cs[0] == New(true);
    RunCrashIff(cs, es, 3);
  }

  /** A run after which the handshake timer of the lost connection is still active. */
  function LostEvents(): seq<Event> {
    [EConnect(UserCb, true), ETcpConnect(0, true, true, true), EReadError(0)]
  }

  function Lost(): Client {
    State(true, Link(INITED, None, [Transport(TpClosed, false, false)], map[]), QUIET.(handshake := true, reconnect := true),
          multiset{HandshakeWrite(0)}, Some(UserCb), [Failure({})]).(reconnecting := true, reconnects := 1)
  }

  lemma HandshakeTimerOutlives()
    ensures IsRun([New(true), Dialed(true, UserCb), Connected(true, UserCb), Lost()], LostEvents())
    ensures Lost().timers.handshake && Lost().link.st == INITED && Enabled(Lost(), EHandshakeTimer)
  {
    Dials(true, UserCb);
    Connects(true, UserCb);
    Loses();
    hide Step, Dialed, Connected;
    var cs, es := [New(true), Dialed(true, UserCb), Connected(true, UserCb), Lost()], LostEvents();
    assert cs[0] == New(true);
  }

  lemma Loses()
    ensures Goes(Connected(true, UserCb), EReadError(0), Lost())
  {
    NoValues();
    hide OnPackages, OnWritten, OnBeatTimer, OnReconnectTimer, OnTcpConnect;
  }
}
