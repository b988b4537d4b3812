/**
  Which steps of the client use a handle that is gone, or memory of the wrong type, in any run; and
  what the handshake timer that outlives a connection can do.
 */
module ClientCrashes {
  import opened Bytes
  import opened Client
  import T = ClientTransport
  import opened ClientHandles
  import opened ClientChunks

  /**
    What can be told of a step beforehand. The write of a heartbeat fails; a closed client is asked to
    disconnect; a failed connect, or a failed handshake of a client that is disconnecting, makes a client
    that may reconnect stop once more after it was closed; a package comes behind one that closed the client.
   */
  ghost predicate Crashes(c: Client, e: Event) {
    match e
    case EDisconnect => !c.timers.open
    case EWritten(w, ok) => CompletionCrashes(c, w, ok)
    case ETcpConnect(t, _, _, _) => t in c.link.connects && CallbackCrashes(c, c.link.connects[t])
    case ERead(_, ps) => ClosedTooEarly(c, ps)
    case _ => false
  }

  ghost predicate Ready(c: Client, e: Event) {
    Good(c) && LeftOver(c) && Enabled(c, e)
  }

  ghost predicate Outcome(c: Client, e: Event)
    requires Enabled(c, e)
  {
    Inv(Step(c, e)) && (Step(c, e).crashed <==> Crashes(c, e))
  }

  lemma ConnectOutcome(c: Client, e: Event)
    requires Ready(c, e) && e.EConnect?
    ensures Outcome(c, e)
  {
    hide T.Sound, Greeted, Handles, Stop, Connect, OnTcpConnect, OnPackages, OnBeatTimer, OnTimeout, OnHandshakeTimer, OnReconnectTimer, MakeRequest, SendRequest, OnWritten, Disconnect, ClosedTooEarly, CompletionCrashes, CallbackCrashes;
    ConnectIsSafe(c, e.cb, e.dialed);
  }

  lemma TcpConnectOutcome(c: Client, e: Event)
    requires Ready(c, e) && e.ETcpConnect?
    ensures Outcome(c, e)
  {
    hide T.Sound, Greeted, Handles, Stop, Connect, OnTcpConnect, OnPackages, OnBeatTimer, OnTimeout, OnHandshakeTimer, OnReconnectTimer, MakeRequest, SendRequest, OnWritten, Disconnect, ClosedTooEarly, CompletionCrashes, CallbackCrashes;
    TcpConnectCrashIff(c, e.tp, e.ok, e.reading, e.sent);
  }

  lemma ReadOutcome(c: Client, e: Event)
    requires Ready(c, e) && e.ERead?
    ensures Outcome(c, e)
  {
    hide T.Sound, Greeted, Handles, Stop, Connect, OnTcpConnect, OnPackages, OnBeatTimer, OnTimeout, OnHandshakeTimer, OnReconnectTimer, MakeRequest, SendRequest, OnWritten, Disconnect, ClosedTooEarly, CompletionCrashes, CallbackCrashes;
    WorkingHasTransport(c);
    ChunkOutcome(c, e.pkgs);
  }

  lemma ReadErrorOutcome(c: Client, e: Event)
    requires Ready(c, e) && e.EReadError?
    ensures Outcome(c, e)
  {
    hide T.Sound, Greeted, Handles, Stop, Connect, OnTcpConnect, OnPackages, OnBeatTimer, OnTimeout, OnHandshakeTimer, OnReconnectTimer, MakeRequest, SendRequest, OnWritten, Disconnect, ClosedTooEarly, CompletionCrashes, CallbackCrashes;
    ReadErrorIsSafe(c, e.tp);
  }

  lemma BeatTimerOutcome(c: Client, e: Event)
    requires Ready(c, e) && e.EBeatTimer?
    ensures Outcome(c, e)
  {
    hide T.Sound, Greeted, Handles, Stop, Connect, OnTcpConnect, OnPackages, OnBeatTimer, OnTimeout, OnHandshakeTimer, OnReconnectTimer, MakeRequest, SendRequest, OnWritten, Disconnect, ClosedTooEarly, CompletionCrashes, CallbackCrashes;
    BeatTimerIsSafe(c, e.sent);
  }

  lemma TimeoutTimerOutcome(c: Client, e: Event)
    requires Ready(c, e) && e.ETimeoutTimer?
    ensures Outcome(c, e)
  {
    hide T.Sound, Greeted, Handles, Stop, Connect, OnTcpConnect, OnPackages, OnBeatTimer, OnTimeout, OnHandshakeTimer, OnReconnectTimer, MakeRequest, SendRequest, OnWritten, Disconnect, ClosedTooEarly, CompletionCrashes, CallbackCrashes;
    TimeoutIsSafe(c);
  }

  lemma HandshakeTimerOutcome(c: Client, e: Event)
    requires Ready(c, e) && e.EHandshakeTimer?
    ensures Outcome(c, e)
  {
    hide T.Sound, Greeted, Handles, Stop, Connect, OnTcpConnect, OnPackages, OnBeatTimer, OnTimeout, OnHandshakeTimer, OnReconnectTimer, MakeRequest, SendRequest, OnWritten, Disconnect, ClosedTooEarly, CompletionCrashes, CallbackCrashes;
    HandshakeTimerIsSafe(c);
  }

  lemma ReconnectTimerOutcome(c: Client, e: Event)
    requires Ready(c, e) && e.EReconnectTimer?
    ensures Outcome(c, e)
  {
    hide T.Sound, Greeted, Handles, Stop, Connect, OnTcpConnect, OnPackages, OnBeatTimer, OnTimeout, OnHandshakeTimer, OnReconnectTimer, MakeRequest, SendRequest, OnWritten, Disconnect, ClosedTooEarly, CompletionCrashes, CallbackCrashes;
    ReconnectTimerIsSafe(c, e.resolved, e.dialed);
  }

  lemma RequestOutcome(c: Client, e: Event)
    requires Ready(c, e) && e.ERequest?
    ensures Outcome(c, e)
  {
    hide T.Sound, Greeted, Handles, Stop, Connect, OnTcpConnect, OnPackages, OnBeatTimer, OnTimeout, OnHandshakeTimer, OnReconnectTimer, MakeRequest, SendRequest, OnWritten, Disconnect, ClosedTooEarly, CompletionCrashes, CallbackCrashes;
    RequestIsSafe(c);
  }

  lemma SendOutcome(c: Client, e: Event)
    requires Ready(c, e) && e.ESend?
    ensures Outcome(c, e)
  {
    hide T.Sound, Greeted, Handles, Stop, Connect, OnTcpConnect, OnPackages, OnBeatTimer, OnTimeout, OnHandshakeTimer, OnReconnectTimer, MakeRequest, SendRequest, OnWritten, Disconnect, ClosedTooEarly, CompletionCrashes, CallbackCrashes;
    SendIsSafe(c, e.req, e.encoded, e.sent);
  }

  lemma WrittenOutcome(c: Client, e: Event)
    requires Ready(c, e) && e.EWritten?
    ensures Outcome(c, e)
  {
    hide T.Sound, Greeted, Handles, Stop, Connect, OnTcpConnect, OnPackages, OnBeatTimer, OnTimeout, OnHandshakeTimer, OnReconnectTimer, MakeRequest, SendRequest, OnWritten, Disconnect, ClosedTooEarly, CompletionCrashes, CallbackCrashes;
    WrittenCrashIff(c, e.write, e.ok);
  }

  lemma DisconnectOutcome(c: Client, e: Event)
    requires Ready(c, e) && e.EDisconnect?
    ensures Outcome(c, e)
  {
    hide T.Sound, Greeted, Handles, Stop, Connect, OnTcpConnect, OnPackages, OnBeatTimer, OnTimeout, OnHandshakeTimer, OnReconnectTimer, MakeRequest, SendRequest, OnWritten, Disconnect, ClosedTooEarly, CompletionCrashes, CallbackCrashes;
    DisconnectCrashIff(c);
  }

  lemma CloseOutcome(c: Client, e: Event)
    requires Ready(c, e) && e.EClose?
    ensures Outcome(c, e)
  {
    hide T.Sound, Greeted, Handles, Stop, Connect, OnTcpConnect, OnPackages, OnBeatTimer, OnTimeout, OnHandshakeTimer, OnReconnectTimer, MakeRequest, SendRequest, OnWritten, Disconnect, ClosedTooEarly, CompletionCrashes, CallbackCrashes;
    CloseIsSafe(c);
  }

  /** Under what every run keeps, a step crashes if and only if its guard holds. */
  lemma CrashIff(c: Client, e: Event)
    requires Ready(c, e)
    ensures Inv(Step(c, e)) && (Step(c, e).crashed <==> Crashes(c, e))
  {
    hide Good, LeftOver, Step, Crashes, Enabled;
    match e
    case EConnect(_, _) => ConnectOutcome(c, e);
    case ETcpConnect(_, _, _, _) => TcpConnectOutcome(c, e);
    case ERead(_, _) => ReadOutcome(c, e);
    case EReadError(_) => ReadErrorOutcome(c, e);
    case EBeatTimer(_) => BeatTimerOutcome(c, e);
    case ETimeoutTimer => TimeoutTimerOutcome(c, e);
    case EHandshakeTimer => HandshakeTimerOutcome(c, e);
    case EReconnectTimer(_, _) => ReconnectTimerOutcome(c, e);
    case ERequest => RequestOutcome(c, e);
    case ESend(_, _, _) => SendOutcome(c, e);
    case EWritten(_, _) => WrittenOutcome(c, e);
    case EDisconnect => DisconnectOutcome(c, e);
    case EClose => CloseOutcome(c, e);
  }

  // ---------- whole runs ----------

  lemma {:induction false} RunKeeps(cs: seq<Client>, es: seq<Event>, n: nat)
    requires IsRun(cs, es) && n < |cs|
    ensures Inv(cs[n])
  {
    hide Step, Good, LeftOver, Enabled, Crashes;
    if n == 0 {
      var b :| cs[0] == New(b);
      NewIsGood(b);
    } else {
      RunKeeps(cs, es, n - 1);
      Alive(cs, es, n - 1);
      CrashIff(cs[n - 1], es[n - 1]);
    }
  }

  lemma Alive(cs: seq<Client>, es: seq<Event>, n: nat)
    requires IsRun(cs, es) && n < |es|
    ensures !cs[n].crashed
  {
    hide Step;
  }

  /** In every run a step uses a handle that is gone, or memory of the wrong type, exactly when its guard holds. */
  lemma RunCrashIff(cs: seq<Client>, es: seq<Event>, n: nat)
    requires IsRun(cs, es) && n < |es|
    ensures cs[n + 1].crashed <==> Crashes(cs[n], es[n])
  {
    hide Step, Good, LeftOver, Enabled, Crashes;
    RunKeeps(cs, es, n);
    Alive(cs, es, n);
    CrashIff(cs[n], es[n]);
  }

  /**
    In every run, what becomes of a client that reads a chunk: it stays in its state when no package is
    fatal at its turn, such as a response whose id is not outstanding; otherwise it is closed, or starts
    to reconnect, or stays as it is when it is reconnecting already.
   */
  lemma RunReads(cs: seq<Client>, es: seq<Event>, n: nat)
    requires IsRun(cs, es) && n < |es| && es[n].ERead?
    ensures var c := cs[n];
      cs[n + 1].link.st == if !AnyFatal(c.work.requests.Keys, es[n].pkgs) then c.link.st
                           else if !c.reconnectEnabled || c.link.st == DISCONNECTING then CLOSED
                           else if c.reconnecting then c.link.st else INITED
  {
    hide Good, LeftOver, AnyFatal, ClosedTooEarly, OnPackages;
    RunKeeps(cs, es, n);
    var c := cs[n];
    assert Working(c, es[n].tp) && cs[n + 1] == OnPackages(c, es[n].pkgs);
    WorkingState(c, es[n].tp);
    ChunkOutcome(c, es[n].pkgs);
  }

  lemma WorkingState(c: Client, t: nat)
    requires Good(c) && Working(c, t)
    ensures T.Live(c.link.st) || c.link.st == DISCONNECTING
  {
    WorkingHasTransport(c);
  }

  /**
    In every run, when the handshake timer fires: before a connection is made it is a left-over one, and
    nothing happens but that the application is told; on a connection no handshake was acknowledged; it
    does not fire on a working or closed client. So it never stops a connection that was greeted.
   */
  lemma HandshakeTimerFires(cs: seq<Client>, es: seq<Event>, n: nat)
    requires IsRun(cs, es) && n < |es| && es[n].EHandshakeTimer?
    ensures var c := cs[n];
      && c.link.st != WORKING && c.link.st != CLOSED
      && (Starting(c.link.st) ==> cs[n + 1] == c.(timers := c.timers.(handshake := false), log := c.log + [GreetingTimedOut]))
      && (c.link.st == CONNECTED ==> c.link.transport.Some? && Working(c, c.link.transport.value) && !c.link.tps[c.link.transport.value].handshaken)
  {
    hide OnPackages, OnWritten, OnTcpConnect, OnBeatTimer, OnReconnectTimer, Good, OnHandshakeTimer;
    RunKeeps(cs, es, n);
    FiringTimer(cs[n]);
  }

  lemma FiringTimer(c: Client)
    requires Good(c) && LeftOver(c) && c.timers.handshake
    ensures c.link.st != WORKING && c.link.st != CLOSED
    ensures Starting(c.link.st) ==>
      OnHandshakeTimer(c) == c.(timers := c.timers.(handshake := false), log := c.log + [GreetingTimedOut])
    ensures c.link.st == CONNECTED ==>
      c.link.transport.Some? && Working(c, c.link.transport.value) && !c.link.tps[c.link.transport.value].handshaken
  {
  }
}
