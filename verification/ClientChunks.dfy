/**
  What the packages of one chunk do to the client. All of them are handled, even those behind one that
  stopped it; what becomes of the client can be told from the packages and the outstanding ids alone.
 */
module ClientChunks {
  import opened Bytes
  import opened Client
  import T = ClientTransport
  import opened ClientHandles

  /** These are handled with the timers. */
  predicate NeedsTimers(p: Pkg) { p.Handshake? || p.HeartbeatPkg? }

  /** These stop the client, when the ids in `reqs` are outstanding. */
  predicate Stopping(reqs: set<nat>, p: Pkg) {
    || p.Unknown?
    || (p.Handshake? && !p.code200)
    || (p.Data? && (!p.readable || (p.isResponse && p.id !in reqs)))
  }

  /** The ids that are answered by messages of the chunk. */
  function Answered(ps: seq<Pkg>): set<nat> {
    set p | p in ps && p.Data? && p.readable && p.id > 0 :: p.id
  }

  /** The `i`-th package is one that stops the client at its turn. */
  predicate Fatal(reqs: set<nat>, ps: seq<Pkg>, i: nat)
    requires i < |ps|
  {
    Stopping(reqs - Answered(ps[..i]), ps[i])
  }

  ghost predicate AnyFatal(reqs: set<nat>, ps: seq<Pkg>) {
    exists i :: 0 <= i < |ps| && Fatal(reqs, ps, i)
  }

  /** The `j`-th package uses a handle of a client that is closed: its timers, or the reconnect timer. */
  predicate Late(c: Client, ps: seq<Pkg>, j: nat)
    requires j < |ps|
  {
    NeedsTimers(ps[j]) || (Fatal(c.work.requests.Keys, ps, j) && c.reconnectEnabled && !c.reconnecting)
  }

  ghost predicate AnyLate(c: Client, ps: seq<Pkg>) {
    exists j :: 0 <= j < |ps| && Late(c, ps, j)
  }

  /** Behind a package that closes the client there is one that uses its handles. */
  ghost predicate ClosedTooEarly(c: Client, ps: seq<Pkg>) {
    StopCloses(c) && exists i, j :: 0 <= i < j < |ps| && Fatal(c.work.requests.Keys, ps, i) && Late(c, ps, j)
  }

  lemma FatalTail(reqs: set<nat>, ps: seq<Pkg>, i: nat)
    requires 0 < i < |ps|
    ensures Fatal(reqs, ps, i) <==> Fatal(reqs - Answered([ps[0]]), ps[1..], i - 1)
  {
    var head, tail := [ps[0]], ps[1..][..i - 1];
    assert ps[..i] == head + tail;
    assert Answered(head + tail) == Answered(head) + Answered(tail);
    assert reqs - Answered(ps[..i]) == reqs - Answered(head) - Answered(tail);
  }

  lemma FatalHead(reqs: set<nat>, ps: seq<Pkg>)
    requires ps != []
    ensures Fatal(reqs, ps, 0) <==> Stopping(reqs, ps[0])
  {
    assert reqs - Answered(ps[..0]) == reqs;
  }

  lemma AnyFatalStep(reqs: set<nat>, ps: seq<Pkg>)
    requires ps != []
    ensures AnyFatal(reqs, ps) <==> Stopping(reqs, ps[0]) || AnyFatal(reqs - Answered([ps[0]]), ps[1..])
  {
    hide Stopping, Fatal, Answered;
    FatalHead(reqs, ps);
    var reqs1, rest := reqs - Answered([ps[0]]), ps[1..];
    if AnyFatal(reqs1, rest) {
      var i :| 0 <= i < |rest| && Fatal(reqs1, rest, i);
      FatalTail(reqs, ps, i + 1);
    }
    if i :| 0 < i < |ps| && Fatal(reqs, ps, i) {
      FatalTail(reqs, ps, i);
    }
  }

  /** From `c` to `d` a package was handled that left the client as it is. */
  ghost predicate Moved(c: Client, p: Pkg, d: Client) {
    && d.reconnectEnabled == c.reconnectEnabled && d.reconnecting == c.reconnecting && d.link.st == c.link.st
    && d.timers.open == c.timers.open && d.work.requests.Keys == c.work.requests.Keys - Answered([p])
  }

  lemma LateStep(c: Client, d: Client, ps: seq<Pkg>, j: nat)
    requires 0 < j < |ps| && Moved(c, ps[0], d)
    ensures Late(c, ps, j) <==> Late(d, ps[1..], j - 1)
  {
    hide Answered, Fatal;
    FatalTail(c.work.requests.Keys, ps, j);
  }

  lemma AnyLateStep(c: Client, d: Client, ps: seq<Pkg>)
    requires ps != [] && Moved(c, ps[0], d)
    ensures AnyLate(c, ps) <==> Late(c, ps, 0) || AnyLate(d, ps[1..])
  {
    hide Late, Moved;
    var rest := ps[1..];
    if AnyLate(d, rest) {
      var j :| 0 <= j < |rest| && Late(d, rest, j);
      LateStep(c, d, ps, j + 1);
    }
    if j :| 0 < j < |ps| && Late(c, ps, j) {
      LateStep(c, d, ps, j);
    }
  }

  // ---------- one package ----------

  lemma AcknowledgeIsSafe(c: Client, sent: bool)
    requires Good(c) && LeftOver(c) && !c.timers.handshake
    ensures var d := Acknowledge(c, sent); Good(d) && LeftOver(d) && d.timers == c.timers && d.link.st == c.link.st
    ensures var d := Acknowledge(c, sent);
      d.reconnectEnabled == c.reconnectEnabled && d.reconnecting == c.reconnecting && d.work.requests == c.work.requests
  {
    T.AcknowledgeKeeps(c, sent);
    if c.link.transport.Some? && T.Live(c.link.st) {
      var t := c.link.transport.value;
      var marked := Marked(c.link.tps, t);
      assert forall u: nat :: IsWorking(marked, u) <==> IsWorking(c.link.tps, u);
    }
  }

  lemma HeartbeatIsSafe(c: Client)
    requires Good(c) && LeftOver(c) && c.timers.open
    ensures Good(Heartbeat(c)) && LeftOver(Heartbeat(c))
  {
    hide T.Sound, Greeted;
  }

  lemma ConfiguredIsSafe(c: Client, p: Pkg)
    requires Good(c) && LeftOver(c) && p.Handshake?
    ensures var d := c.(timers := Configured(c.timers, p)); Good(d) && LeftOver(d)
  {
    hide T.Sound;
  }

  lemma NothingAnswered(p: Pkg)
    ensures Answered([p]) == if p.Data? && p.readable && p.id > 0 then {p.id} else {}
  {
    assert forall q :: q in [p] <==> q == p;
  }

  lemma ShakeMoves(c: Client, p: Pkg)
    requires Good(c) && LeftOver(c) && c.timers.open && p.Handshake? && p.code200
    ensures var d := HandshakeResp(c, p); Good(d) && LeftOver(d) && Moved(c, p, d)
  {
    hide Good, LeftOver, Acknowledge, Answered;
    var c1 := c.(timers := Configured(c.timers, p));
    ConfiguredIsSafe(c, p);
    NothingAnswered(p);
    var c2 := if p.accepted then Acknowledge(c1, p.sent) else c1;
    AcknowledgeIsSafe(c1, p.sent);
    assert !c2.crashed by { NotCrashed(c2); }
    HeartbeatIsSafe(c2);
  }

  /** A package that does not stop the client leaves its state as it is. */
  lemma QuietPackage(c: Client, p: Pkg)
    requires Good(c) && LeftOver(c) && c.timers.open && !Stopping(c.work.requests.Keys, p)
    ensures var d := OnPackage(c, p); Good(d) && LeftOver(d) && Moved(c, p, d)
  {
    hide T.Sound, Greeted, HandshakeResp, Stop, Answered;
    NothingAnswered(p);
    if p.Handshake? {
      ShakeMoves(c, p);
    } else if p.HeartbeatPkg? {
      HeartbeatIsSafe(c);
    }
  }

  /** One that does, stops it, as it is or with the handshake timer stopped. */
  lemma StopPackage(c: Client, p: Pkg)
    requires Good(c) && LeftOver(c) && c.timers.open && Stopping(c.work.requests.Keys, p)
    ensures var d := OnPackage(c, p); Good(d) && LeftOver(d) && d.link.st == StoppedState(c)
    ensures var d := OnPackage(c, p);
      && d.reconnectEnabled == c.reconnectEnabled
      && (d.reconnecting <==> c.reconnecting || (c.reconnectEnabled && c.link.st != DISCONNECTING))
      && (!d.timers.open <==> StopCloses(c))
      && (StopCloses(c) ==> d.work == c.work)
  {
    hide T.Sound, Greeted, Stop;
    if p.Handshake? {
      var c1 := c.(timers := Configured(c.timers, p));
      ConfiguredIsSafe(c, p);
      StopCrashIff(c1);
      StopFlags(c1);
    } else {
      StopCrashIff(c);
      StopFlags(c);
    }
  }

  /** A package for a client that is closed. */
  lemma ClosedPackage(c: Client, ps: seq<Pkg>)
    requires Good(c) && !c.timers.open && ps != []
    ensures var d := OnPackage(c, ps[0]); (d.crashed <==> Late(c, ps, 0)) && d.link.st == CLOSED
    ensures var d := OnPackage(c, ps[0]); !d.crashed ==> Good(d) && LeftOver(d) && Moved(c, ps[0], d)
  {
    hide T.Sound, Greeted, Stop, Answered, Cleared, Fatal;
    FatalHead(c.work.requests.Keys, ps);
    NothingAnswered(ps[0]);
    ClosedStop(c);
  }

  lemma ClosedStop(c: Client)
    requires Good(c) && !c.timers.open
    ensures Stop(c) == if c.reconnectEnabled && !c.reconnecting then Crash(c) else c
  {
    hide T.Sound, Greeted;
  }

  // ---------- the packages of a chunk ----------

  /** Nothing stops a client that is reconnecting already. */
  lemma {:induction false} IdlePackages(c: Client, ps: seq<Pkg>)
    requires Good(c) && LeftOver(c) && c.timers.open && c.reconnectEnabled && c.reconnecting && c.link.st != DISCONNECTING
    ensures var d := OnPackages(c, ps); Good(d) && LeftOver(d) && d.link.st == c.link.st
    decreases |ps|
  {
    hide OnPackage, Good, LeftOver, Stopping, Answered;
    assert !c.crashed by { NotCrashed(c); }
    if ps != [] {
      if Stopping(c.work.requests.Keys, ps[0]) {
        StopPackage(c, ps[0]);
      } else {
        QuietPackage(c, ps[0]);
      }
      IdlePackages(OnPackage(c, ps[0]), ps[1..]);
    }
  }

  lemma {:induction false} ClosedPackages(c: Client, ps: seq<Pkg>)
    requires Good(c) && LeftOver(c) && !c.timers.open
    ensures var d := OnPackages(c, ps); Inv(d) && (d.crashed <==> AnyLate(c, ps)) && d.link.st == CLOSED
    decreases |ps|
  {
    assert c.link.st == CLOSED && !c.crashed;
    hide OnPackage, Good, LeftOver, Late;
    if ps != [] {
      var d := OnPackage(c, ps[0]);
      ClosedPackage(c, ps);
      if d.crashed {
        assert AnyLate(c, ps);
      } else {
        AnyLateStep(c, d, ps);
        ClosedPackages(d, ps[1..]);
      }
    }
  }

  lemma TooEarlyQuiet(c: Client, d: Client, ps: seq<Pkg>)
    requires ps != [] && Moved(c, ps[0], d) && !Stopping(c.work.requests.Keys, ps[0])
    ensures ClosedTooEarly(c, ps) <==> ClosedTooEarly(d, ps[1..])
  {
    hide Late, Stopping, Fatal, Answered;
    var keys, rest := c.work.requests.Keys, ps[1..];
    FatalHead(keys, ps);
    if i, j :| 0 <= i < j < |rest| && Fatal(d.work.requests.Keys, rest, i) && Late(d, rest, j) {
      FatalTail(keys, ps, i + 1);
      LateStep(c, d, ps, j + 1);
    }
    if i, j :| 0 <= i < j < |ps| && Fatal(keys, ps, i) && Late(c, ps, j) {
      FatalTail(keys, ps, i);
      LateStep(c, d, ps, j);
    }
  }

  /** The first package closes the client. */
  lemma TooEarlyClosed(c: Client, d: Client, ps: seq<Pkg>)
    requires ps != [] && Stopping(c.work.requests.Keys, ps[0]) && StopCloses(c)
    requires d.reconnectEnabled == c.reconnectEnabled && d.reconnecting == c.reconnecting && d.work == c.work
    ensures ClosedTooEarly(c, ps) <==> AnyLate(d, ps[1..])
  {
    hide Late, Stopping, Answered, Fatal;
    var keys, rest := c.work.requests.Keys, ps[1..];
    FatalHead(keys, ps);
    if AnyLate(d, rest) {
      var j :| 0 <= j < |rest| && Late(d, rest, j);
      LateSame(c, d, ps, j + 1);
      assert Fatal(keys, ps, 0) && Late(c, ps, j + 1);
    }
    if i, j :| 0 <= i < j < |ps| && Fatal(keys, ps, i) && Late(c, ps, j) {
      LateSame(c, d, ps, j);
      assert Late(d, rest, j - 1);
    }
  }

  /** The package that closed the client answered nothing. */
  lemma LateSame(c: Client, d: Client, ps: seq<Pkg>, j: nat)
    requires 0 < j < |ps| && Stopping(c.work.requests.Keys, ps[0])
    requires d.reconnectEnabled == c.reconnectEnabled && d.reconnecting == c.reconnecting && d.work == c.work
    ensures Late(c, ps, j) <==> Late(d, ps[1..], j - 1)
  {
    hide Fatal, Answered;
    var keys := c.work.requests.Keys;
    FatalTail(keys, ps, j);
    NothingAnswered(ps[0]);
    assert keys - Answered([ps[0]]) == keys;
  }

  /**
    The packages of a chunk use a handle that is gone exactly when one of them comes too late; the
    client stays in its state unless one is fatal, and is then the client that stopping leaves.
   */
  lemma {:induction false} ChunkOutcome(c: Client, ps: seq<Pkg>)
    requires Good(c) && LeftOver(c) && (T.Live(c.link.st) || c.link.st == DISCONNECTING)
    ensures Inv(OnPackages(c, ps)) && (OnPackages(c, ps).crashed <==> ClosedTooEarly(c, ps))
    ensures OnPackages(c, ps).link.st == if AnyFatal(c.work.requests.Keys, ps) then StoppedState(c) else c.link.st
    decreases |ps|
  {
    StillOpen(c);
    hide OnPackage, Good, LeftOver, Stopping, AnyFatal, Answered;
    assert !c.crashed by { NotCrashed(c); }
    var keys := c.work.requests.Keys;
    if ps == [] {
      NoneFatal(keys);
      assert !ClosedTooEarly(c, ps);
    } else {
      var d := OnPackage(c, ps[0]);
      AnyFatalStep(keys, ps);
      if !Stopping(keys, ps[0]) {
        QuietPackage(c, ps[0]);
        TooEarlyQuiet(c, d, ps);
        ChunkOutcome(d, ps[1..]);
      } else {
        StoppedChunk(c, ps);
      }
    }
  }

  lemma NoneFatal(reqs: set<nat>)
    ensures !AnyFatal(reqs, [])
  {
  }

  lemma StoppedChunk(c: Client, ps: seq<Pkg>)
    requires Good(c) && LeftOver(c) && (T.Live(c.link.st) || c.link.st == DISCONNECTING) && c.timers.open
    requires ps != [] && Stopping(c.work.requests.Keys, ps[0])
    ensures Inv(OnPackages(c, ps)) && (OnPackages(c, ps).crashed <==> ClosedTooEarly(c, ps)) && OnPackages(c, ps).link.st == StoppedState(c)
  {
    assert !c.crashed;
    hide OnPackage, Good, LeftOver, Stopping, Late, Fatal;
    var d := OnPackage(c, ps[0]);
    StopPackage(c, ps[0]);
    assert !d.crashed by { NotCrashed(d); }
    if StopCloses(c) {
      TooEarlyClosed(c, d, ps);
      ClosedPackages(d, ps[1..]);
    } else {
      IdlePackages(d, ps[1..]);
      assert !OnPackages(d, ps[1..]).crashed by { NotCrashed(OnPackages(d, ps[1..])); }
    }
  }
}
