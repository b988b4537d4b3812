/**
  The client as a step machine (src/client.c, src/network.c, src/pkg-handshake.c, src/pkg-heartbeat.c,
  src/transport.c, src/protocol.c). Every loop callback, and every call another thread may make, is
  one atomic step on the fields of the client; outcomes of the operating system and of callbacks of
  the application are parameters of the step. A step that would use a handle already closed, or
  memory of the wrong type, ends the run: `crashed`.
 */
module Client {
  import opened Bytes

  datatype CState = INITED | CONNECTING | CONNECTED | WORKING | DISCONNECTING | CLOSED

  datatype TState = TpInited | TpConnecting | TpWorking | TpClosed

  /** A transport, with two history flags: a code-200 handshake was processed, and its ack written, on it. */
  datatype Transport = Transport(st: TState, handshaken: bool, acked: bool)

  /** A request: the `uid`-th one made, for the transport `tp`. Its wire id is `uid + 1`. */
  datatype Req = Req(uid: nat, tp: nat)

  /** The callback of a connect request: the application's, the library's own, or that of a reconnection. */
  datatype ConnCb = UserCb | ConnectedCb | ReconnectedCb

  /** A write whose completion is still to come. */
  datatype Write = HandshakeWrite(tp: nat) | AckWrite(tp: nat) | BeatWrite | RequestWrite(req: Req)

  /** What can be observed of a run. */
  datatype Obs =
    | Success(req: Req, response: Option<nat>)  // the request's callback ran with status 0, for a response of that id
    | Failure(reqs: set<Req>)                   // the callbacks of these ran with status -1, one after the other
    | BeatSent(tp: nat)
    | BeatHeard                                 // a heartbeat package, or an accepted handshake
    | TimedOut                                  // the heartbeat timeout callback ran
    | GreetingTimedOut                          // the handshake timeout callback ran

  /** The state of the client and its transports; `connects` are the connects still pending, by transport. */
  datatype Link = Link(st: CState, transport: Option<nat>, tps: seq<Transport>, connects: map<nat, ConnCb>)

  /** Handles and timers; `repeats`: the handshake asked for heartbeats. */
  datatype Timers = Timers(
    open: bool, reconnectClosed: bool, closeRequested: bool,
    beat: bool, timeout: bool, handshake: bool, reconnect: bool, repeats: bool)

  /** Requests waiting for a response by wire id, requests handed over to the loop, writes under way. */
  datatype Work = Work(requests: map<nat, Req>, queued: set<Req>, writes: multiset<Write>, nextUid: nat)

  datatype Client = Client(
    reconnectEnabled: bool,
    link: Link,
    timers: Timers,
    work: Work,
    conn: Option<ConnCb>,
    reconnecting: bool,
    reconnects: nat,
    log: seq<Obs>,
    crashed: bool)

  /** pc_client_new and pc_client_new_with_reconnect. */
  function New(reconnectEnabled: bool): Client {
    Client(reconnectEnabled, Link(INITED, None, [], map[]),
           Timers(true, false, false, false, false, false, false, false),
           Work(map[], {}, multiset{}, 0), None, false, 0, [], false)
  }

  function Crash(c: Client): Client {
    c.(crashed := true)
  }

  predicate IsWorking(tps: seq<Transport>, t: nat) {
    t < |tps| && tps[t].st.TpWorking?
  }

  predicate Working(c: Client, t: nat) {
    IsWorking(c.link.tps, t)
  }

  function SetTp(tps: seq<Transport>, t: nat, st: TState): (r: seq<Transport>)
    ensures |r| == |tps|
  {
    if t < |tps| then tps[t := tps[t].(st := st)] else tps
  }

  /** pc_transport_destroy on the current transport, which is then forgotten; the client enters `st`. */
  function DropTransport(l: Link, st: CState): Link {
    match l.transport
    case None => l.(st := st)
    case Some(t) => Link(st, None, SetTp(l.tps, t, TpClosed), l.connects)
  }

  /** What pc_map_clear on the requests makes observable: every one of them fails. */
  function Cleared(w: Work): seq<Obs> {
    [Failure(w.requests.Values)]
  }

  /**
    pc__client_reconnect and pc__client_reconnect_reset, which leaves the handshake timer running. The
    reconnect timer is started, which must not happen once it was closed.
   */
  function Reconnect(c: Client): Client {
    if c.timers.reconnectClosed then Crash(c)
    else
      c.(link := DropTransport(c.link, INITED),
         timers := (if c.timers.open then c.timers.(beat := false, timeout := false) else c.timers).(reconnect := true),
         work := c.work.(requests := map[]),
         log := c.log + Cleared(c.work),
         reconnecting := true,
         reconnects := c.reconnects + 1)
  }

  /** The final part of pc_client_stop: transport and handles are closed. */
  function Shutdown(c: Client): Client {
    var closed := c.timers.(open := false, beat := false, timeout := false, handshake := false);
    var c1 := c.(link := DropTransport(c.link, CLOSED), timers := closed);
    if !c.reconnectEnabled then c1
    else if c.timers.reconnectClosed then Crash(c1)
    else c1.(timers := closed.(reconnectClosed := true, reconnect := false))
  }

  /** pc_client_stop. */
  function Stop(c: Client): Client {
    if c.reconnectEnabled && c.link.st != DISCONNECTING then
      if c.reconnecting then c else Reconnect(c)
    else if c.link.st == INITED then c.(link := c.link.(st := CLOSED))
    else if c.link.st == CLOSED then c
    else Shutdown(c)
  }

  /** The callback of a connect request. */
  function RunConnCb(c: Client, cb: ConnCb, ok: bool): Client {
    match cb
    case UserCb => c
    case ConnectedCb => if ok then c else Stop(c)
    case ReconnectedCb =>
      var c1 := c.(reconnecting := false, timers := c.timers.(reconnect := false));
      if ok then c1.(reconnects := 0) else Stop(c1)
  }

  function RunPendingConn(c: Client, ok: bool): Client {
    match c.conn
    case None => c
    case Some(cb) => RunConnCb(c.(conn := None), cb, ok)
  }

  datatype Done = Done(client: Client, ok: bool)

  /** pc_connect; `dialed` is whether uv_tcp_connect accepts. */
  function Connect(c: Client, cb: ConnCb, dialed: bool): Done {
    if c.link.st != INITED then Done(c, false)
    else
      var l, t := c.link, |c.link.tps|;
      var l' := if dialed
                then l.(st := CONNECTING, tps := l.tps + [Transport(TpConnecting, false, false)], connects := l.connects[t := cb])
                else l.(st := CONNECTING, tps := l.tps + [Transport(TpClosed, false, false)]);
      Done(c.(link := l', conn := Some(cb)), dialed)
  }

  /** pc__binary_write; `sent` is whether uv_write accepts. */
  function BinaryWrite(c: Client, w: Write, sent: bool): Done {
    if c.link.st != CONNECTED && c.link.st != WORKING then Done(c, false)
    else if c.link.transport.None? then Done(Crash(c), false)
    else if sent then Done(c.(work := c.work.(writes := c.work.writes + multiset{w})), true)
    else Done(c, false)
  }

  function TcpConnectFailed(c: Client, cb: ConnCb): Client {
    var c1 := Stop(c.(conn := None));
    if c1.crashed then c1 else RunConnCb(c1, cb, false)
  }

  /** pc__on_tcp_connect. */
  function OnTcpConnect(c: Client, t: nat, ok: bool, reading: bool, sent: bool): Client
    requires t in c.link.connects
  {
    var cb := c.link.connects[t];
    var l := c.link.(connects := c.link.connects - {t});
    if l.st != CONNECTING then RunConnCb(c.(link := l, conn := None), cb, false)
    else if !ok then TcpConnectFailed(c.(link := l.(tps := SetTp(l.tps, t, TpClosed))), cb)
    else if !reading then TcpConnectFailed(c.(link := l.(transport := Some(t))), cb)
    else HandshakeReq(c.(link := Started(l, t)), t, cb, sent)
  }

  /** The client is connected and pc_transport_start is called on its transport. */
  function Started(l: Link, t: nat): Link {
    var tps := if t < |l.tps| && l.tps[t].st.TpConnecting? then SetTp(l.tps, t, TpWorking) else l.tps;
    Link(CONNECTED, Some(t), tps, l.connects)
  }

  /** pc__handshake_req. */
  function HandshakeReq(c: Client, t: nat, cb: ConnCb, sent: bool): Client {
    var d := BinaryWrite(c, HandshakeWrite(t), sent);
    if d.client.crashed then d.client
    else if !d.ok then TcpConnectFailed(d.client, cb)
    else if !d.client.timers.open then Crash(d.client)
    else d.client.(timers := d.client.timers.(handshake := true))
  }

  /** pc__heartbeat: a heartbeat was heard. */
  function Heartbeat(c: Client): Client {
    if !c.timers.open then Crash(c)
    else c.(log := c.log + [BeatHeard], timers := c.timers.(timeout := false, beat := c.timers.beat || c.timers.repeats))
  }

  /** A package from the server; `beats` is the heartbeat interval of a handshake, 0 for none, if it says anything. */
  datatype Pkg =
    | Handshake(code200: bool, beats: Option<nat>, accepted: bool, sent: bool)
    | HeartbeatPkg
    | Data(id: nat, isResponse: bool, readable: bool)
    | Kick
    | Unknown

  /** pc__handshake_resp. */
  function HandshakeResp(c: Client, p: Pkg): Client
    requires p.Handshake?
  {
    if !c.timers.open then Crash(c)
    else HandshakeRead(c.(timers := Configured(c.timers, p)), p)
  }

  /** The handshake timer is stopped, and the repeat of the two others set when the handshake asks for it. */
  function Configured(tm: Timers, p: Pkg): Timers
    requires p.Handshake?
  {
    tm.(handshake := false, repeats := tm.repeats || (p.code200 && p.beats.Some? && p.beats.value > 0))
  }

  function HandshakeRead(c: Client, p: Pkg): Client
    requires p.Handshake?
  {
    if !p.code200 then Stop(c)
    else
      var c1 := if p.accepted then Acknowledge(c, p.sent) else c;
      if c1.crashed then c1 else Heartbeat(c1)
  }

  /** pc__handshake_ack, with the history flag of the transport it concerns. */
  function Acknowledge(c: Client, sent: bool): Client {
    match c.link.transport
    case None => if c.link.st == CONNECTED || c.link.st == WORKING then Crash(c) else c
    case Some(t) =>
      var d := BinaryWrite(c, AckWrite(t), sent);
      if d.ok && t < |c.link.tps| then d.client.(link := c.link.(tps := Marked(c.link.tps, t))) else d.client
  }

  function Marked(tps: seq<Transport>, t: nat): seq<Transport>
    requires t < |tps|
  {
    tps[t := tps[t].(handshaken := true)]
  }

  /**
    pc__data: a message with an id is taken for a response whatever its type; a response whose id is
    not outstanding does not parse, and stops the client.
   */
  function OnData(c: Client, id: nat, isResponse: bool, readable: bool): Client {
    var reqs := c.work.requests;
    if !readable || (isResponse && id !in reqs) then Stop(c)
    else if id > 0 && id in reqs then
      c.(log := c.log + [Success(reqs[id], Some(id))], work := c.work.(requests := reqs - {id}))
    else c
  }

  /** pc__pkg_cb. */
  function OnPackage(c: Client, p: Pkg): Client {
    match p
    case Handshake(_, _, _, _) => HandshakeResp(c, p)
    case HeartbeatPkg => Heartbeat(c)
    case Data(id, isResponse, readable) => OnData(c, id, isResponse, readable)
    case Kick => c
    case Unknown => Stop(c)
  }

  /** All the packages of one chunk, even those after one that stopped the client. */
  function OnPackages(c: Client, ps: seq<Pkg>): Client
    decreases |ps|
  {
    if ps == [] || c.crashed then c else OnPackages(OnPackage(c, ps[0]), ps[1..])
  }

  /** The heartbeat timer fires: pc__heartbeat_cb. */
  function OnBeatTimer(c: Client, sent: bool): Client {
    var c1 := c.(timers := c.timers.(beat := false));
    if c1.link.st != WORKING then Stop(c1)
    else
      var d := BinaryWrite(c1, BeatWrite, sent);
      if d.client.crashed then d.client
      else if !d.ok || d.client.link.transport.None? then Stop(d.client)
      else Beat(d.client, d.client.link.transport.value)
  }

  /** A heartbeat was sent on `t`; the timeout starts to run. */
  function Beat(c: Client, t: nat): Client {
    c.(log := c.log + [BeatSent(t)], timers := c.timers.(timeout := c.timers.timeout || c.timers.repeats))
  }

  /** The reconnect timer fires: pc__client_reconnect_timer_cb. */
  function OnReconnectTimer(c: Client, resolved: bool, dialed: bool): Client {
    var c1 := c.(timers := c.timers.(reconnect := false));
    if !resolved then Stop(c1.(reconnecting := false))
    else
      var d := Connect(c1, ReconnectedCb, dialed);
      if d.ok then d.client else Stop(d.client.(reconnecting := false))
  }

  /** pc_request, up to the hand-over to the loop. */
  function MakeRequest(c: Client): Client {
    if c.link.st != WORKING then c
    else
      var uid := c.work.nextUid;
      var queued := match c.link.transport
        case None => c.work.queued
        case Some(t) => if Working(c, t) then c.work.queued + {Req(uid, t)} else c.work.queued;
      c.(work := c.work.(nextUid := uid + 1, queued := queued))
  }

  function WireId(r: Req): nat {
    (r.uid + 1) % TWO32
  }

  /**
    pc__request. When the transport stopped working in the meantime the request's callback is run
    with the status of the hand-over, which is 0.
   */
  function SendRequest(c: Client, r: Req, encoded: bool, sent: bool): Client {
    var w := c.work.(queued := c.work.queued - {r});
    if !Working(c, r.tp) then c.(work := w, log := c.log + [Success(r, None)])
    else if !encoded then c.(work := w, log := c.log + [Failure({r})])
    else if c.link.transport.None? then Crash(c)
    else if !sent then c.(work := w, log := c.log + [Failure({r})])
    else c.(work := w.(requests := w.requests[WireId(r) := r], writes := w.writes + multiset{RequestWrite(r)}))
  }

  /** The completion of a write. */
  function OnWritten(c: Client, w: Write, ok: bool): Client {
    Completed(c.(work := c.work.(writes := c.work.writes - multiset{w})), w, ok)
  }

  /** Its callback: pc__handshake_req_cb, pc__handshake_ack_cb, pc__heartbeat_req_cb or pc__on_request. */
  function Completed(c: Client, w: Write, ok: bool): Client {
    match w
    case HandshakeWrite(t) => if !Working(c, t) || ok then c else WriteFailed(c)
    case AckWrite(t) =>
      if !Working(c, t) then c
      else if ok then RunPendingConn(c.(link := Acked(c.link, t)), true)
      else WriteFailed(c)
    case BeatWrite =>
      // the source takes the transport for the client here
      if ok then c else Crash(c)
    case RequestWrite(r) =>
      if !Working(c, r.tp) then c.(log := c.log + [Failure({r})])
      else if ok then c
      else c.(log := c.log + [Failure({r})], work := c.work.(requests := c.work.requests - {WireId(r)}))
  }

  function Acked(l: Link, t: nat): Link
    requires t < |l.tps|
  {
    l.(st := WORKING, tps := l.tps[t := l.tps[t].(acked := true)])
  }

  function WriteFailed(c: Client): Client {
    var c1 := Stop(c);
    if c1.crashed then c1 else RunPendingConn(c1, false)
  }

  datatype Event =
    | EConnect(cb: ConnCb, dialed: bool)
    | ETcpConnect(tp: nat, ok: bool, reading: bool, sent: bool)
    | ERead(tp: nat, pkgs: seq<Pkg>)
    | EReadError(tp: nat)
    | EBeatTimer(sent: bool)
    | ETimeoutTimer
    | EHandshakeTimer
    | EReconnectTimer(resolved: bool, dialed: bool)
    | ERequest
    | ESend(req: Req, encoded: bool, sent: bool)
    | EWritten(write: Write, ok: bool)
    | EDisconnect
    | EClose

  /** Whether the loop can run the callback, or a thread make the call, in this state. */
  predicate Enabled(c: Client, e: Event) {
    && !c.crashed
    && match e
       case EConnect(_, _) => true
       case ETcpConnect(t, _, _, _) => t in c.link.connects
       case ERead(t, _) => Working(c, t)
       case EReadError(t) => Working(c, t)
       case EBeatTimer(_) => c.timers.beat
       case ETimeoutTimer => c.timers.timeout
       case EHandshakeTimer => c.timers.handshake
       case EReconnectTimer(_, _) => c.timers.reconnect
       case ERequest => true
       case ESend(r, _, _) => r in c.work.queued
       case EWritten(w, _) => w in c.work.writes
       case EDisconnect => true
       case EClose => c.timers.closeRequested && c.timers.open
  }

  /** pc__timeout_cb. */
  function OnTimeout(c: Client): Client {
    Stop(c.(log := c.log + [TimedOut], timers := c.timers.(timeout := false)))
  }

  /** pc__handshake_timeout_cb. */
  function OnHandshakeTimer(c: Client): Client {
    Stop(c.(log := c.log + [GreetingTimedOut], timers := c.timers.(handshake := false)))
  }

  /** pc_client_disconnect, which any thread may call. */
  function Disconnect(c: Client): Client {
    var c1 := c.(link := c.link.(st := DISCONNECTING));
    if c.timers.open then c1.(timers := c.timers.(closeRequested := true)) else Crash(c1)
  }

  function Step(c: Client, e: Event): Client
    requires Enabled(c, e)
  {
    match e
    case EConnect(cb, dialed) => Connect(c, cb, dialed).client
    case ETcpConnect(t, ok, reading, sent) => OnTcpConnect(c, t, ok, reading, sent)
    case ERead(_, ps) => OnPackages(c, ps)
    case EReadError(_) => Stop(c.(reconnecting := false))
    case EBeatTimer(sent) => OnBeatTimer(c, sent)
    case ETimeoutTimer => OnTimeout(c)
    case EHandshakeTimer => OnHandshakeTimer(c)
    case EReconnectTimer(resolved, dialed) => OnReconnectTimer(c, resolved, dialed)
    case ERequest => MakeRequest(c)
    case ESend(r, encoded, sent) => SendRequest(c, r, encoded, sent)
    case EWritten(w, ok) => OnWritten(c, w, ok)
    case EDisconnect => Disconnect(c)
    case EClose => Stop(c.(timers := c.timers.(closeRequested := false)))
  }

  /** `cs` is a run of the client through `es`. */
  ghost predicate IsRun(cs: seq<Client>, es: seq<Event>) {
    && |cs| == |es| + 1
    && (exists b :: cs[0] == New(b))
    && forall i :: 0 <= i < |es| ==> Enabled(cs[i], es[i]) && cs[i + 1] == Step(cs[i], es[i])
  }
}
