/**
  The client as the object it is: its requests in the map of queues under the text of their ids, its
  timers in the red-black tree of the loop, its input through the package parser. `Value` is the state
  of the step machine that the object stands for, and every callback takes the object along a step.
 */
module ClientObject {
  import opened Bytes
  import opened Client
  import L = Timers
  import M = RequestMap
  import P = Package
  import ClientBeats
  import R = ClientRequests
  import H = ClientHandles
  import Crashes = ClientCrashes
  import I = ClientInput

  const BEAT: nat := 1
  const TIMEOUT: nat := 2
  const HANDSHAKE: nat := 3
  const RECONNECT: nat := 4

  /** The handshake must be answered within this many milliseconds. */
  const HANDSHAKE_TIMEOUT: nat := 10000

  /** The map holds the requests of `filed`, each under the text of its id. */
  ghost predicate Files(filed: map<nat, Req>, contents: map<Text, Req>) {
    && (forall id :: id in filed ==> M.IdText(id) in contents && contents[M.IdText(id)] == filed[id])
    && (forall k :: k in contents ==> exists id :: id in filed && M.IdText(id) == k)
  }

  /** The four handles are there, and the two of the heartbeat have their callbacks and repeat together. */
  ghost predicate Wired(hs: map<nat, L.Timer>) {
    && BEAT in hs && TIMEOUT in hs && HANDSHAKE in hs && RECONNECT in hs
    && hs[BEAT].hasCb && hs[TIMEOUT].hasCb && (hs[BEAT].repeat > 0 <==> hs[TIMEOUT].repeat > 0)
  }

  lemma FilesFind(filed: map<nat, Req>, contents: map<Text, Req>, id: nat)
    requires Files(filed, contents)
    ensures M.IdText(id) in contents <==> id in filed
    ensures id in filed ==> contents[M.IdText(id)] == filed[id]
  {
    hide M.IdText;
    if M.IdText(id) in contents {
      var i :| i in filed && M.IdText(i) == M.IdText(id);
      M.IdTextIsInjective(i, id);
    }
  }

  lemma NoFiles()
    ensures Files(map[], map[])
  {
  }

  lemma FilesSet(filed: map<nat, Req>, contents: map<Text, Req>, id: nat, r: Req)
    requires Files(filed, contents)
    ensures Files(filed[id := r], contents[M.IdText(id) := r])
  {
    hide M.IdText;
    var filed', contents' := filed[id := r], contents[M.IdText(id) := r];
    forall i | i in filed'
      ensures M.IdText(i) in contents' && contents'[M.IdText(i)] == filed'[i]
    {
      if M.IdText(i) == M.IdText(id) {
        M.IdTextIsInjective(i, id);
      }
    }
    forall k | k in contents'
      ensures exists i :: i in filed' && M.IdText(i) == k
    {
      if k == M.IdText(id) {
        assert id in filed';
      } else {
        var i :| i in filed && M.IdText(i) == k;
        assert i in filed';
      }
    }
  }

  lemma FilesDelete(filed: map<nat, Req>, contents: map<Text, Req>, id: nat)
    requires Files(filed, contents)
    ensures Files(filed - {id}, contents - {M.IdText(id)})
  {
    hide M.IdText;
    forall i | i in filed - {id}
      ensures M.IdText(i) in contents - {M.IdText(id)}
    {
      if M.IdText(i) == M.IdText(id) {
        M.IdTextIsInjective(i, id);
      }
    }
    forall k | k in contents - {M.IdText(id)}
      ensures exists i :: i in filed - {id} && M.IdText(i) == k
    {
      var i :| i in filed && M.IdText(i) == k;
      assert i in filed - {id};
    }
  }

  /** Everything the map releases is what was filed. */
  lemma FilesRelease(filed: map<nat, Req>, buckets: seq<seq<M.Pair<Req>>>, contents: map<Text, Req>)
    requires Files(filed, contents) && M.Refines(buckets, contents)
    ensures (set e | e in M.Flat(buckets) :: e.value) == filed.Values
  {
    hide M.Refines, M.IdText;
    M.ClearReleasesEachOnce(buckets, contents);
    var f := M.Flat(buckets);
    forall e | e in f
      ensures e.value in filed.Values
    {
      assert e.key in contents && contents[e.key] == e.value;
      var id :| id in filed && M.IdText(id) == e.key;
      assert filed[id] == e.value;
    }
    forall r | r in filed.Values
      ensures exists e :: e in f && e.value == r
    {
      var id :| id in filed && filed[id] == r;
      var e :| e in f && e.key == M.IdText(id);
      assert e.value == r;
    }
  }

  /** A loop with the timers of pc__client_init. */
  method NewLoop(time: nat) returns (loop: L.Loop)
    requires time <= L.MAX64
    ensures fresh(loop) && fresh(loop.tree) && loop.Valid()
    ensures loop.handles == map[BEAT := L.Timer(true, 0, false), TIMEOUT := L.Timer(true, 0, false),
                                HANDSHAKE := L.Timer(false, 0, false), RECONNECT := L.Timer(false, 0, false)]
  {
    hide L.Kept;
    loop := new L.Loop(time);
    loop.Init(BEAT);
    loop.SetCallback(BEAT);
    loop.Init(TIMEOUT);
    loop.SetCallback(TIMEOUT);
    loop.Init(HANDSHAKE);
    loop.Init(RECONNECT);
  }

  class PomeloClient {
    const reconnectEnabled: bool
    const wait: nat
    const requests: M.PcMap<Req>
    const loop: L.Loop
    const parser: P.Parser
    var link: Link
    var open: bool
    var reconnectClosed: bool
    var closeRequested: bool
    var queued: set<Req>
    var writes: multiset<Write>
    var nextUid: nat
    var conn: Option<ConnCb>
    var reconnecting: bool
    var reconnects: nat
    var log: seq<Obs>
    var crashed: bool
    var stale: bool
    ghost var filed: map<nat, Req>

    ghost predicate Valid()
      reads this`filed, requests, loop, loop.tree, parser, parser.headBuf, parser.pkgBuf
    {
      && requests.Valid() && loop.Valid() && parser.Valid() && wait <= L.MAX64
      && Files(filed, requests.contents) && Wired(loop.handles)
    }

    ghost function Active(id: nat): bool
      reads loop
    {
      id in loop.handles && loop.handles[id].active
    }

    /** The timers as the step machine sees them. */
    ghost function Tm(): Timers
      reads this`open, this`reconnectClosed, this`closeRequested, loop
    {
      Timers(open, reconnectClosed, closeRequested, Active(BEAT), Active(TIMEOUT), Active(HANDSHAKE), Active(RECONNECT),
             BEAT in loop.handles && loop.handles[BEAT].repeat > 0)
    }

    /** The state of the step machine. */
    ghost function Value(): Client
      reads this, loop
    {
      Client(reconnectEnabled, link, Tm(), Work(filed, queued, writes, nextUid), conn, reconnecting, reconnects, log, crashed)
    }

    constructor (reconnectEnabled: bool, wait: nat, time: nat)
      requires wait <= L.MAX64 && time <= L.MAX64
      ensures Valid() && Value() == New(reconnectEnabled) && Sound(Value()) && !stale && parser.Abstract() == P.AtHead([])
      ensures fresh(requests) && fresh(loop) && fresh(loop.tree) && fresh(parser) && fresh(parser.headBuf) && fresh(parser.pkgBuf)
    {
      hide M.PcMap.Valid, L.Loop.Valid, P.Parser.Valid, Files, Sound, New;
      this.reconnectEnabled, this.wait := reconnectEnabled, wait;
      requests := new M.PcMap(256);
      var timers := NewLoop(time);
      loop := timers;
      parser := new P.Parser();
      link := Link(INITED, None, [], map[]);
      open, reconnectClosed, closeRequested := true, false, false;
      queued, writes, nextUid := {}, multiset{}, 0;
      conn, reconnecting, reconnects, log, crashed, stale, filed := None, false, 0, [], false, false, map[];
      new;
      NoFiles();
      NewIs(reconnectEnabled);
      SoundStart(reconnectEnabled);
    }

    // ---------- timers ----------

    method StopTimer(id: nat)
      requires Valid() && (id == BEAT || id == TIMEOUT || id == HANDSHAKE || id == RECONNECT)
      modifies loop, loop.tree
      ensures Valid()
      ensures Tm() == old(if id == BEAT then Tm().(beat := false) else if id == TIMEOUT then Tm().(timeout := false)
                          else if id == HANDSHAKE then Tm().(handshake := false) else Tm().(reconnect := false))
    {
      hide L.Kept, Files;
      loop.Stop(id);
    }

    /** uv_timer_again on one of the two timers of the heartbeat. */
    method AgainTimer(id: nat)
      requires Valid() && (id == BEAT || id == TIMEOUT)
      modifies loop, loop.tree
      ensures Valid()
      ensures Tm() == old(if id == BEAT then Tm().(beat := Tm().beat || Tm().repeats) else Tm().(timeout := Tm().timeout || Tm().repeats))
    {
      hide L.Kept, Files;
      var ok := loop.Again(id);
    }

    method StartTimer(id: nat, timeout: nat)
      requires Valid() && (id == HANDSHAKE || id == RECONNECT) && timeout <= L.MAX64
      modifies loop, loop.tree
      ensures Valid()
      ensures Tm() == old(if id == HANDSHAKE then Tm().(handshake := true) else Tm().(reconnect := true))
    {
      hide L.Kept, Files;
      loop.Start(id, timeout, 0);
    }

    /** The two timers of the heartbeat are stopped. */
    method StopHeartbeat()
      requires Valid()
      modifies loop, loop.tree
      ensures Valid() && Tm() == old(Tm()).(beat := false, timeout := false)
    {
      hide PomeloClient.Valid, PomeloClient.Tm;
      StopTimer(BEAT);
      StopTimer(TIMEOUT);
    }

    /** All but the reconnect timer are closed. */
    method CloseTimers()
      requires Valid()
      modifies this`open, loop, loop.tree
      ensures Valid() && Tm() == old(Tm()).(open := false, beat := false, timeout := false, handshake := false)
    {
      hide PomeloClient.Valid;
      StopHeartbeat();
      StopTimer(HANDSHAKE);
      open := false;
    }

    /** The reconnect timer is closed, which must not happen twice. */
    method CloseReconnect()
      requires Valid()
      modifies this`crashed, this`reconnectClosed, loop, loop.tree
      ensures Valid()
      ensures if old(reconnectClosed) then crashed && Tm() == old(Tm())
              else crashed == old(crashed) && Tm() == old(Tm()).(reconnectClosed := true, reconnect := false)
    {
      hide PomeloClient.Valid;
      if reconnectClosed {
        crashed := true;
      } else {
        StopTimer(RECONNECT);
        reconnectClosed := true;
      }
    }

    /** The heartbeat of a handshake, in seconds, becomes the repeat of the two timers. */
    method SetHeartbeat(seconds: nat)
      requires Valid() && 0 < seconds && seconds * 2000 <= L.MAX64
      modifies loop
      ensures Valid() && Tm() == old(Tm()).(repeats := true)
    {
      hide L.Kept, Files;
      loop.SetRepeat(BEAT, seconds * 1000);
      loop.SetRepeat(TIMEOUT, seconds * 2000);
    }

    // ---------- requests ----------

    method Lookup(id: nat) returns (r: Option<Req>)
      requires Valid()
      ensures r == if id in filed then Some(filed[id]) else None
    {
      hide M.Refines, L.Kept, Files, Wired, M.IdText;
      FilesFind(filed, requests.contents, id);
      r := requests.Get(M.IdText(id));
    }

    method Unfile(id: nat)
      requires Valid()
      modifies this`filed, requests
      ensures Valid() && filed == old(filed) - {id}
    {
      hide M.Refines, L.Kept, Files, Wired, M.IdText;
      FilesDelete(filed, requests.contents, id);
      var r := requests.Delete(M.IdText(id));
      filed := filed - {id};
    }

    /** A request is filed under an id not in use, which is when pc_map_set returns. */
    method File(r: Req)
      requires Valid() && WireId(r) !in filed
      modifies this`filed, requests
      ensures Valid() && filed == old(filed)[WireId(r) := r]
    {
      hide M.Refines, L.Kept, Files, Wired, M.IdText;
      FilesFind(filed, requests.contents, WireId(r));
      FilesSet(filed, requests.contents, WireId(r), r);
      var released := requests.Set(M.IdText(WireId(r)), r);
      filed := filed[WireId(r) := r];
    }

    /** pc_map_clear: every outstanding request is released, which runs its callback with status -1. */
    method FailAll()
      requires Valid()
      modifies this`filed, this`log, requests
      ensures Valid() && filed == map[] && log == old(log + [Failure(filed.Values)])
    {
      hide M.Refines, L.Kept, Wired, M.IdText, M.Flat;
      FilesRelease(filed, requests.buckets, requests.contents);
      var released := requests.Clear();
      log := log + [Failure(set e | e in released :: e.value)];
      filed := map[];
    }

    // ---------- stopping and connecting ----------

    /** pc_transport_destroy on the current transport, which is forgotten; the client enters `st`. */
    method DestroyTransport(st: CState)
      modifies this`link
      ensures link == DropTransport(old(link), st)
    {
      if link.transport.Some? {
        var t := link.transport.value;
        if t < |link.tps| {
          link := link.(tps := link.tps[t := link.tps[t].(st := TpClosed)]);
        }
        link := link.(transport := None);
      }
      link := link.(st := st);
    }

    method CountReconnect()
      modifies this`stale, this`reconnecting, this`reconnects
      ensures stale && reconnecting && reconnects == old(reconnects) + 1
    {
      stale, reconnecting, reconnects := true, true, reconnects + 1;
    }

    lemma Made()
      ensures Value().work.nextUid == nextUid
    {
    }

    lemma Known()
      requires Valid()
      ensures wait <= L.MAX64
    {
    }

    /** pc__client_reconnect. */
    method ReconnectReset()
      requires Valid()
      modifies this, requests, loop, loop.tree
      ensures Valid()
      ensures Tallied(old(stale), old(reconnects), stale, reconnects)
      ensures Value() == Reconnect(old(Value()))
    {
      hide PomeloClient.Valid, PomeloClient.Tm, DropTransport, Reconnect;
      Flags();
      if reconnectClosed {
        crashed := true;
        ClosedReconnect(old(Value()));
        return;
      }
      Leave();
      ResetAll();
      ReconnectIs(old(Value()), Value());
    }

    /** The transport is dropped and the attempt counted; the parser is to be reset. */
    method Leave()
      modifies this`link, this`stale, this`reconnecting, this`reconnects
      ensures link == DropTransport(old(link), INITED) && stale && reconnecting && reconnects == old(reconnects) + 1
    {
      hide DropTransport;
      DestroyTransport(INITED);
      CountReconnect();
    }

    /** Timers and requests of a client that is to connect again. */
    method ResetAll()
      requires Valid()
      modifies this`filed, this`log, requests, loop, loop.tree
      ensures Valid() && filed == map[] && log == old(log + [Failure(filed.Values)])
      ensures Tm() == old(if open then Tm().(beat := false, timeout := false, reconnect := true) else Tm().(reconnect := true))
    {
      hide PomeloClient.Valid, PomeloClient.Tm;
      ResetTimers();
      FailAll();
    }

    /** The timers of a client that is to connect again; the handshake timer is not among those stopped. */
    method ResetTimers()
      requires Valid()
      modifies loop, loop.tree
      ensures Valid() && Tm() == old(if open then Tm().(beat := false, timeout := false, reconnect := true) else Tm().(reconnect := true))
    {
      hide PomeloClient.Valid, PomeloClient.Tm;
      Known();
      if open {
        StopHeartbeat();
      }
      StartTimer(RECONNECT, wait);
    }

    lemma Flags()
      ensures Tm().open == open && Tm().reconnectClosed == reconnectClosed && Tm().closeRequested == closeRequested
    {
    }

    /** The final part of pc_client_stop. */
    method CloseHandles()
      requires Valid()
      modifies this`link, this`open, this`crashed, this`reconnectClosed, loop, loop.tree
      ensures Valid()
      ensures Value() == Shutdown(old(Value()))
    {
      hide PomeloClient.Valid, PomeloClient.Tm, DropTransport, Shutdown;
      DestroyTransport(CLOSED);
      Flags();
      CloseTimers();
      Flags();
      if reconnectEnabled {
        CloseReconnect();
      }
      ShutdownIs(old(Value()), Value());
    }

    /** pc_client_stop. */
    method StopClient()
      requires Valid()
      modifies this, requests, loop, loop.tree
      ensures Valid()
      ensures Tallied(old(stale), old(reconnects), stale, reconnects)
      ensures Value() == Stop(old(Value()))
    {
      hide PomeloClient.Valid, PomeloClient.Tm, Reconnect, Shutdown;
      if reconnectEnabled && link.st != DISCONNECTING {
        if !reconnecting {
          ReconnectReset();
        }
      } else if link.st == INITED {
        link := link.(st := CLOSED);
      } else if link.st != CLOSED {
        CloseHandles();
      }
    }

    method RunConnectCallback(cb: ConnCb, ok: bool)
      requires Valid()
      modifies this, requests, loop, loop.tree
      ensures Valid()
      ensures if ok then stale == old(stale) && reconnects <= old(reconnects) else Tallied(old(stale), old(reconnects), stale, reconnects)
      ensures Value() == RunConnCb(old(Value()), cb, ok)
    {
      hide PomeloClient.Valid, PomeloClient.Tm, Stop;
      match cb
      case UserCb =>
      case ConnectedCb =>
        if !ok {
          StopClient();
        }
      case ReconnectedCb =>
        reconnecting := false;
        StopTimer(RECONNECT);
        if ok {
          reconnects := 0;
        } else {
          StopClient();
        }
    }

    method RunPendingCallback(ok: bool)
      requires Valid()
      modifies this, requests, loop, loop.tree
      ensures Valid()
      ensures if ok then stale == old(stale) && reconnects <= old(reconnects) else Tallied(old(stale), old(reconnects), stale, reconnects)
      ensures Value() == RunPendingConn(old(Value()), ok)
    {
      hide PomeloClient.Valid, PomeloClient.Tm, RunConnCb;
      if conn.Some? {
        var cb := conn.value;
        conn := None;
        RunConnectCallback(cb, ok);
      }
    }

    /** pc_connect. */
    method ConnectTo(cb: ConnCb, dialed: bool) returns (ok: bool)
      requires Valid()
      modifies this`link, this`conn
      ensures Valid() && Done(Value(), ok) == Connect(old(Value()), cb, dialed)
    {
      hide PomeloClient.Valid, PomeloClient.Tm;
      if link.st != INITED {
        return false;
      }
      link := link.(st := CONNECTING);
      conn := Some(cb);
      if !dialed {
        link := link.(tps := link.tps + [Transport(TpClosed, false, false)]);
        return false;
      }
      link := link.(connects := link.connects[|link.tps| := cb]);
      link := link.(tps := link.tps + [Transport(TpConnecting, false, false)]);
      return true;
    }

    /** pc__binary_write. */
    method WriteBinary(w: Write, sent: bool) returns (ok: bool)
      requires Valid()
      modifies this`writes, this`crashed
      ensures Valid() && Done(Value(), ok) == BinaryWrite(old(Value()), w, sent)
    {
      hide PomeloClient.Valid, PomeloClient.Tm;
      if link.st != CONNECTED && link.st != WORKING {
        return false;
      }
      if link.transport.None? {
        crashed := true;
        return false;
      }
      if sent {
        writes := writes + multiset{w};
      }
      return sent;
    }

    method FailConnect(cb: ConnCb)
      requires Valid()
      modifies this, requests, loop, loop.tree
      ensures Valid()
      ensures Tallied(old(stale), old(reconnects), stale, reconnects)
      ensures Value() == TcpConnectFailed(old(Value()), cb)
    {
      hide PomeloClient.Valid, PomeloClient.Tm, Stop, RunConnCb;
      conn := None;
      StopClient();
      if !crashed {
        RunConnectCallback(cb, false);
      }
    }

    /** pc__on_tcp_connect. */
    method HandleTcpConnect(t: nat, ok: bool, reading: bool, sent: bool)
      requires Valid() && t in link.connects
      modifies this, requests, loop, loop.tree
      ensures Valid()
      ensures Tallied(old(stale), old(reconnects), stale, reconnects)
      ensures Value() == OnTcpConnect(old(Value()), t, ok, reading, sent)
    {
      hide PomeloClient.Valid, PomeloClient.Tm, TcpConnectFailed, RunConnCb, HandshakeReq, SetTp, Started, Tallied;
      var cb := link.connects[t];
      link := link.(connects := link.connects - {t});
      if link.st != CONNECTING {
        conn := None;
        RunConnectCallback(cb, false);
        return;
      }
      if !ok {
        link := link.(tps := SetTp(link.tps, t, TpClosed));
        FailConnect(cb);
        return;
      }
      if !reading {
        link := link.(transport := Some(t));
        FailConnect(cb);
        return;
      }
      StartTransport(t);
      RequestHandshake(t, cb, sent);
    }

    /** The transport is the client's, and pc_transport_start is called on it. */
    method StartTransport(t: nat)
      modifies this`link
      ensures link == Started(old(link), t)
    {
      link := link.(transport := Some(t), st := CONNECTED);
      if t < |link.tps| && link.tps[t].st.TpConnecting? {
        link := link.(tps := link.tps[t := link.tps[t].(st := TpWorking)]);
      }
    }

    /** pc__handshake_req. */
    method RequestHandshake(t: nat, cb: ConnCb, sent: bool)
      requires Valid()
      modifies this, requests, loop, loop.tree
      ensures Valid()
      ensures Tallied(old(stale), old(reconnects), stale, reconnects)
      ensures Value() == HandshakeReq(old(Value()), t, cb, sent)
    {
      hide PomeloClient.Valid, PomeloClient.Tm, TcpConnectFailed, BinaryWrite;
      var ok := WriteBinary(HandshakeWrite(t), sent);
      Flags();
      if crashed {
        return;
      }
      if !ok {
        FailConnect(cb);
      } else if !open {
        crashed := true;
      } else {
        StartTimer(HANDSHAKE, HANDSHAKE_TIMEOUT);
      }
    }

    // ---------- packages ----------

    /** pc__heartbeat. */
    method HearHeartbeat()
      requires Valid()
      modifies this`log, this`crashed, loop, loop.tree
      ensures Valid() && Value() == Heartbeat(old(Value()))
    {
      hide PomeloClient.Valid, PomeloClient.Tm;
      Flags();
      if !open {
        crashed := true;
        return;
      }
      log := log + [BeatHeard];
      StopTimer(TIMEOUT);
      AgainTimer(BEAT);
    }

    /** pc__handshake_ack. */
    method AcknowledgeHandshake(sent: bool)
      requires Valid()
      modifies this`writes, this`crashed, this`link
      ensures Valid() && Value() == Acknowledge(old(Value()), sent)
    {
      hide PomeloClient.Valid, PomeloClient.Tm;
      if link.transport.None? {
        if link.st == CONNECTED || link.st == WORKING {
          crashed := true;
        }
      } else {
        var t := link.transport.value;
        var ok := WriteBinary(AckWrite(t), sent);
        if ok && t < |link.tps| {
          link := link.(tps := link.tps[t := link.tps[t].(handshaken := true)]);
        }
      }
    }

    /** pc__handshake_resp; the interval of heartbeats is one that fits the `int` it is kept in. */
    method HandleHandshake(p: Pkg)
      requires Valid() && p.Handshake? && ShortInterval(p)
      modifies this, requests, loop, loop.tree
      ensures Valid()
      ensures Tallied(old(stale), old(reconnects), stale, reconnects)
      ensures Value() == HandshakeResp(old(Value()), p)
    {
      hide PomeloClient.Valid, PomeloClient.Tm, HandshakeRead;
      Flags();
      if !open {
        crashed := true;
        return;
      }
      ConfigureTimers(p);
      ReadHandshake(p);
    }

    method ConfigureTimers(p: Pkg)
      requires Valid() && p.Handshake? && ShortInterval(p)
      modifies loop, loop.tree
      ensures Valid() && Tm() == Configured(old(Tm()), p)
    {
      hide PomeloClient.Valid, PomeloClient.Tm;
      StopTimer(HANDSHAKE);
      if p.code200 && p.beats.Some? && p.beats.value > 0 {
        SetHeartbeat(p.beats.value);
      }
    }

    method ReadHandshake(p: Pkg)
      requires Valid() && p.Handshake?
      modifies this, requests, loop, loop.tree
      ensures Valid()
      ensures Tallied(old(stale), old(reconnects), stale, reconnects)
      ensures Value() == HandshakeRead(old(Value()), p)
    {
      hide PomeloClient.Valid, PomeloClient.Tm, Stop, Heartbeat, Acknowledge;
      if !p.code200 {
        StopClient();
        return;
      }
      if p.accepted {
        AcknowledgeHandshake(p.sent);
      }
      if crashed {
        return;
      }
      HearHeartbeat();
    }

    /** pc__data and pc__process_response. */
    method HandleData(id: nat, isResponse: bool, readable: bool)
      requires Valid()
      modifies this, requests, loop, loop.tree
      ensures Valid()
      ensures Tallied(old(stale), old(reconnects), stale, reconnects)
      ensures Value() == OnData(old(Value()), id, isResponse, readable)
    {
      hide PomeloClient.Valid, PomeloClient.Tm, Stop;
      var found := Lookup(id);
      if !readable || (isResponse && found.None?) {
        StopClient();
      } else if id > 0 && found.Some? {
        Unfile(id);
        log := log + [Success(found.value, Some(id))];
      }
    }

    /** pc__pkg_cb. */
    method HandlePackage(p: Pkg)
      requires Valid() && ShortInterval(p)
      modifies this, requests, loop, loop.tree
      ensures Valid()
      ensures Tallied(old(stale), old(reconnects), stale, reconnects)
      ensures Value() == OnPackage(old(Value()), p)
    {
      hide PomeloClient.Valid, PomeloClient.Tm, Stop, HandshakeResp, OnData, Heartbeat;
      match p
      case Handshake(_, _, _, _) => HandleHandshake(p);
      case HeartbeatPkg => HearHeartbeat();
      case Data(id, isResponse, readable) => HandleData(id, isResponse, readable);
      case Kick =>
      case Unknown => StopClient();
    }

    // ---------- the other callbacks ----------

    /** pc__heartbeat_cb. */
    method HandleBeatTimer(sent: bool)
      requires Valid()
      modifies this, requests, loop, loop.tree
      ensures Valid()
      ensures Tallied(old(stale), old(reconnects), stale, reconnects)
      ensures Value() == OnBeatTimer(old(Value()), sent)
    {
      hide PomeloClient.Valid, PomeloClient.Tm, Stop;
      StopTimer(BEAT);
      if link.st != WORKING {
        StopClient();
        return;
      }
      var ok := WriteBinary(BeatWrite, sent);
      if crashed {
        return;
      }
      if !ok || link.transport.None? {
        StopClient();
        return;
      }
      log := log + [BeatSent(link.transport.value)];
      AgainTimer(TIMEOUT);
    }

    /** pc__timeout_cb. */
    method HandleTimeout()
      requires Valid()
      modifies this, requests, loop, loop.tree
      ensures Valid()
      ensures Tallied(old(stale), old(reconnects), stale, reconnects)
      ensures Value() == OnTimeout(old(Value()))
    {
      hide PomeloClient.Valid, PomeloClient.Tm, Stop;
      StopTimer(TIMEOUT);
      log := log + [TimedOut];
      StopClient();
    }

    /** pc__client_reconnect_timer_cb. */
    method HandleReconnectTimer(resolved: bool, dialed: bool)
      requires Valid()
      modifies this, requests, loop, loop.tree
      ensures Valid()
      ensures Tallied(old(stale), old(reconnects), stale, reconnects)
      ensures Value() == OnReconnectTimer(old(Value()), resolved, dialed)
    {
      hide PomeloClient.Valid, PomeloClient.Tm, Stop, Connect;
      StopTimer(RECONNECT);
      if resolved {
        var ok := ConnectTo(ReconnectedCb, dialed);
        if ok {
          return;
        }
      }
      reconnecting := false;
      StopClient();
    }

    /** pc_request. */
    method Request()
      requires Valid()
      modifies this`nextUid, this`queued
      ensures Valid() && Value() == MakeRequest(old(Value()))
    {
      hide PomeloClient.Valid, PomeloClient.Tm;
      if link.st != WORKING {
        return;
      }
      var uid := nextUid;
      nextUid := nextUid + 1;
      if link.transport.Some? && link.transport.value < |link.tps| && link.tps[link.transport.value].st.TpWorking? {
        queued := queued + {Req(uid, link.transport.value)};
      }
    }

    /** pc__request: the request is filed under an id not in use, as it always is. */
    method Send(r: Req, encoded: bool, sent: bool)
      requires Valid() && r in queued && WireId(r) !in filed
      modifies this`queued, this`log, this`crashed, this`writes, this`filed, requests
      ensures Valid()
      ensures Value() == SendRequest(old(Value()), r, encoded, sent)
    {
      hide PomeloClient.Valid, PomeloClient.Tm, WireId;
      if !(r.tp < |link.tps| && link.tps[r.tp].st.TpWorking?) {
        queued, log := queued - {r}, log + [Success(r, None)];
      } else if !encoded {
        queued, log := queued - {r}, log + [Failure({r})];
      } else if link.transport.None? {
        crashed := true;
      } else if !sent {
        queued, log := queued - {r}, log + [Failure({r})];
      } else {
        queued, writes := queued - {r}, writes + multiset{RequestWrite(r)};
        File(r);
      }
    }

    method FailWrite()
      requires Valid()
      modifies this, requests, loop, loop.tree
      ensures Valid()
      ensures Tallied(old(stale), old(reconnects), stale, reconnects)
      ensures Value() == WriteFailed(old(Value()))
    {
      hide PomeloClient.Valid, PomeloClient.Tm, Stop, RunPendingConn;
      StopClient();
      if !crashed {
        RunPendingCallback(false);
      }
    }

    /** pc__handshake_req_cb. */
    method HandleHandshakeWritten(t: nat, ok: bool)
      requires Valid()
      modifies this, requests, loop, loop.tree
      ensures Valid()
      ensures if ok then stale == old(stale) && reconnects <= old(reconnects) else Tallied(old(stale), old(reconnects), stale, reconnects)
      ensures var c := old(Value()); Value() == if !Working(c, t) || ok then c else WriteFailed(c)
    {
      hide PomeloClient.Valid, PomeloClient.Tm, WriteFailed;
      if t < |link.tps| && link.tps[t].st.TpWorking? && !ok {
        FailWrite();
      }
    }

    /** pc__handshake_ack_cb. */
    method HandleAckWritten(t: nat, ok: bool)
      requires Valid()
      modifies this, requests, loop, loop.tree
      ensures Valid()
      ensures if ok then stale == old(stale) && reconnects <= old(reconnects) else Tallied(old(stale), old(reconnects), stale, reconnects)
      ensures var c := old(Value()); Value() == if !Working(c, t) then c else if ok then RunPendingConn(c.(link := Acked(c.link, t)), true) else WriteFailed(c)
    {
      hide PomeloClient.Valid, PomeloClient.Tm, WriteFailed, RunPendingConn;
      if t < |link.tps| && link.tps[t].st.TpWorking? {
        if ok {
          link := link.(st := WORKING, tps := link.tps[t := link.tps[t].(acked := true)]);
          RunPendingCallback(true);
        } else {
          FailWrite();
        }
      }
    }

    /** pc__on_request. */
    method HandleRequestWritten(r: Req, ok: bool)
      requires Valid()
      modifies this`log, this`filed, requests
      ensures Valid()
      ensures var c := old(Value());
        Value() == if !Working(c, r.tp) then c.(log := c.log + [Failure({r})]) else if ok then c
                   else c.(log := c.log + [Failure({r})], work := c.work.(requests := c.work.requests - {WireId(r)}))
    {
      hide PomeloClient.Valid, PomeloClient.Tm, WireId;
      if !(r.tp < |link.tps| && link.tps[r.tp].st.TpWorking?) {
        log := log + [Failure({r})];
      } else if !ok {
        Unfile(WireId(r));
        log := log + [Failure({r})];
      }
    }

    /** What is called for a write that is completed. */
    method Complete(w: Write, ok: bool)
      requires Valid()
      modifies this, requests, loop, loop.tree
      ensures Valid()
      ensures if ok then stale == old(stale) && reconnects <= old(reconnects) else Tallied(old(stale), old(reconnects), stale, reconnects)
      ensures Value() == Completed(old(Value()), w, ok)
    {
      hide PomeloClient.Valid, PomeloClient.Tm, WriteFailed, RunPendingConn, WireId, Acked, Working;
      match w
      case HandshakeWrite(t) => HandleHandshakeWritten(t, ok);
      case AckWrite(t) => HandleAckWritten(t, ok);
      case BeatWrite =>
        if !ok {
          crashed := true;
        }
      case RequestWrite(r) => HandleRequestWritten(r, ok);
    }

    /** The completion of a write. */
    method HandleWritten(w: Write, ok: bool)
      requires Valid() && w in writes
      modifies this, requests, loop, loop.tree
      ensures Valid()
      ensures if ok then stale == old(stale) && reconnects <= old(reconnects) else Tallied(old(stale), old(reconnects), stale, reconnects)
      ensures Value() == OnWritten(old(Value()), w, ok)
    {
      hide PomeloClient.Valid, PomeloClient.Tm, Completed;
      writes := writes - multiset{w};
      Complete(w, ok);
    }

    /** pc_client_disconnect. */
    method DisconnectClient()
      requires Valid()
      modifies this`link, this`closeRequested, this`crashed
      ensures Valid() && Value() == Disconnect(old(Value()))
    {
      hide PomeloClient.Valid;
      link := link.(st := DISCONNECTING);
      if open {
        closeRequested := true;
      } else {
        crashed := true;
      }
    }

    /** pc__close_async_cb. */
    method HandleClose()
      requires Valid()
      modifies this, requests, loop, loop.tree
      ensures Valid()
      ensures Tallied(old(stale), old(reconnects), stale, reconnects)
      ensures var c := old(Value()); Value() == Stop(c.(timers := c.timers.(closeRequested := false)))
    {
      hide PomeloClient.Valid, Stop;
      closeRequested := false;
      StopClient();
    }

    // ---------- input ----------

    /** The packages of a chunk, one after the other. */
    method HandlePackages(ps: seq<Pkg>)
      requires Valid() && Short(ps)
      modifies this, requests, loop, loop.tree
      ensures Valid()
      ensures Tallied(old(stale), old(reconnects), stale, reconnects)
      ensures Value() == OnPackages(old(Value()), ps) && (ps == [] ==> stale == old(stale))
    {
      hide PomeloClient.Valid, OnPackage, ShortInterval;
      var i := 0;
      while i < |ps| && !crashed
        invariant i <= |ps| && Valid() && Tallied(old(stale), old(reconnects), stale, reconnects) && (i == 0 ==> stale == old(stale))
        invariant OnPackages(Value(), ps[i..]) == OnPackages(old(Value()), ps)
      {
        assert ps[i] in ps;
        HandlePackage(ps[i]);
        assert ps[i..][0] == ps[i] && ps[i..][1..] == ps[i + 1..];
        i := i + 1;
      }
    }

    /** The parser is reset where the client asked for it. */
    method ResetIfStale()
      requires Valid()
      modifies this`stale, parser
      ensures Valid() && !stale && (parser.pkgBuf == old(parser.pkgBuf) || fresh(parser.pkgBuf)) && parser.delivered == old(parser.delivered)
      ensures parser.Abstract() == if old(stale) && !old(parser.phase).PClosed? then P.AtHead([]) else old(parser.Abstract())
    {
      hide M.Refines, L.Kept, Files, Wired;
      if stale {
        parser.Reset();
        stale := false;
      }
    }

    /** One byte goes through the parser. */
    method FeedByte(b: byte) returns (m: nat)
      requires Valid()
      modifies parser, parser.headBuf, parser.pkgBuf
      ensures Valid() && (parser.pkgBuf == old(parser.pkgBuf) || fresh(parser.pkgBuf))
      ensures var r := P.Run(old(parser.Abstract()), [b]); parser.Abstract() == r.state && m == |r.out|
    {
      hide M.Refines, L.Kept, Files, Wired, P.Run;
      var n := |parser.delivered|;
      parser.Feed([b]);
      m := |parser.delivered| - n;
    }

    /** One byte, and the package that it completes, if any; the parser is then at the beginning of the next. */
    method HandleByte(b: byte, ps: seq<Pkg>, k: nat) returns (next: nat)
      requires Valid() && !stale && k + |P.Run(parser.Abstract(), [b]).out| <= |ps| && Short(ps)
      modifies this, requests, loop, loop.tree, parser, parser.headBuf, parser.pkgBuf
      ensures Valid() && !stale && (parser.pkgBuf == old(parser.pkgBuf) || fresh(parser.pkgBuf))
      ensures var r := P.Run(old(parser.Abstract()), [b]);
        next == k + |r.out| <= |ps| && parser.Abstract() == r.state && Value() == OnPackages(old(Value()), ps[k..next])
    {
      hide OnPackage, OnPackages, P.Run, PomeloClient.Tm, M.PcMap.Valid, L.Loop.Valid, Files, Wired, ShortInterval;
      AtBoundary(parser.Abstract(), b);
      var m := FeedByte(b);
      next := k + m;
      HandlePackages(ps[k..next]);
      ResetIfStale();
    }

    /** pc_client_on_tcp_read: a chunk whose packages are read as `ps`. */
    method HandleRead(data: seq<byte>, ps: seq<Pkg>)
      requires Valid() && !stale && I.Reads(P.Run(parser.Abstract(), data).out, ps) && Short(ps)
      modifies this, requests, loop, loop.tree, parser, parser.headBuf, parser.pkgBuf
      ensures Valid() && !stale && (parser.pkgBuf == old(parser.pkgBuf) || fresh(parser.pkgBuf))
      ensures Value() == OnPackages(old(Value()), ps) && parser.Abstract() == P.Run(old(parser.Abstract()), data).state
    {
      hide OnPackage, OnPackages, P.Run, PomeloClient.Tm, M.PcMap.Valid, L.Loop.Valid, Files, Wired, ShortInterval;
      ghost var s, c := parser.Abstract(), Value();
      P.RunNothing(s);
      NoPackages(c);
      var k := 0;
      for i := 0 to |data|
        invariant Valid() && !stale && (parser.pkgBuf == old(parser.pkgBuf) || fresh(parser.pkgBuf))
        invariant parser.Abstract() == P.Run(s, data[..i]).state && k == |P.Run(s, data[..i]).out| <= |ps|
        invariant Value() == OnPackages(c, ps[..k])
      {
        OneMoreByte(s, data, i);
        ghost var k0 := k;
        k := HandleByte(data[i], ps, k);
        PackagesSplit(c, ps[..k0], ps[k0..k]);
        assert ps[..k0] + ps[k0..k] == ps[..k];
      }
      assert data[..|data|] == data && ps[..k] == ps;
    }

    method HandleReadError()
      requires Valid()
      modifies this, requests, loop, loop.tree
      ensures Valid()
      ensures Tallied(old(stale), old(reconnects), stale, reconnects)
      ensures Value() == Stop(old(Value()).(reconnecting := false))
    {
      hide PomeloClient.Valid, PomeloClient.Tm, Stop;
      reconnecting := false;
      StopClient();
    }

    /** pc__handshake_timeout_cb. */
    method HandleHandshakeTimer()
      requires Valid()
      modifies this, requests, loop, loop.tree
      ensures Valid()
      ensures Tallied(old(stale), old(reconnects), stale, reconnects)
      ensures Value() == OnHandshakeTimer(old(Value()))
    {
      hide PomeloClient.Valid, PomeloClient.Tm, Stop;
      StopTimer(HANDSHAKE);
      log := log + [GreetingTimedOut];
      StopClient();
    }

    // ---------- every step ----------

    /** The callbacks that read no bytes. */
    method HandleLocal(e: Event)
      requires Valid() && !stale && !e.ERead? && Enabled(Value(), e)
      requires e.ESend? ==> WireId(e.req) !in filed
      modifies this, requests, loop, loop.tree
      ensures Valid() && stale == (reconnects > old(reconnects))
      ensures Value() == Step(old(Value()), e)
    {
      hide PomeloClient.Valid, PomeloClient.Tm, Stop, Connect, OnTcpConnect, OnPackages, OnBeatTimer, OnReconnectTimer, OnWritten,
        OnTimeout, OnHandshakeTimer, SendRequest, MakeRequest, Disconnect, WireId;
      match e
      case EConnect(cb, dialed) => var ok := ConnectTo(cb, dialed);
      case ETcpConnect(t, ok, reading, sent) => HandleTcpConnect(t, ok, reading, sent);
      case EReadError(_) => HandleReadError();
      case EBeatTimer(sent) => HandleBeatTimer(sent);
      case ETimeoutTimer => HandleTimeout();
      case EHandshakeTimer => HandleHandshakeTimer();
      case EReconnectTimer(resolved, dialed) => HandleReconnectTimer(resolved, dialed);
      case ERequest => Request();
      case ESend(r, encoded, sent) => Send(r, encoded, sent);
      case EWritten(w, ok) => HandleWritten(w, ok);
      case EDisconnect => DisconnectClient();
      case EClose => HandleClose();
    }

    /**
      Every callback takes the object, with its map, tree of timers and parser, along a step of the
      machine. That fewer than 2^32 requests were made is what keeps the map from being asked to replace
      one; `data` is the chunk of a read, and `e.pkgs` what its packages are read as.
     */
    method Handle(e: Event, data: seq<byte>)
      requires Valid() && !stale && Sound(Value()) && Enabled(Value(), e) && nextUid < TWO32
      requires e.ERead? ==> I.Reads(P.Run(parser.Abstract(), data).out, e.pkgs) && Short(e.pkgs)
      modifies this, requests, loop, loop.tree, parser, parser.headBuf, parser.pkgBuf
      ensures Valid() && !stale && Sound(Value()) && (parser.pkgBuf == old(parser.pkgBuf) || fresh(parser.pkgBuf))
      ensures Value() == Step(old(Value()), e)
      ensures parser.Abstract() == I.Parsed(old(Value()), e, old(parser.Abstract()), data)
    {
      hide M.PcMap.Valid, L.Loop.Valid, Files, Wired, PomeloClient.Tm, ShortInterval, P.Run, Sound, Step, Enabled;
      ghost var c := Value();
      SoundStep(c, e);
      if e.ERead? {
        ReadStep(c, e);
        HandleRead(data, e.pkgs);
      } else {
        if e.ESend? {
          SendIsNew(c, e);
        }
        HandleLocal(e);
        ResetIfStale();
      }
    }

    /** The tree never holds both timers of the heartbeat, and a request is in the map exactly when it is outstanding. */
    lemma Holds()
      requires Valid() && Sound(Value())
      ensures !(BEAT in loop.tree.Order() && TIMEOUT in loop.tree.Order())
      ensures forall id :: M.IdText(id) in requests.contents <==> id in Value().work.requests
    {
      hide M.Refines, M.IdText, R.Inv, H.Inv, ClientBeats.Paced;
      L.KeptMeans(loop.handles, loop.tree.Order(), loop.tree.keys, loop.counter, BEAT);
      L.KeptMeans(loop.handles, loop.tree.Order(), loop.tree.keys, loop.counter, TIMEOUT);
      forall id
        ensures M.IdText(id) in requests.contents <==> id in filed
      {
        FilesFind(filed, requests.contents, id);
      }
    }
  }

  /** What every run of fewer than 2^32 requests keeps. */
  ghost predicate Sound(c: Client) {
    R.Inv(c) && ClientBeats.Inv(c) && H.Inv(c)
  }

  lemma SoundStep(c: Client, e: Event)
    requires Sound(c) && Enabled(c, e) && c.work.nextUid < TWO32
    ensures Sound(Step(c, e))
  {
    hide R.Inv, ClientBeats.Inv, H.Good, H.LeftOver, Step;
    R.StepKeeps(c, e);
    ClientBeats.StepKeeps(c, e);
    assert !c.crashed by { hide Step; }
    Crashes.CrashIff(c, e);
  }

  lemma NewIs(enabled: bool)
    ensures New(enabled) == Client(enabled, Link(INITED, None, [], map[]), Timers(true, false, false, false, false, false, false, false),
                                   Work(map[], {}, multiset{}, 0), None, false, 0, [], false)
  {
  }

  lemma SoundStart(enabled: bool)
    ensures Sound(New(enabled))
  {
    hide R.Inv, H.Good;
    R.NewIsGood(enabled);
    H.NewIsGood(enabled);
  }

  lemma {:induction false} FewerRequests(es: seq<Event>, i: nat, n: nat)
    requires i <= n <= |es|
    ensures R.RequestsMade(es, i) <= R.RequestsMade(es, n)
    decreases n - i
  {
    if i < n {
      FewerRequests(es, i + 1, n);
    }
  }

  /** Whole runs: a new object taken through the callbacks of a run, fed with its chunks, ends in the state of the run and of its parser. */
  method Drive(enabled: bool, wait: nat, time: nat, es: seq<Event>, data: seq<seq<byte>>, ghost cs: seq<Client>, ghost ss: seq<P.State>)
    returns (client: PomeloClient)
    requires wait <= L.MAX64 && time <= L.MAX64
    requires I.IsFed(cs, es, ss, data) && cs[0] == New(enabled) && R.RequestsMade(es, |es|) < TWO32
    requires forall i :: 0 <= i < |es| && es[i].ERead? ==> Short(es[i].pkgs)
    ensures client.Valid() && client.Value() == cs[|es|] && client.parser.Abstract() == ss[|es|]
    ensures Sound(client.Value())
  {
    hide M.PcMap.Valid, L.Loop.Valid, Files, Wired, Short, P.Run, Sound, Step, Enabled, I.Parsed, I.Reads, PomeloClient.Value;
    client := new PomeloClient(enabled, wait, time);
    for i := 0 to |es|
      invariant client.Valid() && !client.stale && client.Value() == cs[i] && Sound(cs[i]) && client.parser.Abstract() == ss[i]
      invariant fresh(client) && fresh(client.requests) && fresh(client.loop) && fresh(client.loop.tree)
      invariant fresh(client.parser) && fresh(client.parser.headBuf) && fresh(client.parser.pkgBuf)
    {
      FewerRequests(es, i, |es|);
      R.RunKeeps(cs, es, i);
      client.Made();
      client.Handle(es[i], data[i]);
    }
  }

  lemma ReadStep(c: Client, e: Event)
    requires e.ERead? && Enabled(c, e)
    ensures Step(c, e) == OnPackages(c, e.pkgs)
  {
    hide OnPackages;
  }

  /** A request handed over goes under an id not in use. */
  lemma SendIsNew(c: Client, e: Event)
    requires Sound(c) && e.ESend? && Enabled(c, e) && c.work.nextUid < TWO32
    ensures WireId(e.req) !in c.work.requests
  {
    hide ClientBeats.Inv, H.Inv, R.T.Inv, R.Filed, R.Writing, R.Settled, R.Fair, R.Linked;
  }

  /** The count went up exactly when the parser is to be reset, unless that was so before. */
  predicate Tallied(stale: bool, n: nat, stale': bool, n': nat) {
    n <= n' && stale' == (stale || n < n')
  }

  /** A byte that completes a package leaves the parser at the beginning of the next. */
  lemma AtBoundary(s: P.State, b: byte)
    requires P.Reachable(s)
    ensures P.Run(s, [b]).out != [] ==> P.Run(s, [b]).state == P.AtHead([])
  {
    P.RunOne(s, b);
    hide P.Run;
  }

  lemma OneMoreByte(s: P.State, data: seq<byte>, i: nat)
    requires P.Reachable(s) && i < |data|
    ensures var x, y := P.Run(s, data[..i]), P.Run(s, data[..i + 1]);
      var z := P.Run(x.state, [data[i]]);
      y.state == z.state && |y.out| == |x.out| + |z.out| <= |P.Run(s, data).out|
  {
    hide P.Run;
    P.RunSplit(s, data[..i], [data[i]]);
    assert data[..i] + [data[i]] == data[..i + 1];
    P.RunSplit(s, data[..i + 1], data[i + 1..]);
    assert data[..i + 1] + data[i + 1..] == data;
  }

  lemma NoPackages(c: Client)
    ensures forall ps: seq<Pkg> :: ps == [] ==> OnPackages(c, ps) == c
  {
  }

  lemma {:induction false} PackagesSplit(c: Client, ps: seq<Pkg>, qs: seq<Pkg>)
    ensures OnPackages(c, ps + qs) == OnPackages(OnPackages(c, ps), qs)
    decreases |ps|
  {
    hide OnPackage;
    if ps == [] {
      assert ps + qs == qs;
    } else if !c.crashed {
      PackagesSplit(OnPackage(c, ps[0]), ps[1..], qs);
      assert (ps + qs)[0] == ps[0] && (ps + qs)[1..] == ps[1..] + qs;
    }
  }

  /** The interval of heartbeats, in milliseconds, and that of the timeout fit an `int`. */
  predicate ShortInterval(p: Pkg) {
    p.Handshake? && p.beats.Some? ==> p.beats.value * 2000 < TWO31
  }

  predicate Short(ps: seq<Pkg>) {
    forall p :: p in ps ==> ShortInterval(p)
  }

  lemma ClosedReconnect(c: Client)
    requires c.timers.reconnectClosed
    ensures Reconnect(c) == Crash(c)
  {
  }

  lemma ReconnectIs(c: Client, d: Client)
    requires !c.timers.reconnectClosed
    requires d.link == DropTransport(c.link, INITED)
    requires d.timers == if c.timers.open then c.timers.(beat := false, timeout := false, reconnect := true) else c.timers.(reconnect := true)
    requires d.work == c.work.(requests := map[]) && d.log == c.log + [Failure(c.work.requests.Values)]
    requires d.reconnecting && d.reconnects == c.reconnects + 1
    requires d.reconnectEnabled == c.reconnectEnabled && d.conn == c.conn && d.crashed == c.crashed
    ensures d == Reconnect(c)
  {
    hide DropTransport;
  }

  lemma ShutdownIs(c: Client, d: Client)
    requires d.link == DropTransport(c.link, CLOSED)
    requires var closed := c.timers.(open := false, beat := false, timeout := false, handshake := false);
      if !c.reconnectEnabled then d.timers == closed && d.crashed == c.crashed
      else if c.timers.reconnectClosed then d.timers == closed && d.crashed
      else d.timers == closed.(reconnectClosed := true, reconnect := false) && d.crashed == c.crashed
    requires d.work == c.work && d.log == c.log && d.reconnecting == c.reconnecting && d.reconnects == c.reconnects
    requires d.reconnectEnabled == c.reconnectEnabled && d.conn == c.conn
    ensures d == Shutdown(c)
  {
    hide DropTransport;
  }
}
