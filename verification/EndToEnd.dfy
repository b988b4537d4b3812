/**
  The whole wire stack: application messages, encoded by protobuf or JSON, given a route as text or
  dictionary code, framed, concatenated, cut into arbitrary chunks and fed to the parser, come out
  with the same types, ids, routes and bodies, in order (src/protocol.c over the layers below it).
 */
module EndToEnd {
  import opened Bytes
  import opened JsonValues
  import opened Package
  import opened Message
  import ProtoSchema
  import ProtoBytes
  import ProtoDecode
  import ProtoRoundTrip
  import ProtoNormal
  import JsonDump
  import JsonLoad
  import JsonRoundTrip
  import ProtoSize
  import Floats

  /** PC_PKG_DATA. */
  const DATA: byte := 4

  /** What both ends agreed on in the handshake: the route dictionary and the message definitions. */
  datatype Session = Session(dict: seq<Coded>, protos: ProtoSchema.Globals)

  datatype Sent = Sent(mtype: MsgType, id: nat, route: Text, body: seq<byte>)

  /** json_object_get on the dictionary. */
  function CodeOf(dict: seq<Coded>, route: Text): (r: Option<int>)
    ensures r.Some? ==> exists i :: 0 <= i < |dict| && dict[i] == Coded(route, r.value)
  {
    if dict == [] then None
    else if dict[0].route == route then Some(dict[0].code)
    else
      var r := CodeOf(dict[1..], route);
      assert r.Some? ==> exists i :: 0 <= i < |dict| && dict[i] == Coded(route, r.value) by {
        if r.Some? {
          var i :| 0 <= i < |dict[1..]| && dict[1..][i] == Coded(route, r.value);
          assert dict[i + 1] == Coded(route, r.value);
        }
      }
      r
  }

  /** pc__default_msg_encode_cb on an encoded body: a positive code replaces the route text. */
  function EncodeSent(dict: seq<Coded>, m: Sent): seq<byte> {
    match CodeOf(dict, m.route)
    case Some(code) =>
      if code > 0 then CodeMessage(m.mtype, m.id, code, m.body) else TextMessage(m.mtype, m.id, m.route, m.body)
    case None => TextMessage(m.mtype, m.id, m.route, m.body)
  }

  /** pc__default_msg_parse_cb up to the body, for the types that carry a route. */
  function ParseSent(codes: map<nat, Text>, data: seq<byte>): Option<Sent> {
    var raw :- Decode(data);
    var route :- match raw.route
      case RouteCode(c) => ResolveCode(codes, c)
      case RouteText(t) => Some(t)
      case NoRoute => None;
    Some(Sent(raw.mtype, raw.id, route, raw.body))
  }

  /** A route is sent as a code, which the flag byte tells by being odd, exactly when the dictionary has a positive code for it. */
  lemma CodedIff(dict: seq<Coded>, m: Sent)
    requires Routes(dict)
    ensures EncodeSent(dict, m)[0] % 2 == 1 <==> exists i :: 0 <= i < |dict| && dict[i].route == m.route && dict[i].code > 0
  {
    FirstOf(dict, m.route);
  }

  lemma {:induction false} FirstOf(dict: seq<Coded>, route: Text)
    ensures CodeOf(dict, route).None? ==> forall i :: 0 <= i < |dict| ==> dict[i].route != route
    ensures Routes(dict) && CodeOf(dict, route).Some? ==>
      forall i :: 0 <= i < |dict| && dict[i].route == route ==> dict[i].code == CodeOf(dict, route).value
  {
    if dict != [] {
      FirstOf(dict[1..], route);
      assert forall i :: 0 < i < |dict| ==> dict[i] == dict[1..][i - 1];
      assert Routes(dict) ==> Routes(dict[1..]);
    }
  }

  predicate UsesCode(dict: seq<Coded>, route: Text) {
    CodeOf(dict, route).Some? && CodeOf(dict, route).value > 0
  }

  predicate Sendable(dict: seq<Coded>, m: Sent) {
    && m.mtype.HasRoute() && m.id < TWO32 && (!m.mtype.HasId() ==> m.id == 0)
    && (UsesCode(dict, m.route) || (0 !in m.route && 1 <= |m.route| <= 127))
    && |EncodeSent(dict, m)| < MAX_BODY
  }

  lemma SentRoundTrip(dict: seq<Coded>, m: Sent)
    requires Routes(dict) && InjectiveMod256(dict) && Sendable(dict, m)
    ensures ParseSent(Invert(dict), EncodeSent(dict, m)) == Some(m)
  {
    hide CodeMessage, TextMessage, Decode, Invert, ResolveCode, Routes, InjectiveMod256;
    if UsesCode(dict, m.route) {
      var code := CodeOf(dict, m.route).value;
      var i :| 0 <= i < |dict| && dict[i] == Coded(m.route, code);
      DictionaryIff(dict);
      CodeRoundTrip(m.mtype, m.id, code, m.body);
    } else {
      TextRoundTrip(m.mtype, m.id, m.route, m.body);
    }
  }

  function Frames(dict: seq<Coded>, ms: seq<Sent>): (ps: seq<Package>)
    ensures |ps| == |ms|
    ensures forall i :: 0 <= i < |ms| ==> ps[i] == Package(DATA, EncodeSent(dict, ms[i]))
  {
    seq(|ms|, i requires 0 <= i < |ms| => Package(DATA, EncodeSent(dict, ms[i])))
  }

  predicate AllSendable(dict: seq<Coded>, ms: seq<Sent>) {
    forall i :: 0 <= i < |ms| ==> Sendable(dict, ms[i])
  }

  lemma FramesAreShort(dict: seq<Coded>, ms: seq<Sent>)
    requires AllSendable(dict, ms)
    ensures forall i :: 0 <= i < |ms| ==> |Frames(dict, ms)[i].body| < MAX_BODY
  {
    forall i | 0 <= i < |ms|
      ensures |Frames(dict, ms)[i].body| < MAX_BODY
    {
      assert Sendable(dict, ms[i]);
    }
  }

  /** The bytes that a list of messages puts on the connection. */
  function Wire(dict: seq<Coded>, ms: seq<Sent>): seq<byte>
    requires AllSendable(dict, ms)
  {
    FramesAreShort(dict, ms);
    Stream(Frames(dict, ms))
  }

  /** What the packages delivered by the parser are read as. */
  ghost predicate Received(codes: map<nat, Text>, ps: seq<Package>, ms: seq<Sent>) {
    && |ps| == |ms|
    && forall i :: 0 <= i < |ps| ==> ps[i].kind == DATA && ParseSent(codes, ps[i].body) == Some(ms[i])
  }

  /** However the connection cuts the bytes, the same messages come out in the same order. */
  lemma Delivery(dict: seq<Coded>, ms: seq<Sent>, chunks: seq<seq<byte>>)
    requires Routes(dict) && InjectiveMod256(dict)
    requires AllSendable(dict, ms)
    requires Flatten(chunks) == Wire(dict, ms)
    ensures var r := Run(AtHead([]), Flatten(chunks));
      r.state == AtHead([]) && Received(Invert(dict), r.out, ms)
  {
    hide EncodeSent, ParseSent, Run, Invert, Routes, InjectiveMod256;
    FramesAreShort(dict, ms);
    CutsDoNotMatter(Frames(dict, ms), chunks);
    forall i | 0 <= i < |ms|
      ensures ParseSent(Invert(dict), EncodeSent(dict, ms[i])) == Some(ms[i])
    {
      SentRoundTrip(dict, ms[i]);
    }
  }

  // ---- bodies ----

  /**
    Protobuf when the route has a definition, compact JSON otherwise. pc__pb_encode gives an empty
    body, and no error, when the message does not fit its definition or the encoding its buffer.
   */
  function EncodeBody(protos: ProtoSchema.Globals, route: Text, msg: Json): Option<seq<byte>>
    requires JsonDump.Plain(msg)
  {
    if route in protos then
      Some(if msg.Obj? && ProtoSize.FitsEstimate(protos, protos[route], msg.entries)
           then ProtoBytes.MessageBytes(protos, protos[route], msg.entries).value else [])
    else if msg.Obj? || msg.Arr? then Some(JsonDump.Dump(msg, ProtoSize.COMPACT, 0))
    else None
  }

  /** `NoMessage`: an empty body is handed to the application as a null message. */
  datatype Arrived = Refused | NoMessage | Arrived(msg: Json)

  function DecodeBody(protos: ProtoSchema.Globals, route: Text, body: seq<byte>): Arrived {
    if body == [] then NoMessage
    else if route in protos then
      match ProtoDecode.Decode(body, protos, protos[route])
      case None => Refused
      case Some(es) => Arrived(Obj(es))
    else
      match JsonLoad.Load(body)
      case None => Refused
      case Some(v) => Arrived(v)
  }

  /** What a message is expected to arrive as: numbers converted to the kind of their field, what leaves no trace dropped. */
  function Expected(protos: ProtoSchema.Globals, route: Text, msg: Json): Json {
    if route in protos && msg.Obj?
    then Obj(ProtoRoundTrip.Keep(protos, protos[route], ProtoNormal.Normal(protos, protos[route], msg.entries)))
    else msg
  }

  /**
    What the library asks of a message: JSON text for a route without a definition; with one, no string
    field without a string, well-formed definitions, and no integer that rounds up to 2^63.
   */
  ghost predicate Encodable(protos: ProtoSchema.Globals, route: Text, msg: Json) {
    && JsonDump.Plain(msg)
    && if route in protos then
         msg.Obj? ==>
           && !ProtoNormal.MessageFault(protos, protos[route], msg.entries).NullText?
           && ProtoNormal.Defined(protos, protos[route], msg.entries)
       else msg.Obj? || msg.Arr?
  }

  /** An entry of which nothing goes on the wire. */
  predicate Silent(p: ProtoSchema.Proto, e: Entry) {
    ProtoNormal.Ignored(p, e) || (e.key in p.fields && ProtoRoundTrip.Vanishes(p, e))
  }

  predicate AllSilent(p: ProtoSchema.Proto, es: seq<Entry>) {
    forall i :: 0 <= i < |es| ==> Silent(p, es[i])
  }

  /** A message with a definition gets through: its encoding fits the estimate, and is not empty. */
  predicate Delivers(protos: ProtoSchema.Globals, route: Text, msg: Json)
    requires JsonDump.Plain(msg)
  {
    route in protos ==>
      && msg.Obj? && ProtoSize.FitsEstimate(protos, protos[route], msg.entries)
      && !AllSilent(protos[route], msg.entries)
  }

  lemma {:induction false} EmptyEncoding(g: ProtoSchema.Globals, p: ProtoSchema.Proto, es: seq<Entry>)
    requires ProtoBytes.MessageBytes(g, p, es).Some?
    ensures ProtoBytes.MessageBytes(g, p, es) == Some([]) <==> AllSilent(p, es)
    decreases es
  {
    hide ProtoBytes.EntryBytes, Silent;
    if es != [] {
      EmptyEntry(g, p, es[0]);
      EmptyEncoding(g, p, es[1..]);
      SilentStep(p, es);
      EmptyMessage(g, p, es);
    }
  }

  lemma EmptyMessage(g: ProtoSchema.Globals, p: ProtoSchema.Proto, es: seq<Entry>)
    requires es != []
    ensures ProtoBytes.MessageBytes(g, p, es) == Some([]) <==>
      ProtoBytes.EntryBytes(g, p, es[0]) == Some([]) && ProtoBytes.MessageBytes(g, p, es[1..]) == Some([])
  {
    hide ProtoBytes.EntryBytes;
    var first, rest := ProtoBytes.EntryBytes(g, p, es[0]), ProtoBytes.MessageBytes(g, p, es[1..]);
    assert ProtoBytes.MessageBytes(g, p, es) == if first.Some? && rest.Some? then Some(first.value + rest.value) else None;
    if first.Some? && rest.Some? {
      NothingAdded(first.value, rest.value);
    }
  }

  lemma NothingAdded(a: seq<byte>, b: seq<byte>)
    ensures a + b == [] <==> a == [] && b == []
  {
    assert |a + b| == |a| + |b|;
  }

  lemma SilentStep(p: ProtoSchema.Proto, es: seq<Entry>)
    requires es != []
    ensures AllSilent(p, es) <==> Silent(p, es[0]) && AllSilent(p, es[1..])
  {
    hide Silent;
    assert forall i :: 0 <= i < |es[1..]| ==> es[1..][i] == es[i + 1];
    assert forall i :: 0 < i < |es| ==> es[i] == es[1..][i - 1];
  }

  lemma EmptyEntry(g: ProtoSchema.Globals, p: ProtoSchema.Proto, e: Entry)
    requires ProtoBytes.EntryBytes(g, p, e).Some?
    ensures ProtoBytes.EntryBytes(g, p, e) == Some([]) <==> Silent(p, e)
  {
    hide ProtoBytes.ValueBytes, ProtoBytes.PackedBytes, ProtoBytes.Tag;
    var f := p.fields[e.key];
    if f.presence.Repeated? && !f.kind.Packed() && e.value.Arr? && e.value.items != [] {
      TaggedNotEmpty(g, p, f, e.value.items);
    }
  }

  lemma TaggedNotEmpty(g: ProtoSchema.Globals, p: ProtoSchema.Proto, f: ProtoSchema.Field, vs: seq<Json>)
    requires vs != [] && ProtoBytes.TaggedBytes(g, p, f, vs).Some?
    ensures ProtoBytes.TaggedBytes(g, p, f, vs).value != []
  {
    hide ProtoBytes.ValueBytes, ProtoBytes.Tag;
  }

  /**
    A body of fewer than 2^31 bytes arrives as the value its definition sees, without what leaves no trace,
    if and only if it is JSON or its encoding meets no schema error, fits the estimate and is not empty;
    otherwise it arrives as no message.
   */
  lemma BodyRoundTrip(protos: ProtoSchema.Globals, route: Text, msg: Json)
    requires Encodable(protos, route, msg)
    ensures EncodeBody(protos, route, msg).Some?
    ensures var body := EncodeBody(protos, route, msg).value;
      |body| < TWO31 ==>
        DecodeBody(protos, route, body) == if Delivers(protos, route, msg) then Arrived(Expected(protos, route, msg)) else NoMessage
  {
    hide ProtoBytes.MessageBytes, ProtoDecode.Decode, JsonDump.Dump, JsonLoad.Load, ProtoRoundTrip.Keep;
    hide JsonDump.Plain, ProtoNormal.MessageFault, ProtoNormal.Defined, ProtoNormal.Normal, AllSilent;
    if route in protos && !(msg.Obj? && ProtoSize.FitsEstimate(protos, protos[route], msg.entries)) {
      FailureIsSentEmpty(protos, route, msg);
    } else if route in protos {
      ProtoNormal.MessageFaultIff(protos, protos[route], msg.entries);
      ProtoNormal.RoundTripOfAny(protos, protos[route], msg.entries);
      EmptyEncoding(protos, protos[route], msg.entries);
    } else {
      JsonRoundTrip.RoundTrip(msg, ProtoSize.COMPACT);
      JsonNotEmpty(msg);
    }
  }

  lemma JsonNotEmpty(msg: Json)
    requires JsonDump.Plain(msg) && (msg.Obj? || msg.Arr?)
    ensures JsonDump.Dump(msg, ProtoSize.COMPACT, 0) != []
  {
    hide JsonDump.DumpItems, JsonDump.DumpEntries;
  }

  /**
    Whatever the message, on a route with a definition a failed encoding is sent as an empty body: a
    schema error or an encoding longer than the estimate is not noticed.
   */
  lemma FailureIsSentEmpty(protos: ProtoSchema.Globals, route: Text, msg: Json)
    requires JsonDump.Plain(msg) && route in protos
    requires msg.Obj? ==> !ProtoNormal.MessageFault(protos, protos[route], msg.entries).NullText?
    ensures !(msg.Obj? && ProtoSize.FitsEstimate(protos, protos[route], msg.entries)) ==>
      EncodeBody(protos, route, msg) == Some([]) && DecodeBody(protos, route, []) == NoMessage
  {
  }

  /** A session with one definition, and seven times -1 in its repeated uInt32. */
  const ONE_DEFINITION: ProtoSchema.Globals := map[[97] := ProtoSize.ArrayOf(ProtoSchema.KUInt32)]

  function SevenMinusOnes(): Json { Obj(ProtoSize.Counts(-1, 7)) }

  /** That message fits its definition and has an encoding of 72 bytes; none of it is sent. */
  lemma SilentlyEmpty()
    ensures ProtoSchema.Typed(ONE_DEFINITION, ProtoSize.ArrayOf(ProtoSchema.KUInt32), SevenMinusOnes().entries)
    ensures Encodable(ONE_DEFINITION, [97], SevenMinusOnes()) && !Delivers(ONE_DEFINITION, [97], SevenMinusOnes())
    ensures ProtoBytes.MessageBytes(ONE_DEFINITION, ProtoSize.ArrayOf(ProtoSchema.KUInt32), SevenMinusOnes().entries).Some?
    ensures |ProtoBytes.MessageBytes(ONE_DEFINITION, ProtoSize.ArrayOf(ProtoSchema.KUInt32), SevenMinusOnes().entries).value| == 72
    ensures EncodeBody(ONE_DEFINITION, [97], SevenMinusOnes()) == Some([])
  {
    hide JsonDump.Plain, ProtoBytes.MessageBytes, ProtoSchema.Typed, ProtoSize.FitsEstimate, ProtoSize.Counts, ProtoSize.ArrayOf,
      ProtoNormal.MessageFault, ProtoNormal.Defined;
    ProtoNormal.MessageFaultIff(ONE_DEFINITION, ProtoSize.ArrayOf(ProtoSchema.KUInt32), SevenMinusOnes().entries);
    ProtoSize.CountsDefined(ONE_DEFINITION, ProtoSchema.KUInt32, -1, 7);
    ProtoSize.PlainCounts(-1, 7);
    ProtoSize.CountsTyped(ONE_DEFINITION, -1, 7);
    ProtoSize.CopiesFit(ONE_DEFINITION, ProtoSchema.KUInt32, -1, 7);
    ProtoSize.CountsBytes(ONE_DEFINITION, ProtoSchema.KUInt32, -1, 7);
    ProtoSize.OneUnsigned(-1);
    ProtoSize.VarintShort(7);
    FailureIsSentEmpty(ONE_DEFINITION, [97], SevenMinusOnes());
  }

  /** A definition with one required float, `a`, and the message {"a":1}. */
  const ONE_FLOAT: ProtoSchema.Proto :=
    ProtoSchema.Proto(map[[97] := ProtoSchema.Field(ProtoSchema.Required, ProtoSchema.KFloat, 1)], None, Some(map[1 := [97]]))

  const FLOATS: ProtoSchema.Globals := map[[97] := ONE_FLOAT]

  const ONE: seq<Entry> := [Entry([97], Int(1))]

  lemma OneIsModest()
    ensures JsonDump.Plain(Obj(ONE)) && |JsonDump.Dump(Obj(ONE), ProtoSize.COMPACT, 0)| == 7
    ensures ProtoSize.Modest(FLOATS, ONE_FLOAT, ONE)
  {
    ProtoSize.OneLetterKey();
    assert JsonDump.PlainEntry(ONE[0]) && ProtoSize.ModestEntry(FLOATS, ONE_FLOAT, ONE[0]);
    hide JsonDump.Quoted, ProtoSize.ModestEntry;
    assert |JsonDump.DumpEntry(ONE[0], ProtoSize.COMPACT, 0)| == 5;
    assert JsonDump.DumpEntries(ONE, ProtoSize.COMPACT, 0) == JsonDump.DumpEntry(ONE[0], ProtoSize.COMPACT, 0) + [];
  }

  lemma OneIsDefined()
    ensures ProtoNormal.Defined(FLOATS, ONE_FLOAT, ONE)
    ensures ProtoNormal.Normal(FLOATS, ONE_FLOAT, ONE) == [Entry([97], Single(Floats.SingleOfInt(1)))]
  {
    hide Floats.SingleOfInt;
    assert ProtoNormal.DefinedEntry(FLOATS, ONE_FLOAT, ONE[0]);
    assert ProtoSchema.WellFormed(ONE_FLOAT);
    assert ONE[1..] == [];
  }

  /** An integer in a float field gets through, and arrives as the real that it is. */
  lemma IntegerBecomesReal()
    ensures JsonDump.Plain(Obj(ONE)) && Encodable(FLOATS, [97], Obj(ONE)) && Delivers(FLOATS, [97], Obj(ONE))
    ensures Expected(FLOATS, [97], Obj(ONE)) == Obj([Entry([97], Single(Floats.SingleOfInt(1)))])
    ensures Floats.IntOfSingle(Floats.SingleOfInt(1)) == 1
  {
    hide Floats.SingleOfInt, Floats.IntOfSingle, JsonDump.Plain, JsonDump.Dump, ProtoSize.Modest, ProtoNormal.MessageFault,
      ProtoNormal.Defined, ProtoNormal.Normal, ProtoBytes.MessageBytes;
    Floats.SingleRoundTrip(1);
    OneIsModest();
    OneIsDefined();
    ProtoSize.ModestFits(FLOATS, ONE_FLOAT, ONE);
    ProtoNormal.MessageFaultIff(FLOATS, ONE_FLOAT, ONE);
    assert !Silent(ONE_FLOAT, ONE[0]);
    var e := Entry([97], Single(Floats.SingleOfInt(1)));
    assert ProtoRoundTrip.Keep(FLOATS, ONE_FLOAT, [e]) == [e] by {
      assert [e][1..] == [];
      assert ProtoRoundTrip.KeepEntry(FLOATS, ONE_FLOAT, e) == e;
    }
  }

  /** A definition with one required string, `a`; {"a":1} makes the encoder call strlen on a null pointer. */
  const ONE_TEXT: ProtoSchema.Proto :=
    ProtoSchema.Proto(map[[97] := ProtoSchema.Field(ProtoSchema.Required, ProtoSchema.KString, 1)], None, Some(map[1 := [97]]))

  lemma NullTextMet()
    ensures ProtoNormal.MessageFault(map[[97] := ONE_TEXT], ONE_TEXT, ONE) == ProtoNormal.NullText
  {
    assert ProtoNormal.EntryFault(map[[97] := ONE_TEXT], ONE_TEXT, ONE[0]) == ProtoNormal.NullText;
  }

  datatype App = App(mtype: MsgType, id: nat, route: Text, msg: Json)

  ghost predicate AppSendable(s: Session, a: App) {
    && Encodable(s.protos, a.route, a.msg)
    && EncodeBody(s.protos, a.route, a.msg).Some?
    && Sendable(s.dict, Lower(s, a))
  }

  function Lower(s: Session, a: App): Sent
    requires JsonDump.Plain(a.msg) && EncodeBody(s.protos, a.route, a.msg).Some?
  {
    Sent(a.mtype, a.id, a.route, EncodeBody(s.protos, a.route, a.msg).value)
  }

  ghost predicate AllAppSendable(s: Session, apps: seq<App>) {
    forall i :: 0 <= i < |apps| ==> AppSendable(s, apps[i])
  }

  ghost function LowerAll(s: Session, apps: seq<App>): (ms: seq<Sent>)
    requires AllAppSendable(s, apps)
    ensures |ms| == |apps| && AllSendable(s.dict, ms)
  {
    var ms := seq(|apps|, i requires 0 <= i < |apps| => assert AppSendable(s, apps[i]); Lower(s, apps[i]));
    assert AllSendable(s.dict, ms) by {
      hide EncodeBody, Encodable, Sendable;
      forall i | 0 <= i < |apps|
        ensures Sendable(s.dict, ms[i])
      {
        assert AppSendable(s, apps[i]);
      }
    }
    ms
  }

  /** The application sees the type, id and route that were sent, and the value if and only if it gets through. */
  ghost predicate Seen(s: Session, m: Sent, a: App) {
    && m.mtype == a.mtype && m.id == a.id && m.route == a.route
    && AppSendable(s, a)
    && DecodeBody(s.protos, m.route, m.body) ==
       if Delivers(s.protos, a.route, a.msg) then Arrived(Expected(s.protos, a.route, a.msg)) else NoMessage
  }

  lemma SeenAsSent(s: Session, a: App)
    requires AppSendable(s, a)
    ensures Seen(s, Lower(s, a), a)
  {
    hide EncodeBody, DecodeBody, EncodeSent, Delivers;
    BodyRoundTrip(s.protos, a.route, a.msg);
    BodyIsShorter(s.dict, Lower(s, a));
  }

  /** End to end, from JSON value to JSON value, across every layer and every cut of the stream. */
  lemma FullStack(s: Session, apps: seq<App>, chunks: seq<seq<byte>>)
    requires Routes(s.dict) && InjectiveMod256(s.dict)
    requires AllAppSendable(s, apps)
    requires Flatten(chunks) == Wire(s.dict, LowerAll(s, apps))
    ensures var r := Run(AtHead([]), Flatten(chunks)); var ms := LowerAll(s, apps);
      && r.state == AtHead([]) && Received(Invert(s.dict), r.out, ms)
      && forall i :: 0 <= i < |apps| ==> Seen(s, ms[i], apps[i])
  {
    hide Seen, AppSendable, Run, Invert, Routes, InjectiveMod256, Received, Wire, Sendable;
    var ms := LowerAll(s, apps);
    Delivery(s.dict, ms, chunks);
    forall i | 0 <= i < |apps|
      ensures Seen(s, ms[i], apps[i])
    {
      SeenAsSent(s, apps[i]);
    }
  }

  lemma BodyIsShorter(dict: seq<Coded>, m: Sent)
    ensures |m.body| <= |EncodeSent(dict, m)|
  {
  }

  /** A message that certainly gets through: JSON, or modest and not all of it silent. */
  ghost predicate Safe(s: Session, a: App)
    requires JsonDump.Plain(a.msg)
  {
    a.route in s.protos ==>
      && a.msg.Obj? && ProtoSize.Modest(s.protos, s.protos[a.route], a.msg.entries)
      && |JsonDump.Dump(a.msg, ProtoSize.COMPACT, 0)| < ProtoSize.LIMIT
      && !AllSilent(s.protos[a.route], a.msg.entries)
  }

  lemma SafeDelivers(s: Session, a: App)
    requires Encodable(s.protos, a.route, a.msg) && Safe(s, a)
    ensures Delivers(s.protos, a.route, a.msg)
  {
    hide JsonDump.Plain, JsonDump.Dump, ProtoNormal.MessageFault, ProtoNormal.Defined, ProtoSize.Modest, ProtoSize.FitsEstimate, AllSilent;
    if a.route in s.protos {
      ProtoSize.ModestFits(s.protos, s.protos[a.route], a.msg.entries);
    }
  }

  /** Safe messages all arrive. */
  lemma SafeStack(s: Session, apps: seq<App>, chunks: seq<seq<byte>>)
    requires Routes(s.dict) && InjectiveMod256(s.dict)
    requires AllAppSendable(s, apps) && Flatten(chunks) == Wire(s.dict, LowerAll(s, apps))
    requires forall i :: 0 <= i < |apps| ==> JsonDump.Plain(apps[i].msg) && Safe(s, apps[i])
    ensures var r := Run(AtHead([]), Flatten(chunks)); var ms := LowerAll(s, apps);
      && r.state == AtHead([]) && Received(Invert(s.dict), r.out, ms)
      && forall i :: 0 <= i < |apps| ==>
        DecodeBody(s.protos, ms[i].route, ms[i].body) == Arrived(Expected(s.protos, apps[i].route, apps[i].msg))
  {
    hide Run, Invert, Routes, InjectiveMod256, Received, Wire, Sendable, DecodeBody, Expected, Safe, Delivers, Encodable, EncodeBody;
    FullStack(s, apps, chunks);
    var ms := LowerAll(s, apps);
    forall i | 0 <= i < |apps|
      ensures DecodeBody(s.protos, ms[i].route, ms[i].body) == Arrived(Expected(s.protos, apps[i].route, apps[i].msg))
    {
      assert AppSendable(s, apps[i]) && Seen(s, ms[i], apps[i]);
      SafeDelivers(s, apps[i]);
    }
  }
}
