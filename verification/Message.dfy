/**
  The message layer (src/message.c, src/protocol.c, src/pkg-handshake.c): a flag byte, a base-128 id
  for requests and responses, a route as text or as a dictionary code for all but responses, a body.
 */
module Message {
  import opened Bytes
  import opened Varints

  datatype MsgType = Request | Notify | Response | Push {
    function Code(): (n: nat)
      ensures n < 4
    {
      match this
      case Request => 0
      case Notify => 1
      case Response => 2
      case Push => 3
    }
    predicate HasId() { Request? || Response? }
    predicate HasRoute() { !Response? }
  }

  function TypeOf(n: nat): Option<MsgType> {
    if n == 0 then Some(Request) else if n == 1 then Some(Notify)
    else if n == 2 then Some(Response) else if n == 3 then Some(Push) else None
  }

  /** The union `route` of pc__msg_raw_t; an empty text route is the null pointer. */
  datatype Route = NoRoute | RouteText(text: Text) | RouteCode(code: nat)

  datatype Raw = Raw(mtype: MsgType, id: nat, route: Route, body: seq<byte>)

  // ---- encoding ----

  function IdBytes(t: MsgType, id: nat): seq<byte> {
    if t.HasId() then Varint(id) else []
  }

  /** The route length is kept in sixteen bits. */
  function Cut16(route: Text): Text {
    route[..|route| % 0x10000]
  }

  /** pc_msg_encode_route: one length byte, however long the route is. */
  function TextMessage(t: MsgType, id: nat, route: Text, body: seq<byte>): seq<byte> {
    [t.Code() * 2] + IdBytes(t, id) + [|Cut16(route)| % 0x100] + Cut16(route) + body
  }

  /** pc_msg_encode_code; a response has no route. */
  function CodeMessage(t: MsgType, id: nat, code: int, body: seq<byte>): seq<byte> {
    [t.Code() * 2 + 1] + IdBytes(t, id) + CodeBytes(t, code) + body
  }

  function CodeBytes(t: MsgType, code: int): seq<byte> {
    if t.HasRoute() then [code / 0x100 % 0x100, code % 0x100] else []
  }

  /** What pc_msg_encode_route makes of a response: room for a route length is reserved, and never written. */
  function TextResponse(id: nat, body: seq<byte>, junk: byte): seq<byte> {
    [Response.Code() * 2] + Varint(id) + body + [junk]
  }

  /** pc__msg_id_length. */
  method IdLength(id: nat) returns (len: nat)
    ensures len == |Varint(id)|
  {
    len := 1;
    var rest := id / 128;
    while rest > 0
      invariant |Varint(id)| == if rest > 0 then len + |Varint(rest)| else len
    {
      len := len + 1;
      rest := rest / 128;
    }
  }

  /** pc__msg_encode_id. */
  method WriteId(id: nat, base: array<byte>, offset: nat) returns (next: nat)
    requires offset + |Varint(id)| <= base.Length
    modifies base
    ensures next == offset + |Varint(id)|
    ensures base[..] == Splice(old(base[..]), offset, Varint(id))
  {
    hide Splice;
    next := offset;
    var rest := id;
    ghost var done: seq<byte> := [];
    SpliceNothing(base[..], offset);
    while true
      invariant next == offset + |done| && Varint(id) == done + Varint(rest)
      invariant base[..] == Splice(old(base[..]), offset, done)
      decreases rest
    {
      var tmp := rest % 128;
      var quotient := rest / 128;
      if quotient != 0 {
        tmp := tmp + 128;
      }
      SpliceOne(old(base[..]), offset, done, tmp);
      assert base[..][next := tmp] == Splice(old(base[..]), offset, done + [tmp]);
      base[next] := tmp;
      next := next + 1;
      done := done + [tmp];
      if quotient == 0 {
        break;
      }
      rest := quotient;
    }
  }

  /** The flag and the id, at the beginning of a buffer. */
  method WriteHead(base: array<byte>, flag: byte, t: MsgType, id: nat) returns (offset: nat)
    requires 1 + |IdBytes(t, id)| <= base.Length
    modifies base
    ensures offset == 1 + |IdBytes(t, id)| && base[..offset] == [flag] + IdBytes(t, id)
  {
    base[0] := flag;
    offset := 1;
    assert base[..1] == [flag];
    if t.HasId() {
      ghost var b0 := base[..];
      offset := WriteId(id, base, offset);
      SpliceParts(b0, 1, Varint(id));
      assert base[..offset] == base[..][..1] + base[..][1..offset];
    }
  }

  /** pc_msg_encode_route; the last byte of a response is whatever the memory held. */
  method EncodeText(t: MsgType, id: nat, route: Text, body: seq<byte>) returns (r: seq<byte>)
    ensures t.HasRoute() ==> r == TextMessage(t, id, route, body)
    ensures !t.HasRoute() ==> exists junk :: r == TextResponse(id, body, junk)
  {
    hide Varint, Splice;
    var idLen := 0;
    if t.HasId() {
      idLen := IdLength(id);
    }
    var text := if t.HasRoute() then Cut16(route) else [];
    var base := new byte[1 + idLen + 1 + |text| + |body|];
    var offset := WriteHead(base, t.Code() * 2, t, id);
    if t.HasRoute() {
      offset := WriteRoute(base, offset, text);
    }
    r := WriteBody(base, offset, body);
    if !t.HasRoute() {
      assert r == TextResponse(id, body, r[|r| - 1]);
    }
  }

  /** The body, behind what was written before; at most one byte of the buffer stays behind it. */
  method WriteBody(base: array<byte>, offset: nat, body: seq<byte>) returns (r: seq<byte>)
    requires offset + |body| <= base.Length <= offset + |body| + 1
    modifies base
    ensures |r| == base.Length
    ensures r == old(base[..offset]) + body + if base.Length == offset + |body| then [] else [r[|r| - 1]]
  {
    ghost var head := base[..offset];
    Memcpy(base, offset, body);
    ghost var end := offset + |body|;
    r := base[..];
    assert r == base[..offset] + base[offset..end] + base[end..];
    assert base[..offset] == head && base[offset..end] == body;
  }

  /** pc__msg_encode_route: the length in one byte, and the text. */
  method WriteRoute(base: array<byte>, offset: nat, text: Text) returns (next: nat)
    requires offset + 1 + |text| <= base.Length
    modifies base
    ensures next == offset + 1 + |text| && base[..next] == old(base[..offset]) + [|text| % 0x100] + text
  {
    base[offset] := |text| % 0x100;
    ghost var head := base[..offset + 1];
    assert head == old(base[..offset]) + [|text| % 0x100];
    Memcpy(base, offset + 1, text);
    next := offset + 1 + |text|;
    assert base[..next] == base[..offset + 1] + base[offset + 1..next];
  }

  /** Two bytes of route code, the high one first. */
  method WriteCode(base: array<byte>, offset: nat, code: int)
    requires offset + 2 <= base.Length
    modifies base
    ensures base[..offset + 2] == old(base[..offset]) + [code / 0x100 % 0x100, code % 0x100]
  {
    base[offset] := code / 0x100 % 0x100;
    base[offset + 1] := code % 0x100;
  }

  /** pc_msg_encode_code. */
  method EncodeCode(t: MsgType, id: nat, code: int, body: seq<byte>) returns (r: seq<byte>)
    ensures r == CodeMessage(t, id, code, body)
  {
    hide Varint, Splice;
    var idLen := 0;
    if t.HasId() {
      idLen := IdLength(id);
    }
    var codeLen := if t.HasRoute() then 2 else 0;
    var base := new byte[1 + idLen + codeLen + |body|];
    var offset := WriteHead(base, t.Code() * 2 + 1, t, id);
    if t.HasRoute() {
      WriteCode(base, offset, code);
      offset := offset + 2;
    }
    r := WriteBody(base, offset, body);
  }

  // ---- decoding ----

  /**
    The id loop of pc_msg_decode from its `i`-th byte on, modulo 2^32. The source does not check that
    the bytes are there; an id that runs off the message is None here.
   */
  function ReadId(data: seq<byte>, offset: nat, i: nat, id: nat): (r: Option<(nat, nat)>)
    requires id < TWO32
    ensures r.Some? ==> r.value.0 < TWO32 && offset < r.value.1 <= |data|
    decreases |data| - offset
  {
    if offset >= |data| then None
    else
      var m := data[offset];
      var id' := (id + Digit(m, i)) % TWO32;
      if m >= 128 then ReadId(data, offset + 1, i + 1, id') else Some((id', offset + 1))
  }

  /**
    The route of pc_msg_decode. The length byte is read as a plain char: from 128 on it becomes a
    size no allocation meets, and the message is refused. At 255 the size plus one is 0: the allocation
    succeeds, the test of the length wraps around, and memory is overwritten; the model refuses here too.
   */
  function ReadRoute(data: seq<byte>, offset: nat, compressed: bool): (r: Option<(Route, nat)>)
    ensures r.Some? ==> offset < r.value.1 <= |data|
  {
    if compressed then
      if offset + 2 > |data| then None
      else Some((RouteCode(data[offset] as int * 0x100 + data[offset + 1]), offset + 2))
    else if offset + 1 > |data| then None
    else
      var n := data[offset];
      if n >= 128 || offset + 1 + n > |data| then None
      else Some((if n == 0 then NoRoute else RouteText(CString(data[offset + 1..offset + 1 + n])), offset + 1 + n))
  }

  /** pc_msg_decode. */
  function Decode(data: seq<byte>): Option<Raw> {
    if data == [] then None
    else
      var t :- TypeOf(data[0] / 2);
      var (id, offset) :- if t.HasId() then ReadId(data, 1, 0, 0) else Some((0, 1));
      var (route, offset') :- if t.HasRoute() then ReadRoute(data, offset, data[0] % 2 == 1) else Some((NoRoute, offset));
      Some(Raw(t, id, route, data[offset'..]))
  }

  method DecodeMessage(data: seq<byte>) returns (r: Option<Raw>)
    ensures r == Decode(data)
  {
    hide Digit;
    if 1 > |data| {
      return None;
    }
    var offset := 1;
    var t := TypeOf(data[0] / 2);
    if t.None? {
      return None;
    }
    var id: nat := 0;
    if t.value.HasId() {
      if offset + 1 > |data| {
        return None;
      }
      var i := 0;
      var more := true;
      while more
        invariant id < TWO32 && 1 <= offset
        invariant more ==> ReadId(data, 1, 0, 0) == ReadId(data, offset, i, id)
        invariant !more ==> offset <= |data| && ReadId(data, 1, 0, 0) == Some((id, offset))
        decreases more, |data| - offset
      {
        if offset >= |data| {
          return None;
        }
        var m := data[offset];
        offset := offset + 1;
        id := (id + Digit(m, i)) % TWO32;
        i := i + 1;
        more := m >= 128;
      }
    }
    var route := NoRoute;
    if t.value.HasRoute() {
      var rr := ReadRoute(data, offset, data[0] % 2 == 1);
      if rr.None? {
        return None;
      }
      route, offset := rr.value.0, rr.value.1;
    }
    return Some(Raw(t.value, id, route, data[offset..]));
  }

  // ---- round trips ----

  lemma {:induction false} IdRoundTrip(data: seq<byte>, offset: nat, v: nat, i: nat, id: nat)
    requires offset + |Varint(v)| <= |data| && data[offset..offset + |Varint(v)|] == Varint(v)
    requires id < TWO32 && id + v * Pow128(i) < TWO32
    ensures ReadId(data, offset, i, id) == Some((id + v * Pow128(i), offset + |Varint(v)|))
    decreases v
  {
    hide Pow128, Digit, Varint, ReadId;
    var s := Varint(v);
    VarintParts(v);
    assert data[offset] == s[0] by { assert data[offset..offset + |s|][0] == s[0]; }
    DigitOf(v, i);
    ReadIdStep(data, offset, i, id);
    if v >= 128 {
      assert data[offset + 1..offset + |s|] == s[1..] by { assert data[offset..offset + |s|][1..] == s[1..]; }
      IdRoundTrip(data, offset + 1, v / 128, i + 1, id + Digit(s[0], i));
    }
  }

  lemma VarintParts(v: nat)
    ensures if v < 128 then Varint(v) == [v] else Varint(v)[0] == v % 128 + 128 && Varint(v)[1..] == Varint(v / 128)
  {
  }

  lemma ReadIdStep(data: seq<byte>, offset: nat, i: nat, id: nat)
    requires offset < |data| && id + Digit(data[offset], i) < TWO32
    ensures var id' := id + Digit(data[offset], i);
      ReadId(data, offset, i, id) == if data[offset] < 128 then Some((id', offset + 1)) else ReadId(data, offset + 1, i + 1, id')
  {
    hide Digit;
  }

  lemma Pow128Zero()
    ensures Pow128(0) == 1
  {
  }

  /** The common beginning of an encoded message is read back. */
  lemma HeadRoundTrip(flag: byte, t: MsgType, id: nat, rest: seq<byte>)
    requires flag / 2 == t.Code() && id < TWO32 && (!t.HasId() ==> id == 0)
    ensures var data := [flag] + IdBytes(t, id) + rest; var o := 1 + |IdBytes(t, id)|;
      && TypeOf(data[0] / 2) == Some(t)
      && (if t.HasId() then ReadId(data, 1, 0, 0) else Some((0, 1))) == Some((id, o))
      && data[o..] == rest
  {
    hide Varint, ReadId, Pow128;
    var data := [flag] + IdBytes(t, id) + rest;
    if t.HasId() {
      Pow128Zero();
      assert data[1..1 + |Varint(id)|] == Varint(id);
      IdRoundTrip(data, 1, id, 0, 0);
    }
  }

  /** A code message comes back with its type, id, code modulo 2^16 and body. */
  lemma CodeRoundTrip(t: MsgType, id: nat, code: int, body: seq<byte>)
    requires t.HasRoute() && id < TWO32 && (!t.HasId() ==> id == 0)
    ensures Decode(CodeMessage(t, id, code, body)) == Some(Raw(t, id, RouteCode(code % 0x10000), body))
  {
    hide IdBytes, ReadId;
    var flag := t.Code() * 2 + 1;
    var rest := CodeBytes(t, code) + body;
    HeadRoundTrip(flag, t, id, rest);
    var data := CodeMessage(t, id, code, body);
    assert data == [flag] + IdBytes(t, id) + rest;
    var o := 1 + |IdBytes(t, id)|;
    assert data[o..][0] == rest[0] && data[o..][1] == rest[1];
    assert code % 0x10000 == code / 0x100 % 0x100 * 0x100 + code % 0x100;
    assert data[o + 2..] == data[o..][2..] == body;
  }

  /** A response encoded with a code comes back as it was; encoded with a text route, its body grows by a byte of memory. */
  lemma ResponseRoundTrip(id: nat, code: int, body: seq<byte>, junk: byte)
    requires id < TWO32
    ensures Decode(CodeMessage(Response, id, code, body)) == Some(Raw(Response, id, NoRoute, body))
    ensures Decode(TextResponse(id, body, junk)) == Some(Raw(Response, id, NoRoute, body + [junk]))
  {
    hide ReadId, Varint;
    HeadRoundTrip(5, Response, id, body);
    HeadRoundTrip(4, Response, id, body + [junk]);
    assert CodeMessage(Response, id, code, body) == [5] + Varint(id) + body;
    assert TextResponse(id, body, junk) == [4] + Varint(id) + (body + [junk]);
  }

  /** Where the route of a text message stands, and what its length byte is. */
  lemma TextLayout(t: MsgType, id: nat, route: Text, body: seq<byte>)
    requires t.HasRoute() && id < TWO32 && (!t.HasId() ==> id == 0)
    ensures var data := TextMessage(t, id, route, body); var o := 1 + |IdBytes(t, id)|;
      && data != [] && data[0] % 2 == 0 && o < |data|
      && TypeOf(data[0] / 2) == Some(t)
      && (if t.HasId() then ReadId(data, 1, 0, 0) else Some((0, 1))) == Some((id, o))
      && data[o] == |route| % 0x100
      && data[o + 1..] == Cut16(route) + body
  {
    hide IdBytes, ReadId, TypeOf, Cut16;
    var flag := t.Code() * 2;
    var text := Cut16(route);
    CutKeepsLow(route);
    var rest := [|text| % 0x100] + text + body;
    HeadRoundTrip(flag, t, id, rest);
    assert TextMessage(t, id, route, body) == [flag] + IdBytes(t, id) + rest;
    Behind([flag] + IdBytes(t, id), |text| % 0x100, text + body);
    assert rest == [|text| % 0x100] + (text + body);
  }

  lemma CutKeepsLow(route: Text)
    ensures |Cut16(route)| % 0x100 == |route| % 0x100
  {
  }

  lemma Behind(a: seq<byte>, b: byte, c: seq<byte>)
    ensures var d := a + ([b] + c); |a| < |d| && d[|a|] == b && d[|a| + 1..] == c
  {
  }

  lemma TextRoundTrip(t: MsgType, id: nat, route: Text, body: seq<byte>)
    requires t.HasRoute() && id < TWO32 && (!t.HasId() ==> id == 0)
    requires 0 !in route && 1 <= |route| <= 127
    ensures Decode(TextMessage(t, id, route, body)) == Some(Raw(t, id, RouteText(route), body))
  {
    hide IdBytes, ReadId, TextMessage, TypeOf, CString;
    TextLayout(t, id, route, body);
    var data, o, n := TextMessage(t, id, route, body), 1 + |IdBytes(t, id)|, |route|;
    assert Cut16(route) == route;
    assert data[o + 1..o + 1 + n] == data[o + 1..][..n] == route;
    assert data[o + 1 + n..] == data[o + 1..][n..] == body;
    CStringOfText(route);
  }

  /** A text message comes back exactly when its route has between 1 and 127 bytes. */
  lemma TextRoundTripIff(t: MsgType, id: nat, route: Text, body: seq<byte>)
    requires t.HasRoute() && id < TWO32 && (!t.HasId() ==> id == 0) && 0 !in route
    ensures Decode(TextMessage(t, id, route, body)) == Some(Raw(t, id, RouteText(route), body))
      <==> 1 <= |route| <= 127
  {
    hide IdBytes, ReadId, TextMessage, TypeOf, CString, Cut16;
    if 1 <= |route| <= 127 {
      TextRoundTrip(t, id, route, body);
    } else {
      TextLayout(t, id, route, body);
      var data, o, n := TextMessage(t, id, route, body), 1 + |IdBytes(t, id)|, |route| % 0x100;
      if 0 < n < 128 && o + 1 + n <= |data| {
        assert |CString(data[o + 1..o + 1 + n])| <= n < |route|;
      }
    }
  }

  // ---- routes and the dictionary of the handshake ----

  /** One entry of the dictionary sent by the server: a route and its code. */
  datatype Coded = Coded(route: Text, code: int)

  /** json_object_set over the entries in iteration order, keyed by the low byte of the code. */
  function Invert(dict: seq<Coded>): map<nat, Text> {
    if dict == [] then map[]
    else
      var last := dict[|dict| - 1];
      Invert(dict[..|dict| - 1])[last.code % 0x100 := last.route]
  }

  /** The loop of pc__handshake_resp that fills code_to_route. */
  method InvertDictionary(dict: seq<Coded>) returns (codes: map<nat, Text>)
    ensures codes == Invert(dict)
  {
    codes := map[];
    for i := 0 to |dict|
      invariant codes == Invert(dict[..i])
    {
      assert dict[..i + 1][..i] == dict[..i];
      codes := codes[dict[i].code % 0x100 := dict[i].route];
    }
    assert dict[..|dict|] == dict;
  }

  /** pc__resolve_dictionary looks only at the low byte. */
  function ResolveCode(codes: map<nat, Text>, code: nat): Option<Text> {
    if code % 0x100 in codes then Some(codes[code % 0x100]) else None
  }

  predicate Routes(dict: seq<Coded>) {
    forall i, j :: 0 <= i < j < |dict| ==> dict[i].route != dict[j].route
  }

  predicate InjectiveMod256(dict: seq<Coded>) {
    forall i, j :: 0 <= i < j < |dict| ==> dict[i].code % 0x100 != dict[j].code % 0x100
  }

  /** A key holds the last route filed under it. */
  lemma {:induction false} InvertAt(dict: seq<Coded>, i: nat)
    requires i < |dict|
    ensures dict[i].code % 0x100 in Invert(dict)
    ensures (forall j :: i < j < |dict| ==> dict[j].code % 0x100 != dict[i].code % 0x100)
      ==> Invert(dict)[dict[i].code % 0x100] == dict[i].route
    ensures exists j ::
      i <= j < |dict| && dict[j].code % 0x100 == dict[i].code % 0x100 && Invert(dict)[dict[i].code % 0x100] == dict[j].route
    decreases |dict|
  {
    var n := |dict| - 1;
    if dict[n].code % 0x100 == dict[i].code % 0x100 {
      assert Invert(dict)[dict[i].code % 0x100] == dict[n].route;
    } else {
      var shorter := dict[..n];
      InvertAt(shorter, i);
      var j :| i <= j < |shorter| && shorter[j].code % 0x100 == shorter[i].code % 0x100
        && Invert(shorter)[shorter[i].code % 0x100] == shorter[j].route;
      assert dict[j] == shorter[j];
      assert forall k :: 0 <= k < n ==> dict[k] == shorter[k];
    }
  }

  /** Every route of the dictionary is resolved from its own code, whatever the code's high bytes, exactly when
      the codes differ modulo 256. */
  lemma DictionaryIff(dict: seq<Coded>)
    requires Routes(dict)
    ensures (forall i :: 0 <= i < |dict| ==> ResolveCode(Invert(dict), dict[i].code % 0x10000) == Some(dict[i].route))
      <==> InjectiveMod256(dict)
  {
    forall i | 0 <= i < |dict|
      ensures InjectiveMod256(dict) ==> ResolveCode(Invert(dict), dict[i].code % 0x10000) == Some(dict[i].route)
    {
      InvertAt(dict, i);
      LowByte(dict[i].code);
    }
    forall i, j | 0 <= i < j < |dict| && dict[i].code % 0x100 == dict[j].code % 0x100
      ensures ResolveCode(Invert(dict), dict[i].code % 0x10000) != Some(dict[i].route)
           || ResolveCode(Invert(dict), dict[j].code % 0x10000) != Some(dict[j].route)
    {
      LowByte(dict[i].code);
      LowByte(dict[j].code);
    }
  }

  lemma LowByte(code: int)
    ensures code % 0x10000 % 0x100 == code % 0x100
  {
  }
}
