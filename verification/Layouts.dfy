/**
  The bytes on the wire, spelled out: varints and signed integers as in the sections "Base 128 Varints" and
  "Signed Integers" of the Protocol Buffers Encoding specification, and the layouts of Pomelo packages
  and messages.
 */
module Layouts {
  import opened Bytes
  import opened Varints
  import opened Message
  import Package

  // ---------- numbers ----------

  /** The lowest seven bits first; a set top bit says that more follow. */
  lemma VarintLayout(v: nat)
    ensures v < 0x80 ==> Varint(v) == [v]
    ensures 0x80 <= v < 0x4000 ==> Varint(v) == [0x80 + v % 0x80, v / 0x80]
    ensures 0x4000 <= v < 0x20_0000 ==> Varint(v) == [0x80 + v % 0x80, 0x80 + v / 0x80 % 0x80, v / 0x4000]
  {
    if 0x80 <= v {
      assert Varint(v) == [0x80 + v % 0x80] + Varint(v / 0x80);
    }
    if 0x4000 <= v {
      assert v / 0x80 / 0x80 == v / 0x4000;
      assert Varint(v / 0x80) == [0x80 + v / 0x80 % 0x80] + Varint(v / 0x4000);
    }
  }

  /** The examples of the specification. */
  lemma VarintExamples()
    ensures Varint(1) == [0x01] && Varint(150) == [0x96, 0x01] && Varint(300) == [0xAC, 0x02]
  {
    VarintLayout(1);
    VarintLayout(150);
    VarintLayout(300);
  }

  lemma ZigZagExamples()
    ensures ZigZag(0) == 0 && ZigZag(-1) == 1 && ZigZag(1) == 2 && ZigZag(-2) == 3
    ensures ZigZag(0x7FFF_FFFF) == 0xFFFF_FFFE && ZigZag(-0x8000_0000) == 0xFFFF_FFFF
  {
  }

  // ---------- packages ----------

  /** The type, the length in three bytes, the most significant first, and the body. */
  lemma PackageLayout(p: Package.Package)
    ensures |p.body| >= 0x100_0000 ==> Package.PackageBytes(p).None?
    ensures |p.body| < 0x100_0000 ==> Package.PackageBytes(p).Some?
    ensures |p.body| < 0x100_0000 ==>
      var s := Package.PackageBytes(p).value;
      && |s| == 4 + |p.body| && s[0] == p.kind && s[1] as int * 0x1_0000 + s[2] as int * 0x100 + s[3] as int == |p.body| && s[4..] == p.body
  {
    var n := |p.body|;
    if n < 0x100_0000 {
      assert n == n / 0x1_0000 * 0x1_0000 + n / 0x100 % 0x100 * 0x100 + n % 0x100 by {
        assert n / 0x100 == n / 0x1_0000 * 0x100 + n / 0x100 % 0x100;
      }
    }
  }

  // ---------- messages ----------

  /** With the route as text: a notification and a push carry no id, a request does. */
  lemma TextLayout(id: nat, route: Text, body: seq<byte>)
    requires |route| <= 255
    ensures TextMessage(Notify, id, route, body) == [2, |route|] + route + body
    ensures TextMessage(Push, id, route, body) == [6, |route|] + route + body
    ensures TextMessage(Request, id, route, body) == [0] + Varint(id) + [|route|] + route + body
  {
    hide Varint;
    assert Cut16(route) == route;
  }

  /** Of a longer route as much is sent as sixteen bits of its length say, and eight bits of that length. */
  lemma LongRouteLayout(id: nat, route: Text, body: seq<byte>)
    ensures var n := |route| % 0x1_0000; TextMessage(Notify, id, route, body) == [2, n % 0x100] + route[..n] + body
  {
  }

  /** An id is read modulo 2^32, however many bytes it takes. */
  lemma {:induction false} IdIsCut(data: seq<byte>, offset: nat, v: nat, i: nat, id: nat)
    requires offset + |Varint(v)| <= |data| && data[offset..offset + |Varint(v)|] == Varint(v) && id < TWO32
    ensures ReadId(data, offset, i, id) == Some((Cut(id, Weight(v, i)), offset + |Varint(v)|))
    decreases v
  {
    hide Pow128, Digit, Varint, ReadId, Weight, Cut;
    var s := Varint(v);
    VarintParts(v);
    assert data[offset] == s[0] by { assert data[offset..offset + |s|][0] == s[0]; }
    WeightParts(v, i);
    IdStep(data, offset, i, id);
    if v >= 128 {
      assert data[offset + 1..offset + |s|] == s[1..] by { assert data[offset..offset + |s|][1..] == s[1..]; }
      IdIsCut(data, offset + 1, v / 128, i + 1, Cut(id, Digit(s[0], i)));
      CutTwice(id, Digit(s[0], i), Weight(v / 128, i + 1));
    }
  }

  /** A sum modulo 2^32. */
  function Cut(a: nat, b: nat): (n: nat)
    ensures n < TWO32
  {
    (a + b) % TWO32
  }

  /** `v` from the `i`-th base-128 digit on. */
  function Weight(v: nat, i: nat): nat { Product(v, Pow128(i)) }

  function Product(a: nat, b: nat): nat { a * b }

  lemma CutTwice(a: nat, b: nat, c: nat)
    ensures Cut(Cut(a, b), c) == Cut(a, b + c)
  {
  }

  lemma WeightParts(v: nat, i: nat)
    ensures v < 128 ==> Digit(v, i) == Weight(v, i)
    ensures v >= 128 ==> Weight(v, i) == Digit(v % 128 + 128, i) + Weight(v / 128, i + 1)
  {
    hide Pow128, Digit;
    DigitOf(v, i);
  }

  lemma IdStep(data: seq<byte>, offset: nat, i: nat, id: nat)
    requires offset < |data| && id < TWO32
    ensures var id' := Cut(id, Digit(data[offset], i));
      ReadId(data, offset, i, id) == if data[offset] < 128 then Some((id', offset + 1)) else ReadId(data, offset + 1, i + 1, id')
  {
    hide Digit;
  }

  /** With the route as a code, of which sixteen bits are sent; a response has no route. */
  lemma CodeLayout(id: nat, code: int, body: seq<byte>)
    ensures var route := [code / 0x100 % 0x100, code % 0x100];
      && CodeMessage(Notify, id, code, body) == [3] + route + body
      && CodeMessage(Push, id, code, body) == [7] + route + body
      && CodeMessage(Request, id, code, body) == [1] + Varint(id) + route + body
      && CodeMessage(Response, id, code, body) == [5] + Varint(id) + body
  {
    hide Varint;
  }

  /** What the decoder makes of these bytes. */
  lemma TextDecoded(id: nat, route: Text, body: seq<byte>)
    requires id < TWO32 && 0 !in route && 1 <= |route| <= 127
    ensures Decode([2, |route|] + route + body) == Some(Raw(Notify, 0, RouteText(route), body))
    ensures Decode([6, |route|] + route + body) == Some(Raw(Push, 0, RouteText(route), body))
    ensures Decode([0] + Varint(id) + [|route|] + route + body) == Some(Raw(Request, id, RouteText(route), body))
  {
    hide Decode, TextMessage;
    TextLayout(id, route, body);
    TextLayout(0, route, body);
    TextRoundTrip(Notify, 0, route, body);
    TextRoundTrip(Push, 0, route, body);
    TextRoundTrip(Request, id, route, body);
  }

  lemma CodeDecoded(id: nat, hi: byte, lo: byte, body: seq<byte>)
    requires id < TWO32
    ensures var code := hi as int * 0x100 + lo;
      && Decode([3, hi, lo] + body) == Some(Raw(Notify, 0, RouteCode(code), body))
      && Decode([7, hi, lo] + body) == Some(Raw(Push, 0, RouteCode(code), body))
      && Decode([1] + Varint(id) + [hi, lo] + body) == Some(Raw(Request, id, RouteCode(code), body))
      && Decode([5] + Varint(id) + body) == Some(Raw(Response, id, NoRoute, body))
  {
    hide Decode, CodeMessage, Varint;
    var code := hi as int * 0x100 + lo;
    assert code / 0x100 % 0x100 == hi && code % 0x100 == lo && code % 0x1_0000 == code;
    CodeLayout(id, code, body);
    CodeLayout(0, code, body);
    CodeRoundTrip(Notify, 0, code, body);
    CodeRoundTrip(Push, 0, code, body);
    CodeRoundTrip(Request, id, code, body);
    ResponseRoundTrip(id, code, body, 0);
    assert [3] + [hi, lo] == [3, hi, lo] && [7] + [hi, lo] == [7, hi, lo];
  }

  /** No other flag byte is taken. */
  lemma OtherTypesRefused(data: seq<byte>)
    requires data == [] || data[0] >= 8
    ensures Decode(data).None?
  {
  }
}
