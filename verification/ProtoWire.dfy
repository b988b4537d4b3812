/**
  The encoder against the wire format itself: a reader that knows nothing of the definitions, only the
  section "Message Structure" of the Protocol Buffers Encoding specification, gets through what was encoded,
  field by field. Arrays of numbers are the exception: they carry a count of elements where the format
  has a single value or a length in bytes.
 */
module ProtoWire {
  import opened Bytes
  import opened JsonValues
  import opened ProtoSchema
  import opened Varints
  import opened ProtoBytes
  import ProtoRoundTrip

  /** One field: its number, and where the next one begins. */
  datatype Skipped = Stuck | Skipped(number: nat, next: Cursor)

  /** The low three bits of a tag tell what follows: 0 a varint, 1 eight bytes, 2 a length and that many bytes, 5 four bytes. */
  function Skip(buf: seq<byte>, c: Cursor): (r: Skipped)
    requires c.In(buf)
    ensures r.Skipped? ==> r.next.In(buf) && r.next.left < c.left
  {
    var t := ReadVarint(buf, c);
    if !t.ok then Stuck
    else if t.value % 8 == 0 then
      var v := ReadVarint(buf, t.at);
      if v.ok then Skipped(t.value / 8, v.at) else Stuck
    else if t.value % 8 == 1 then
      if t.at.left >= 8 then Skipped(t.value / 8, t.at.Skip(8)) else Stuck
    else if t.value % 8 == 2 then
      var n := ReadVarint(buf, t.at);
      if n.ok && n.value <= n.at.left then Skipped(t.value / 8, n.at.Skip(n.value)) else Stuck
    else if t.value % 8 == 5 then
      if t.at.left >= 4 then Skipped(t.value / 8, t.at.Skip(4)) else Stuck
    else Stuck
  }

  /** The numbers of all fields up to the end. */
  function Fields(buf: seq<byte>, c: Cursor): Option<seq<nat>>
    requires c.In(buf)
    decreases c.left
  {
    if c.left == 0 then Some([])
    else
      match Skip(buf, c)
      case Stuck => None
      case Skipped(n, next) =>
        var rest :- Fields(buf, next);
        Some([n] + rest)
  }

  // ---------- one value ----------

  lemma TagReads(buf: seq<byte>, c: Cursor, p: Proto, k: Text)
    requires WellFormed(p) && k in p.fields && c.At(buf, Tag(p.fields[k]))
    ensures var f := p.fields[k];
      ReadVarint(buf, c) == VarintRead(true, f.tag * 8 + WireType(f.kind), c.Skip(|Tag(f)|))
  {
    hide Varint, ReadVarint;
    var f := p.fields[k];
    ReadWritten(buf, c, f.tag * 8 + WireType(f.kind));
  }

  lemma LengthReads(buf: seq<byte>, c: Cursor, body: seq<byte>)
    requires c.At(buf, Varint(|body|) + body) && |body| < TWO31
    ensures var n := ReadVarint(buf, c);
      n.ok && n.value == |body| && n.value <= n.at.left && n.at.Skip(n.value) == c.Skip(|Varint(|body|) + body|)
  {
    hide Varint, ReadVarint;
    ProtoRoundTrip.AtConcat(buf, c, Varint(|body|), body);
    ReadWritten(buf, c, |body|);
  }

  /** A tag and a value of the field's kind are one field to that reader. */
  lemma ValueSkips(buf: seq<byte>, c: Cursor, g: Globals, p: Proto, k: Text, v: Json, s: seq<byte>)
    requires WellFormed(p) && k in p.fields && ValueBytes(g, p, p.fields[k].kind, v) == Some(s)
    requires c.At(buf, Tag(p.fields[k]) + s) && |s| < TWO31
    ensures Skip(buf, c) == Skipped(p.fields[k].tag, c.Skip(|Tag(p.fields[k]) + s|))
  {
    hide Varint, ReadVarint, Tag, CString, MessageBytes, IntOf, SingleOf, DoubleOf, Skip;
    var f := p.fields[k];
    match f.kind
    case KUInt32 => IntSkips(buf, c, p, k, Unsigned64(IntOf(v).value));
    case KInt32 => IntSkips(buf, c, p, k, ZigZag(IntOf(v).value) % TWO64);
    case KSInt32 => IntSkips(buf, c, p, k, ZigZag(IntOf(v).value) % TWO64);
    case KFloat => RealSkips(buf, c, p, k, s);
    case KDouble => RealSkips(buf, c, p, k, s);
    case KString => TextSkips(buf, c, p, k, CString(v.text));
    case KMessage(name) =>
      var sub := Resolve(g, p.messages.value, name).value;
      TextSkips(buf, c, p, k, (if v.Obj? then MessageBytes(g, sub, v.entries) else Some([])).value);
  }

  lemma IntSkips(buf: seq<byte>, c: Cursor, p: Proto, k: Text, n: nat)
    requires WellFormed(p) && k in p.fields && c.At(buf, Tag(p.fields[k]) + Varint(n)) && n < TWO64
    requires p.fields[k].kind.KUInt32? || p.fields[k].kind.KInt32? || p.fields[k].kind.KSInt32?
    ensures Skip(buf, c) == Skipped(p.fields[k].tag, c.Skip(|Tag(p.fields[k]) + Varint(n)|))
  {
    hide Varint, ReadVarint, Tag;
    var f := p.fields[k];
    ProtoRoundTrip.AtConcat(buf, c, Tag(f), Varint(n));
    TagReads(buf, c, p, k);
    ReadWritten(buf, c.Skip(|Tag(f)|), n);
  }

  lemma RealSkips(buf: seq<byte>, c: Cursor, p: Proto, k: Text, s: seq<byte>)
    requires WellFormed(p) && k in p.fields && c.At(buf, Tag(p.fields[k]) + s)
    requires (p.fields[k].kind.KFloat? && |s| == 4) || (p.fields[k].kind.KDouble? && |s| == 8)
    ensures Skip(buf, c) == Skipped(p.fields[k].tag, c.Skip(|Tag(p.fields[k]) + s|))
  {
    hide ReadVarint, Tag;
    ProtoRoundTrip.AtConcat(buf, c, Tag(p.fields[k]), s);
    TagReads(buf, c, p, k);
  }

  lemma TextSkips(buf: seq<byte>, c: Cursor, p: Proto, k: Text, body: seq<byte>)
    requires WellFormed(p) && k in p.fields && c.At(buf, Tag(p.fields[k]) + (Varint(|body|) + body)) && |body| < TWO31
    requires p.fields[k].kind.KString? || p.fields[k].kind.KMessage?
    ensures Skip(buf, c) == Skipped(p.fields[k].tag, c.Skip(|Tag(p.fields[k]) + (Varint(|body|) + body)|))
  {
    hide Varint, ReadVarint, Tag;
    var f := p.fields[k];
    ProtoRoundTrip.AtConcat(buf, c, Tag(f), Varint(|body|) + body);
    TagReads(buf, c, p, k);
    LengthReads(buf, c.Skip(|Tag(f)|), body);
  }

  /** Every entry that is no array is one field, under the number of its definition. */
  lemma SingleSkips(buf: seq<byte>, c: Cursor, g: Globals, p: Proto, e: Entry, s: seq<byte>)
    requires WellFormed(p) && e.key in p.fields && (p.fields[e.key].presence.Required? || p.fields[e.key].presence.Optional?)
    requires EntryBytes(g, p, e) == Some(s) && c.At(buf, s) && |s| < TWO31
    ensures Skip(buf, c) == Skipped(p.fields[e.key].tag, c.Skip(|s|))
  {
    hide Skip, ValueBytes, Tag;
    ValueSkips(buf, c, g, p, e.key, e.value, ValueBytes(g, p, p.fields[e.key].kind, e.value).value);
  }

  // ---------- whole messages ----------

  /** `n` times the number `k`. */
  function Times(k: nat, n: nat): seq<nat> { seq(n, _ => k) }

  /** The fields an entry makes: one for each element of an array of strings or messages. */
  function NumbersOf(p: Proto, e: Entry): seq<nat>
    requires e.key in p.fields
  {
    var f := p.fields[e.key];
    match f.presence
    case Required => [f.tag]
    case Optional => [f.tag]
    case Repeated => if e.value.Arr? then Times(f.tag, |e.value.items|) else []
    case OtherOption => []
  }

  function Numbers(p: Proto, es: seq<Entry>): seq<nat>
    requires forall i :: 0 <= i < |es| ==> es[i].key in p.fields
  {
    if es == [] then [] else NumbersOf(p, es[0]) + Numbers(p, es[1..])
  }

  /** No array of numbers. */
  predicate Standard(p: Proto, es: seq<Entry>) {
    forall i :: 0 <= i < |es| ==>
      && es[i].key in p.fields
      && (p.fields[es[i].key].presence.Repeated? && es[i].value.Arr? ==> p.fields[es[i].key].kind.KString? || p.fields[es[i].key].kind.KMessage?)
  }

  lemma {:induction false} TaggedFields(buf: seq<byte>, c: Cursor, g: Globals, p: Proto, k: Text, vs: seq<Json>, s: seq<byte>)
    requires WellFormed(p) && k in p.fields && TaggedBytes(g, p, p.fields[k], vs) == Some(s) && c.At(buf, s) && |s| < TWO31
    ensures var rest := Fields(buf, c.Skip(|s|));
      Fields(buf, c) == if rest.None? then None else Some(Times(p.fields[k].tag, |vs|) + rest.value)
    decreases vs
  {
    hide Skip, ValueBytes, Tag;
    var rest := Fields(buf, c.Skip(|s|));
    if vs == [] {
      assert rest.Some? ==> Times(p.fields[k].tag, 0) + rest.value == rest.value;
    } else {
      var f := p.fields[k];
      var first, more := ValueBytes(g, p, f.kind, vs[0]).value, TaggedBytes(g, p, f, vs[1..]).value;
      ProtoRoundTrip.AtConcat(buf, c, Tag(f) + first, more);
      ValueSkips(buf, c, g, p, k, vs[0], first);
      TaggedFields(buf, c.Skip(|Tag(f) + first|), g, p, k, vs[1..], more);
      assert rest.Some? ==> [f.tag] + (Times(f.tag, |vs| - 1) + rest.value) == Times(f.tag, |vs|) + rest.value;
    }
  }

  lemma EntryFields(buf: seq<byte>, c: Cursor, g: Globals, p: Proto, e: Entry, s: seq<byte>)
    requires WellFormed(p) && Standard(p, [e]) && EntryBytes(g, p, e) == Some(s) && c.At(buf, s) && |s| < TWO31
    ensures e.key in p.fields
    ensures var rest := Fields(buf, c.Skip(|s|));
      Fields(buf, c) == if rest.None? then None else Some(NumbersOf(p, e) + rest.value)
  {
    hide Skip, ValueBytes, Tag, TaggedBytes;
    assert e == [e][0];
    var f := p.fields[e.key];
    var rest := Fields(buf, c.Skip(|s|));
    if f.presence.Repeated? && e.value.Arr? {
      TaggedFields(buf, c, g, p, e.key, e.value.items, s);
    } else if f.presence.Required? || f.presence.Optional? {
      SingleSkips(buf, c, g, p, e, s);
    } else {
      assert rest.Some? ==> [] + rest.value == rest.value;
    }
  }

  lemma {:induction false} MessageFields(buf: seq<byte>, c: Cursor, g: Globals, p: Proto, es: seq<Entry>, s: seq<byte>)
    requires WellFormed(p) && Standard(p, es) && MessageBytes(g, p, es) == Some(s) && c.At(buf, s) && c.left == |s| < TWO31
    ensures Fields(buf, c) == Some(Numbers(p, es))
    decreases es
  {
    hide Skip, EntryBytes, NumbersOf, WellFormed;
    if es != [] {
      var first, rest := EntryBytes(g, p, es[0]).value, MessageBytes(g, p, es[1..]).value;
      ProtoRoundTrip.AtConcat(buf, c, first, rest);
      assert Standard(p, [es[0]]) && Standard(p, es[1..]);
      EntryFields(buf, c, g, p, es[0], first);
      MessageFields(buf, c.Skip(|first|), g, p, es[1..], rest);
    }
  }

  /**
    Every message without an array of numbers is a message of the wire format, whatever its definition:
    its fields are those of its entries, in order, under their numbers.
   */
  lemma IsWireFormat(g: Globals, p: Proto, es: seq<Entry>)
    requires WellFormed(p) && Standard(p, es) && MessageBytes(g, p, es).Some? && |MessageBytes(g, p, es).value| < TWO31
    ensures var s := MessageBytes(g, p, es).value; Fields(s, Cursor(0, |s|)) == Some(Numbers(p, es))
  {
    hide MessageBytes, Fields;
    var s := MessageBytes(g, p, es).value;
    assert s[0..|s|] == s;
    MessageFields(s, Cursor(0, |s|), g, p, es, s);
  }

  // ---------- arrays, byte by byte ----------

  /** The elements one after the other. */
  function Joined(ss: seq<seq<byte>>): seq<byte> {
    if ss == [] then [] else ss[0] + Joined(ss[1..])
  }

  function Parts(g: Globals, p: Proto, kind: Kind, vs: seq<Json>): (ss: seq<seq<byte>>)
    requires forall i :: 0 <= i < |vs| ==> ValueBytes(g, p, kind, vs[i]).Some?
    ensures |ss| == |vs| && forall i :: 0 <= i < |vs| ==> ss[i] == ValueBytes(g, p, kind, vs[i]).value
  {
    if vs == [] then [] else [ValueBytes(g, p, kind, vs[0]).value] + Parts(g, p, kind, vs[1..])
  }

  /** An array of numbers is one tag, the count and the elements: wire type 0 for integers, 5 for floats, 1 for doubles. */
  lemma NumberArrayLayout(g: Globals, p: Proto, e: Entry, kind: Kind, number: nat)
    requires kind == KUInt32 || kind == KInt32 || kind == KSInt32 || kind == KFloat || kind == KDouble
    requires e.key in p.fields && p.fields[e.key] == Field(Repeated, kind, number) && number < 0x1000_0000 && e.value.Arr?
    requires forall i :: 0 <= i < |e.value.items| ==> ValueBytes(g, p, kind, e.value.items[i]).Some?
    ensures var wire := if kind.KFloat? then 5 else if kind.KDouble? then 1 else 0;
      EntryBytes(g, p, e) == Some(Varint(number * 8 + wire) + Varint(|e.value.items|) + Joined(Parts(g, p, kind, e.value.items)))
  {
    hide Varint, ValueBytes;
    PackedIsJoined(g, p, kind, e.value.items);
  }

  lemma {:induction false} PackedIsJoined(g: Globals, p: Proto, kind: Kind, vs: seq<Json>)
    requires forall i :: 0 <= i < |vs| ==> ValueBytes(g, p, kind, vs[i]).Some?
    ensures PackedBytes(g, p, kind, vs) == Some(Joined(Parts(g, p, kind, vs)))
    decreases vs
  {
    hide ValueBytes;
    if vs != [] {
      PackedIsJoined(g, p, kind, vs[1..]);
      assert Parts(g, p, kind, vs)[1..] == Parts(g, p, kind, vs[1..]);
    }
  }

  /** A nested definition comes first; a root one is filed under "message " and its name. */
  lemma ResolvesRoot(g: Globals, nested: map<Text, Proto>, name: Text)
    ensures name in nested ==> Resolve(g, nested, name) == Some(nested[name])
    ensures var root := [109, 101, 115, 115, 97, 103, 101, 32] + name;
      name !in nested ==> Resolve(g, nested, name) == if root in g then Some(g[root]) else None
  {
  }
}
