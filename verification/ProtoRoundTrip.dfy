/**
  Decoding the bytes of a typed message with the same definitions gives the message again, for every
  schema, every nesting and every order of the keys. The one thing lost is an entry holding an empty
  array of strings or messages, which the encoder writes as nothing.
 */
module ProtoRoundTrip {
  import opened Bytes
  import opened JsonValues
  import opened ProtoSchema
  import opened Varints
  import Utf8
  import opened ProtoBytes
  import opened ProtoDecode
  import Floats

  /** An entry that leaves no trace on the wire. */
  predicate Vanishes(p: Proto, e: Entry)
    requires e.key in p.fields
  {
    var f := p.fields[e.key];
    f.presence.Repeated? && !f.kind.Packed() && e.value == Arr([])
  }

  function KeepValue(g: Globals, p: Proto, kind: Kind, v: Json): Json
    decreases v, 2
  {
    if kind.KMessage? && v.Obj? && p.messages.Some? && Resolve(g, p.messages.value, kind.name).Some? then
      Obj(Keep(g, Resolve(g, p.messages.value, kind.name).value, v.entries))
    else v
  }

  function KeepItems(g: Globals, p: Proto, kind: Kind, vs: seq<Json>): (ws: seq<Json>)
    ensures |ws| == |vs|
    decreases vs, 0
  {
    if vs == [] then [] else [KeepValue(g, p, kind, vs[0])] + KeepItems(g, p, kind, vs[1..])
  }

  function KeepEntry(g: Globals, p: Proto, e: Entry): (r: Entry)
    requires e.key in p.fields
    ensures r.key == e.key
    decreases e, 0
  {
    var f := p.fields[e.key];
    if f.presence.Repeated? then
      (if e.value.Arr? then Entry(e.key, Arr(KeepItems(g, p, f.kind, e.value.items))) else e)
    else Entry(e.key, KeepValue(g, p, f.kind, e.value))
  }

  /** The message without the entries that vanish, at every depth. */
  function Keep(g: Globals, p: Proto, es: seq<Entry>): seq<Entry>
    decreases es, 0
  {
    if es == [] then []
    else if es[0].key !in p.fields then [es[0]] + Keep(g, p, es[1..])
    else if Vanishes(p, es[0]) then Keep(g, p, es[1..])
    else [KeepEntry(g, p, es[0])] + Keep(g, p, es[1..])
  }

  lemma AtConcat(buf: seq<byte>, c: Cursor, a: seq<byte>, b: seq<byte>)
    requires c.At(buf, a + b)
    ensures c.At(buf, a) && c.Skip(|a|).At(buf, b)
    ensures c.Skip(|a|).Skip(|b|) == c.Skip(|a + b|)
  {
    var s := buf[c.pos..c.pos + |a + b|];
    assert s[..|a|] == a && s[|a|..] == b;
    assert buf[c.pos..c.pos + |a|] == s[..|a|];
    assert buf[c.pos + |a|..c.pos + |a| + |b|] == s[|a|..];
  }

  lemma BlockRoundTrip(buf: seq<byte>, c: Cursor, s: seq<byte>)
    requires c.At(buf, s)
    ensures ReadBlock(buf, c, |s|) == Good(s, c.Skip(|s|), 0)
  {
  }

  lemma StringRoundTrip(buf: seq<byte>, c: Cursor, t: Text)
    requires Utf8.IsCText(t) && |t| < TWO31 && c.At(buf, Varint(|t|) + t)
    ensures DecodeString(buf, c) == Good(Some(Str(t)), c.Skip(|Varint(|t|) + t|), 0)
  {
    hide Varint, ReadVarint, Utf8.IsUtf8, CString, ReadBlock;
    TextIsCString(t);
    AtConcat(buf, c, Varint(|t|), t);
    ReadWritten(buf, c, |t|);
    BlockRoundTrip(buf, c.Skip(|Varint(|t|)|), t);
  }

  lemma IntRoundTrip(i: int)
    requires ExactInDouble(i)
    ensures Floats.Near(i) == i
    ensures Signed64(Unsigned64(i)) == i
    ensures ZigZag(i) < TWO64 && ZigZag(i) % TWO64 == ZigZag(i) && UnZigZag(ZigZag(i)) == i
  {
  }

  lemma {:induction false} ValueRoundTrip(buf: seq<byte>, c: Cursor, g: Globals, p: Proto, kind: Kind, v: Json, s: seq<byte>)
    requires TypedValue(g, p, kind, v) && ValueBytes(g, p, kind, v) == Some(s)
    requires c.At(buf, s) && |s| < TWO31
    ensures DecodeValue(buf, c, g, p, kind) == Good(Some(KeepValue(g, p, kind, v)), c.Skip(|s|), 0)
    decreases v, 2
  {
    hide Varint, ReadVarint, DecodeString, DecodeSubmessage, MessageBytes, Keep, Typed, Utf8.IsCText, Floats.Near, Floats.SingleOfInt, Floats.DoubleOfInt;
    match kind
    case KUInt32 => IntRoundTrip(v.i); ReadWritten(buf, c, Unsigned64(v.i));
    case KInt32 => IntRoundTrip(v.i); ReadWritten(buf, c, ZigZag(v.i));
    case KSInt32 => IntRoundTrip(v.i); ReadWritten(buf, c, ZigZag(v.i));
    case KFloat => BlockRoundTrip(buf, c, s);
    case KDouble => BlockRoundTrip(buf, c, s);
    case KString => TextIsCString(v.text); StringRoundTrip(buf, c, v.text);
    case KMessage(name) =>
      var sub := Resolve(g, p.messages.value, name).value;
      SubmessageRoundTrip(buf, c, g, sub, v.entries, MessageBytes(g, sub, v.entries).value);
  }

  lemma TextIsCString(t: Text)
    requires Utf8.IsCText(t)
    ensures CString(t) == t
  {
    CStringOfText(t);
  }

  lemma {:induction false} SubmessageRoundTrip(
    buf: seq<byte>, c: Cursor, g: Globals, p: Proto, es: seq<Entry>, body: seq<byte>)
    requires Typed(g, p, es) && MessageBytes(g, p, es) == Some(body)
    requires c.At(buf, Varint(|body|) + body) && |body| < TWO31
    ensures DecodeSubmessage(buf, c, g, p) == Good(Some(Obj(Keep(g, p, es))), c.Skip(|Varint(|body|) + body|), 0)
    decreases es, 1
  {
    hide Varint, ReadVarint, MessageBytes, DecodeMessage, Keep, Typed;
    AtConcat(buf, c, Varint(|body|), body);
    ReadWritten(buf, c, |body|);
    var inner := Cursor(c.pos + |Varint(|body|)|, |body|);
    assert inner.At(buf, body);
    forall i | 0 <= i < |es| ensures !Has([], es[i].key) {}
    MessageRoundTrip(buf, inner, g, p, es, [], body);
    assert [] + Keep(g, p, es) == Keep(g, p, es);
  }

  lemma {:induction false} PackedRoundTrip(
    buf: seq<byte>, c: Cursor, g: Globals, p: Proto, kind: Kind, vs: seq<Json>, done: seq<Json>, s: seq<byte>)
    requires kind.Packed() && TypedItems(g, p, kind, vs) && PackedBytes(g, p, kind, vs) == Some(s)
    requires c.At(buf, s) && |s| < TWO31
    ensures DecodePacked(buf, c, g, p, kind, |vs|, done) == Good(done + KeepItems(g, p, kind, vs), c.Skip(|s|), 0)
    decreases vs, 0
  {
    hide Varint, ValueBytes, DecodeValue, KeepValue, TypedValue;
    if vs == [] {
      assert done + [] == done;
    } else {
      var first := ValueBytes(g, p, kind, vs[0]).value;
      var rest := PackedBytes(g, p, kind, vs[1..]).value;
      AtConcat(buf, c, first, rest);
      ValueRoundTrip(buf, c, g, p, kind, vs[0], first);
      var w := KeepValue(g, p, kind, vs[0]);
      PackedRoundTrip(buf, c.Skip(|first|), g, p, kind, vs[1..], done + [w], rest);
      assert done + [w] + KeepItems(g, p, kind, vs[1..]) == done + KeepItems(g, p, kind, vs);
    }
  }

  /** Reading a field's tag leads to that field. */
  lemma TagRoundTrip(buf: seq<byte>, c: Cursor, g: Globals, p: Proto, k: Text, es: seq<Entry>)
    requires WellFormed(p) && k in p.fields && c.At(buf, Tag(p.fields[k]))
    ensures DecodeMessage(buf, c, g, p, es) ==
      var r := DecodeField(buf, c.Skip(|Tag(p.fields[k])|), g, p, k, p.fields[k], es);
      if r.Bad? then Bad else Drifted(DecodeMessage(buf, r.at, g, p, r.value), r.drift)
  {
    hide Varint, ReadVarint, DecodeField, DecodeMessage;
    var f := p.fields[k];
    var n := f.tag * 8 + WireType(f.kind);
    assert 0 < n < TWO32 && n / 8 == f.tag;
    ReadWritten(buf, c, n);
    MessageStep(buf, c, g, p, es);
  }

  lemma SingleRoundTrip(buf: seq<byte>, c: Cursor, g: Globals, p: Proto, e: Entry, es: seq<Entry>, s: seq<byte>)
    requires WellFormed(p) && TypedEntry(g, p, e) && !p.fields[e.key].presence.Repeated? && !Has(es, e.key)
    requires EntryBytes(g, p, e) == Some(s) && c.At(buf, s) && |s| < TWO31
    ensures DecodeMessage(buf, c, g, p, es) == DecodeMessage(buf, c.Skip(|s|), g, p, es + [KeepEntry(g, p, e)])
    decreases e, 1
  {
    hide Varint, ReadVarint, DecodeMessage, DecodeValue, ValueBytes, Tag, Put;
    var f := p.fields[e.key];
    var v := ValueBytes(g, p, f.kind, e.value).value;
    AtConcat(buf, c, Tag(f), v);
    TagRoundTrip(buf, c, g, p, e.key, es);
    ValueRoundTrip(buf, c.Skip(|Tag(f)|), g, p, f.kind, e.value, v);
  }

  lemma {:induction false} PackedLength(g: Globals, p: Proto, kind: Kind, vs: seq<Json>, s: seq<byte>)
    requires kind.Packed() && PackedBytes(g, p, kind, vs) == Some(s)
    ensures |vs| <= |s|
    decreases vs
  {
    if vs != [] {
      PackedLength(g, p, kind, vs[1..], PackedBytes(g, p, kind, vs[1..]).value);
    }
  }

  lemma PackedFieldRoundTrip(buf: seq<byte>, c: Cursor, g: Globals, p: Proto, e: Entry, es: seq<Entry>, s: seq<byte>)
    requires WellFormed(p) && TypedEntry(g, p, e) && !Has(es, e.key)
    requires p.fields[e.key].presence.Repeated? && p.fields[e.key].kind.Packed()
    requires EntryBytes(g, p, e) == Some(s) && c.At(buf, s) && |s| < TWO31
    ensures DecodeMessage(buf, c, g, p, es) == DecodeMessage(buf, c.Skip(|s|), g, p, es + [KeepEntry(g, p, e)])
    decreases e, 1
  {
    hide Varint, ReadVarint, DecodeMessage, DecodePacked, PackedBytes, Tag, Put, Get, KeepItems, TypedItems;
    var f := p.fields[e.key];
    var vs := e.value.items;
    var items := PackedBytes(g, p, f.kind, vs).value;
    var head := Tag(f) + Varint(|vs|);
    AtConcat(buf, c, head, items);
    AtConcat(buf, c, Tag(f), Varint(|vs|));
    TagRoundTrip(buf, c, g, p, e.key, es);
    PackedLength(g, p, f.kind, vs, items);
    var d := c.Skip(|Tag(f)|);
    ReadWritten(buf, d, |vs|);
    PackedRoundTrip(buf, c.Skip(|head|), g, p, f.kind, vs, [], items);
    assert [] + KeepItems(g, p, f.kind, vs) == KeepItems(g, p, f.kind, vs);
  }

  /** `es` with the elements of key `k` decoded so far, if any. */
  function With(es: seq<Entry>, k: Text, done: seq<Json>): seq<Entry> {
    if done == [] then es else es + [Entry(k, Arr(done))]
  }

  lemma WithOneMore(es: seq<Entry>, k: Text, done: seq<Json>, w: Json)
    requires !Has(es, k)
    ensures ItemsAt(With(es, k, done), k) == done
    ensures Put(With(es, k, done), k, Arr(done + [w])) == With(es, k, done + [w])
  {
    if done != [] {
      GetLast(es, k, Arr(done));
      PutLast(es, k, Arr(done), Arr(done + [w]));
    }
  }

  lemma {:induction false} TaggedRoundTrip(
    buf: seq<byte>, c: Cursor, g: Globals, p: Proto, k: Text, vs: seq<Json>, done: seq<Json>, es: seq<Entry>, s: seq<byte>)
    requires WellFormed(p) && k in p.fields && !Has(es, k)
    requires p.fields[k].presence.Repeated? && !p.fields[k].kind.Packed()
    requires TypedItems(g, p, p.fields[k].kind, vs) && TaggedBytes(g, p, p.fields[k], vs) == Some(s)
    requires c.At(buf, s) && |s| < TWO31
    ensures DecodeMessage(buf, c, g, p, With(es, k, done))
      == DecodeMessage(buf, c.Skip(|s|), g, p, With(es, k, done + KeepItems(g, p, p.fields[k].kind, vs)))
    decreases vs, 0
  {
    hide Varint, ReadVarint, DecodeMessage, DecodeValue, ValueBytes, Tag, Put, Get, With, KeepValue, TypedValue;
    if vs == [] {
      assert done + [] == done;
    } else {
      var f := p.fields[k];
      var first := ValueBytes(g, p, f.kind, vs[0]).value;
      var rest := TaggedBytes(g, p, f, vs[1..]).value;
      AtConcat(buf, c, Tag(f) + first, rest);
      AtConcat(buf, c, Tag(f), first);
      TagRoundTrip(buf, c, g, p, k, With(es, k, done));
      ValueRoundTrip(buf, c.Skip(|Tag(f)|), g, p, f.kind, vs[0], first);
      var w := KeepValue(g, p, f.kind, vs[0]);
      WithOneMore(es, k, done, w);
      TaggedRoundTrip(buf, c.Skip(|Tag(f) + first|), g, p, k, vs[1..], done + [w], es, rest);
      assert done + [w] + KeepItems(g, p, f.kind, vs[1..]) == done + KeepItems(g, p, f.kind, vs);
    }
  }

  /** The bytes of one entry, wherever they stand, add exactly that entry to the object being decoded. */
  lemma EntryRoundTrip(buf: seq<byte>, c: Cursor, g: Globals, p: Proto, e: Entry, es: seq<Entry>, s: seq<byte>)
    requires WellFormed(p) && TypedEntry(g, p, e) && !Has(es, e.key)
    requires EntryBytes(g, p, e) == Some(s) && c.At(buf, s) && |s| < TWO31
    ensures DecodeMessage(buf, c, g, p, es)
      == DecodeMessage(buf, c.Skip(|s|), g, p, if Vanishes(p, e) then es else es + [KeepEntry(g, p, e)])
    decreases e, 2
  {
    hide DecodeMessage, TypedItems, TypedValue, ValueBytes, PackedBytes, TaggedBytes, KeepItems, KeepValue;
    var f := p.fields[e.key];
    if !f.presence.Repeated? {
      SingleRoundTrip(buf, c, g, p, e, es, s);
    } else if f.kind.Packed() {
      PackedFieldRoundTrip(buf, c, g, p, e, es, s);
    } else {
      TaggedRoundTrip(buf, c, g, p, e.key, e.value.items, [], es, s);
      var ws := KeepItems(g, p, f.kind, e.value.items);
      assert [] + ws == ws;
      assert ws == [] <==> e.value.items == [];
    }
  }

  lemma {:induction false} MessageRoundTrip(
    buf: seq<byte>, c: Cursor, g: Globals, p: Proto, es: seq<Entry>, acc: seq<Entry>, s: seq<byte>)
    requires Typed(g, p, es) && MessageBytes(g, p, es) == Some(s)
    requires c.At(buf, s) && c.left == |s| < TWO31
    requires forall i :: 0 <= i < |es| ==> !Has(acc, es[i].key)
    ensures DecodeMessage(buf, c, g, p, acc) == Good(acc + Keep(g, p, es), c.Skip(|s|), 0)
    decreases es, 0
  {
    hide EntryBytes, KeepEntry, Has, Vanishes, WellFormed, TypedValue, TypedItems, DecodeMessage;
    MessageStep(buf, c, g, p, acc);
    if es == [] {
      assert acc + [] == acc;
    } else {
      var e, tail := es[0], es[1..];
      var first := EntryBytes(g, p, e).value;
      var rest := MessageBytes(g, p, tail).value;
      AtConcat(buf, c, first, rest);
      EntryRoundTrip(buf, c, g, p, e, acc, first);
      var acc' := if Vanishes(p, e) then acc else acc + [KeepEntry(g, p, e)];
      forall i | 0 <= i < |tail|
        ensures !Has(acc', tail[i].key)
      {
        HasAppend(acc, KeepEntry(g, p, e), tail[i].key);
        assert tail[i] == es[i + 1];
      }
      MessageRoundTrip(buf, c.Skip(|first|), g, p, tail, acc', rest);
      assert acc' + Keep(g, p, tail) == acc + Keep(g, p, es);
    }
  }

  /** Decoding what was encoded gives the message back, without its empty string and message arrays. */
  lemma RoundTrip(g: Globals, p: Proto, es: seq<Entry>)
    requires Typed(g, p, es)
    ensures MessageBytes(g, p, es).Some?
    ensures |MessageBytes(g, p, es).value| < TWO31 ==>
      Decode(MessageBytes(g, p, es).value, g, p) == Some(Keep(g, p, es))
  {
    TypedHasBytes(g, p, es);
    var s := MessageBytes(g, p, es).value;
    if |s| < TWO31 {
      assert s[0..|s|] == s;
      MessageRoundTrip(s, Cursor(0, |s|), g, p, es, [], s);
      assert [] + Keep(g, p, es) == Keep(g, p, es);
    }
  }

  /** No entry vanishes, at any depth. A caller can check it on the message before encoding. */
  predicate LosslessValue(g: Globals, p: Proto, kind: Kind, v: Json)
    decreases v, 2
  {
    if kind.KMessage? && v.Obj? && p.messages.Some? && Resolve(g, p.messages.value, kind.name).Some? then
      Lossless(g, Resolve(g, p.messages.value, kind.name).value, v.entries)
    else true
  }

  predicate LosslessEntry(g: Globals, p: Proto, e: Entry)
    decreases e, 0
  {
    e.key in p.fields ==>
      var f := p.fields[e.key];
      if f.presence.Repeated? then
        e.value.Arr? ==>
          && (f.kind.Packed() || e.value.items != [])
          && forall i :: 0 <= i < |e.value.items| ==> LosslessValue(g, p, f.kind, e.value.items[i])
      else LosslessValue(g, p, f.kind, e.value)
  }

  predicate Lossless(g: Globals, p: Proto, es: seq<Entry>)
    decreases es, 0
  {
    forall i :: 0 <= i < |es| ==> LosslessEntry(g, p, es[i])
  }

  lemma {:induction false} KeepsValueIff(g: Globals, p: Proto, kind: Kind, v: Json)
    ensures KeepValue(g, p, kind, v) == v <==> LosslessValue(g, p, kind, v)
    decreases v, 2
  {
    if kind.KMessage? && v.Obj? && p.messages.Some? && Resolve(g, p.messages.value, kind.name).Some? {
      KeepsAllIff(g, Resolve(g, p.messages.value, kind.name).value, v.entries);
    }
  }

  lemma {:induction false} KeepsItemsIff(g: Globals, p: Proto, kind: Kind, vs: seq<Json>)
    ensures KeepItems(g, p, kind, vs) == vs <==> forall i :: 0 <= i < |vs| ==> LosslessValue(g, p, kind, vs[i])
    decreases vs, 0
  {
    hide LosslessValue, KeepValue;
    if vs != [] {
      KeepsValueIff(g, p, kind, vs[0]);
      KeepsItemsIff(g, p, kind, vs[1..]);
      var ws := KeepItems(g, p, kind, vs);
      assert ws[0] == KeepValue(g, p, kind, vs[0]) && ws[1..] == KeepItems(g, p, kind, vs[1..]);
      assert ws == vs <==> ws[0] == vs[0] && ws[1..] == vs[1..];
      assert forall i :: 0 <= i < |vs[1..]| ==> vs[1..][i] == vs[i + 1];
      assert forall i :: 0 < i < |vs| ==> vs[i] == vs[1..][i - 1];
    }
  }

  lemma KeepShrinks(g: Globals, p: Proto, es: seq<Entry>)
    ensures |Keep(g, p, es)| <= |es|
  {
  }

  lemma {:induction false} KeepsAllIff(g: Globals, p: Proto, es: seq<Entry>)
    ensures Keep(g, p, es) == es <==> Lossless(g, p, es)
    decreases es, 0
  {
    hide LosslessEntry, KeepEntry, Vanishes;
    if es != [] {
      KeepsAllIff(g, p, es[1..]);
      KeepShrinks(g, p, es[1..]);
      KeepsEntryIff(g, p, es[0]);
      var ks := Keep(g, p, es);
      if |ks| == |es| {
        assert ks == es <==> ks[0] == es[0] && ks[1..] == es[1..];
      }
      assert forall i :: 0 <= i < |es[1..]| ==> es[1..][i] == es[i + 1];
      assert forall i :: 0 < i < |es| ==> es[i] == es[1..][i - 1];
    }
  }

  lemma {:induction false} KeepsEntryIff(g: Globals, p: Proto, e: Entry)
    ensures e.key in p.fields ==> (!Vanishes(p, e) && KeepEntry(g, p, e) == e <==> LosslessEntry(g, p, e))
    ensures e.key !in p.fields ==> LosslessEntry(g, p, e)
    decreases e, 0
  {
    hide LosslessValue, KeepValue, KeepItems;
    if e.key in p.fields {
      var f := p.fields[e.key];
      if f.presence.Repeated? {
        if e.value.Arr? {
          KeepsItemsIff(g, p, f.kind, e.value.items);
        }
      } else {
        KeepsValueIff(g, p, f.kind, e.value);
      }
    }
  }

  /** The round trip is exact if and only if the message holds no empty array of strings or messages. */
  lemma RoundTripIsExactIff(g: Globals, p: Proto, es: seq<Entry>)
    requires Typed(g, p, es) && MessageBytes(g, p, es).Some? && |MessageBytes(g, p, es).value| < TWO31
    ensures Decode(MessageBytes(g, p, es).value, g, p) == Some(es) <==> Lossless(g, p, es)
  {
    RoundTrip(g, p, es);
    KeepsAllIff(g, p, es);
  }
}
