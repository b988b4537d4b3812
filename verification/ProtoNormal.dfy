/**
  Messages as they are, not only those that fit their definition: what makes the encoder fail, and what
  the others arrive as. Numbers are converted to the kind of their field, other values in a number
  field count as 0, anything but an object in a message field as an empty message, and entries that
  the encoder passes over are dropped.
 */
module ProtoNormal {
  import opened Bytes
  import opened JsonValues
  import opened ProtoSchema
  import opened Varints
  import opened ProtoBytes
  import opened ProtoDecode
  import opened ProtoRoundTrip
  import Utf8
  import Floats

  // ---------- what makes the encoder fail ----------

  /**
    `SchemaError`: an unknown key or message type, on which pb_encode returns 0. `NullText`: a value that
    is no string in a string field, for which strlen is called on a null pointer. `OtherReal`: a real
    whose conversion is not modelled.
   */
  datatype Fault = NoFault | SchemaError | NullText | OtherReal

  function First(a: Fault, b: Fault): Fault { if a.NoFault? then b else a }

  function ValueFault(g: Globals, p: Proto, kind: Kind, v: Json): Fault
    decreases v, 2
  {
    match kind
    case KUInt32 => if IntOf(v).None? then OtherReal else NoFault
    case KInt32 => if IntOf(v).None? then OtherReal else NoFault
    case KSInt32 => if IntOf(v).None? then OtherReal else NoFault
    case KFloat => if SingleOf(v).None? then OtherReal else NoFault
    case KDouble => if DoubleOf(v).None? then OtherReal else NoFault
    case KString => if v.Str? then NoFault else NullText
    case KMessage(name) =>
      if p.messages.None? then NoFault
      else
        match Resolve(g, p.messages.value, name)
        case None => SchemaError
        case Some(sub) => if v.Obj? then MessageFault(g, sub, v.entries) else NoFault
  }

  function ItemsFault(g: Globals, p: Proto, kind: Kind, vs: seq<Json>): Fault
    decreases vs, 0
  {
    if vs == [] then NoFault else First(ValueFault(g, p, kind, vs[0]), ItemsFault(g, p, kind, vs[1..]))
  }

  function EntryFault(g: Globals, p: Proto, e: Entry): Fault
    decreases e, 0
  {
    if e.key !in p.fields then SchemaError
    else
      var f := p.fields[e.key];
      match f.presence
      case Required => ValueFault(g, p, f.kind, e.value)
      case Optional => ValueFault(g, p, f.kind, e.value)
      case Repeated => if e.value.Arr? then ItemsFault(g, p, f.kind, e.value.items) else NoFault
      case OtherOption => NoFault
  }

  /** The first fault that the encoder meets, given room for all that comes before. */
  function MessageFault(g: Globals, p: Proto, es: seq<Entry>): Fault
    decreases es, 0
  {
    if es == [] then NoFault else First(EntryFault(g, p, es[0]), MessageFault(g, p, es[1..]))
  }

  lemma {:induction false} ValueFaultIff(g: Globals, p: Proto, kind: Kind, v: Json)
    ensures ValueBytes(g, p, kind, v).Some? <==> ValueFault(g, p, kind, v).NoFault?
    decreases v, 2
  {
    hide IntOf, SingleOf, DoubleOf, Varint, CString, Resolve;
    if kind.KMessage? && p.messages.Some? && Resolve(g, p.messages.value, kind.name).Some? && v.Obj? {
      MessageFaultIff(g, Resolve(g, p.messages.value, kind.name).value, v.entries);
    }
  }

  lemma {:induction false} ItemsFaultIff(g: Globals, p: Proto, f: Field, vs: seq<Json>)
    ensures ArrayBytes(g, p, f, vs).Some? <==> ItemsFault(g, p, f.kind, vs).NoFault?
    ensures PackedBytes(g, p, f.kind, vs).Some? <==> ItemsFault(g, p, f.kind, vs).NoFault?
    ensures TaggedBytes(g, p, f, vs).Some? <==> ItemsFault(g, p, f.kind, vs).NoFault?
    decreases vs, 0
  {
    hide ValueBytes, ValueFault, Varint, Tag;
    if vs != [] {
      ValueFaultIff(g, p, f.kind, vs[0]);
      ItemsFaultIff(g, p, f, vs[1..]);
    }
  }

  lemma {:induction false} EntryFaultIff(g: Globals, p: Proto, e: Entry)
    ensures EntryBytes(g, p, e).Some? <==> EntryFault(g, p, e).NoFault?
    decreases e, 0
  {
    hide ValueBytes, ValueFault, ArrayBytes, ItemsFault, Tag;
    if e.key in p.fields {
      var f := p.fields[e.key];
      if f.presence.Repeated? && e.value.Arr? {
        ItemsFaultIff(g, p, f, e.value.items);
      } else {
        ValueFaultIff(g, p, f.kind, e.value);
      }
    }
  }

  /** The encoder gets through a message, given the room, if and only if there is no fault in it. */
  lemma {:induction false} MessageFaultIff(g: Globals, p: Proto, es: seq<Entry>)
    ensures MessageBytes(g, p, es).Some? <==> MessageFault(g, p, es).NoFault?
    decreases es, 0
  {
    hide EntryBytes, EntryFault;
    if es != [] {
      EntryFaultIff(g, p, es[0]);
      MessageFaultIff(g, p, es[1..]);
    }
  }

  // ---------- what the others arrive as ----------

  function NormalValue(g: Globals, p: Proto, kind: Kind, v: Json): Json
    decreases v, 2
  {
    match kind
    case KUInt32 => if IntOf(v).Some? then Int(IntOf(v).value) else v
    case KInt32 => if IntOf(v).Some? then Int(IntOf(v).value) else v
    case KSInt32 => if IntOf(v).Some? then Int(IntOf(v).value) else v
    case KFloat => if SingleOf(v).Some? then Single(SingleOf(v).value) else v
    case KDouble => if DoubleOf(v).Some? then Double(DoubleOf(v).value) else v
    case KString => v
    case KMessage(name) =>
      if p.messages.Some? && Resolve(g, p.messages.value, name).Some? then
        if v.Obj? then Obj(Normal(g, Resolve(g, p.messages.value, name).value, v.entries)) else Obj([])
      else v
  }

  function NormalItems(g: Globals, p: Proto, kind: Kind, vs: seq<Json>): (ws: seq<Json>)
    ensures |ws| == |vs|
    decreases vs, 0
  {
    if vs == [] then [] else [NormalValue(g, p, kind, vs[0])] + NormalItems(g, p, kind, vs[1..])
  }

  /** An entry the encoder passes over. */
  predicate Ignored(p: Proto, e: Entry) {
    e.key in p.fields && (p.fields[e.key].presence.OtherOption? || (p.fields[e.key].presence.Repeated? && !e.value.Arr?))
  }

  function NormalEntry(g: Globals, p: Proto, e: Entry): (r: Entry)
    ensures r.key == e.key
    decreases e, 0
  {
    if e.key !in p.fields then e
    else
      var f := p.fields[e.key];
      if f.presence.Repeated? then (if e.value.Arr? then Entry(e.key, Arr(NormalItems(g, p, f.kind, e.value.items))) else e)
      else Entry(e.key, NormalValue(g, p, f.kind, e.value))
  }

  /** The message as its definition sees it. */
  function Normal(g: Globals, p: Proto, es: seq<Entry>): seq<Entry>
    decreases es, 0
  {
    if es == [] then []
    else if Ignored(p, es[0]) then Normal(g, p, es[1..])
    else [NormalEntry(g, p, es[0])] + Normal(g, p, es[1..])
  }

  /**
    What the round trip asks of definitions and values: the definitions met are well formed, integers
    in integer fields do not round up to 2^63, and text is NUL-free UTF-8, as jansson ensures.
   */
  ghost predicate DefinedValue(g: Globals, p: Proto, kind: Kind, v: Json)
    decreases v, 2
  {
    match kind
    case KUInt32 => v.Int? ==> Convertible(v.i)
    case KInt32 => v.Int? ==> Convertible(v.i)
    case KSInt32 => v.Int? ==> Convertible(v.i)
    case KFloat => true
    case KDouble => true
    case KString => v.Str? ==> Utf8.IsCText(v.text)
    case KMessage(name) =>
      p.messages.Some? && Resolve(g, p.messages.value, name).Some? ==>
        if v.Obj? then Defined(g, Resolve(g, p.messages.value, name).value, v.entries)
        else WellFormed(Resolve(g, p.messages.value, name).value)
  }

  predicate Convertible(i: int) {
    -(TWO63 as int) <= Floats.Near(i) < TWO63
  }

  ghost predicate DefinedItems(g: Globals, p: Proto, kind: Kind, vs: seq<Json>)
    decreases vs, 0
  {
    forall i :: 0 <= i < |vs| ==> DefinedValue(g, p, kind, vs[i])
  }

  ghost predicate DefinedEntry(g: Globals, p: Proto, e: Entry)
    decreases e, 0
  {
    e.key in p.fields ==>
      var f := p.fields[e.key];
      if f.presence.Repeated? then e.value.Arr? ==> DefinedItems(g, p, f.kind, e.value.items)
      else f.presence.OtherOption? || DefinedValue(g, p, f.kind, e.value)
  }

  ghost predicate Defined(g: Globals, p: Proto, es: seq<Entry>)
    decreases es, 0
  {
    && WellFormed(p)
    && DistinctKeys(es)
    && forall i :: 0 <= i < |es| ==> DefinedEntry(g, p, es[i])
  }

  // ---------- normal messages fit their definition, and have the same bytes ----------

  lemma IntIsNormal(v: Json)
    ensures IntOf(v).Some? ==> IntOf(Int(IntOf(v).value)) == IntOf(v)
  {
    hide Floats.Near;
    if v.Int? {
      Floats.NearTwice(v.i);
    }
    assert Floats.Near(0) == 0 by { Floats.NearSmall(0); }
  }

  lemma IntIsExact(v: Json)
    requires IntOf(v).Some? && (v.Int? ==> Convertible(v.i))
    ensures ExactInDouble(IntOf(v).value)
  {
    hide Floats.Near;
    IntIsNormal(v);
  }

  lemma {:induction false} ValueIsNormal(g: Globals, p: Proto, kind: Kind, v: Json)
    requires ValueBytes(g, p, kind, v).Some?
    ensures ValueBytes(g, p, kind, NormalValue(g, p, kind, v)) == ValueBytes(g, p, kind, v)
    ensures DefinedValue(g, p, kind, v) && (kind.KMessage? ==> p.messages.Some?) ==> TypedValue(g, p, kind, NormalValue(g, p, kind, v))
    decreases v, 2
  {
    hide IntOf, SingleOf, DoubleOf, Varint, CString, Resolve, Convertible, ExactInDouble, WellFormed;
    match kind
    case KUInt32 => NumberIsNormal(v);
    case KInt32 => NumberIsNormal(v);
    case KSInt32 => NumberIsNormal(v);
    case KFloat => BlockIsNormal(v);
    case KDouble => BlockIsNormal(v);
    case KString =>
    case KMessage(name) =>
      if p.messages.Some? {
        var sub := Resolve(g, p.messages.value, name).value;
        if v.Obj? {
          MessageIsNormal(g, sub, v.entries);
        } else {
          EmptyIsNormal(g, sub);
        }
      }
  }

  lemma NumberIsNormal(v: Json)
    ensures IntOf(v).Some? ==> IntOf(Int(IntOf(v).value)) == IntOf(v)
    ensures IntOf(v).Some? && (v.Int? ==> Convertible(v.i)) ==> ExactInDouble(IntOf(v).value)
  {
    hide IntOf, Convertible, ExactInDouble;
    IntIsNormal(v);
    if IntOf(v).Some? && (v.Int? ==> Convertible(v.i)) {
      IntIsExact(v);
    }
  }

  lemma BlockIsNormal(v: Json)
    ensures SingleOf(v).Some? ==> |SingleOf(v).value| == 4 && SingleOf(Single(SingleOf(v).value)) == SingleOf(v)
    ensures DoubleOf(v).Some? ==> |DoubleOf(v).value| == 8 && DoubleOf(Double(DoubleOf(v).value)) == DoubleOf(v)
  {
    hide Floats.SingleOfInt, Floats.DoubleOfInt;
  }

  lemma EmptyIsNormal(g: Globals, p: Proto)
    ensures MessageBytes(g, p, []) == Some([]) && (WellFormed(p) ==> Typed(g, p, []))
  {
  }

  lemma {:induction false} ItemsAreNormal(g: Globals, p: Proto, f: Field, vs: seq<Json>)
    requires PackedBytes(g, p, f.kind, vs).Some? && TaggedBytes(g, p, f, vs).Some?
    ensures PackedBytes(g, p, f.kind, NormalItems(g, p, f.kind, vs)) == PackedBytes(g, p, f.kind, vs)
    ensures TaggedBytes(g, p, f, NormalItems(g, p, f.kind, vs)) == TaggedBytes(g, p, f, vs)
    ensures DefinedItems(g, p, f.kind, vs) && (f.kind.KMessage? ==> p.messages.Some?) ==> TypedItems(g, p, f.kind, NormalItems(g, p, f.kind, vs))
    decreases vs, 0
  {
    hide ValueBytes, NormalValue, TypedValue, DefinedValue, Tag;
    if vs != [] {
      ValueIsNormal(g, p, f.kind, vs[0]);
      ItemsAreNormal(g, p, f, vs[1..]);
      var ws := NormalItems(g, p, f.kind, vs);
      assert ws[0] == NormalValue(g, p, f.kind, vs[0]) && ws[1..] == NormalItems(g, p, f.kind, vs[1..]);
      if DefinedItems(g, p, f.kind, vs) && (f.kind.KMessage? ==> p.messages.Some?) {
        assert DefinedItems(g, p, f.kind, vs[1..]);
        assert forall i :: 0 < i < |ws| ==> ws[i] == ws[1..][i - 1];
      }
    }
  }

  lemma {:induction false} EntryIsNormal(g: Globals, p: Proto, e: Entry)
    requires EntryBytes(g, p, e).Some? && !Ignored(p, e)
    ensures EntryBytes(g, p, NormalEntry(g, p, e)) == EntryBytes(g, p, e)
    ensures WellFormed(p) && DefinedEntry(g, p, e) ==> TypedEntry(g, p, NormalEntry(g, p, e))
    decreases e, 0
  {
    hide ValueBytes, NormalValue, TypedValue, DefinedValue, Tag, PackedBytes, TaggedBytes, NormalItems, TypedItems, DefinedItems, Varint;
    var f := p.fields[e.key];
    if f.presence.Repeated? {
      BothBytes(g, p, f, e.value.items);
      ItemsAreNormal(g, p, f, e.value.items);
    } else {
      ValueIsNormal(g, p, f.kind, e.value);
    }
  }

  lemma BothBytes(g: Globals, p: Proto, f: Field, vs: seq<Json>)
    requires ArrayBytes(g, p, f, vs).Some?
    ensures PackedBytes(g, p, f.kind, vs).Some? && TaggedBytes(g, p, f, vs).Some?
  {
    hide ArrayBytes, PackedBytes, TaggedBytes;
    ItemsFaultIff(g, p, f, vs);
  }

  lemma {:induction false} NormalKeys(g: Globals, p: Proto, es: seq<Entry>, k: Text)
    requires Has(Normal(g, p, es), k)
    ensures Has(es, k)
    decreases es
  {
    hide NormalEntry, Ignored;
    var ns := Normal(g, p, es);
    var i :| 0 <= i < |ns| && ns[i].key == k;
    if !Ignored(p, es[0]) && i == 0 {
      assert es[0].key == k;
    } else {
      var j := if Ignored(p, es[0]) then i else i - 1;
      assert Normal(g, p, es[1..])[j].key == k;
      NormalKeys(g, p, es[1..], k);
      var m :| 0 <= m < |es[1..]| && es[1..][m].key == k;
      assert es[m + 1].key == k;
    }
  }

  lemma {:induction false} MessageIsNormal(g: Globals, p: Proto, es: seq<Entry>)
    requires MessageBytes(g, p, es).Some?
    ensures MessageBytes(g, p, Normal(g, p, es)) == MessageBytes(g, p, es)
    ensures Defined(g, p, es) ==> Typed(g, p, Normal(g, p, es))
    decreases es, 0
  {
    hide EntryBytes, NormalEntry, Ignored, TypedEntry, DefinedEntry, WellFormed, DistinctKeys;
    if es == [] {
      NoEntries();
    } else {
      var tail := es[1..];
      MessageIsNormal(g, p, tail);
      if Ignored(p, es[0]) {
        IgnoredIsSilent(g, p, es[0]);
        assert [] + MessageBytes(g, p, tail).value == MessageBytes(g, p, tail).value;
      } else {
        EntryIsNormal(g, p, es[0]);
        assert ([NormalEntry(g, p, es[0])] + Normal(g, p, tail))[1..] == Normal(g, p, tail);
      }
      if Defined(g, p, es) {
        TailIsDefined(g, p, es);
        NormalDistinct(g, p, es);
      }
    }
  }

  lemma NoEntries()
    ensures DistinctKeys([])
  {
  }

  lemma IgnoredIsSilent(g: Globals, p: Proto, e: Entry)
    requires Ignored(p, e)
    ensures EntryBytes(g, p, e) == Some([])
  {
  }

  lemma TailIsDefined(g: Globals, p: Proto, es: seq<Entry>)
    requires es != [] && Defined(g, p, es)
    ensures Defined(g, p, es[1..]) && DefinedEntry(g, p, es[0])
  {
    hide DefinedEntry, WellFormed;
    assert forall i :: 0 <= i < |es[1..]| ==> es[1..][i] == es[i + 1];
  }

  lemma NormalDistinct(g: Globals, p: Proto, es: seq<Entry>)
    requires es != [] && DistinctKeys(es) && DistinctKeys(Normal(g, p, es[1..]))
    ensures DistinctKeys(Normal(g, p, es))
  {
    hide NormalEntry, Ignored, Has;
    var rest := Normal(g, p, es[1..]);
    if !Ignored(p, es[0]) {
      var ns := [NormalEntry(g, p, es[0])] + rest;
      forall j | 0 <= j < |rest|
        ensures rest[j].key != es[0].key
      {
        if rest[j].key == es[0].key {
          HasAt(rest, j);
          NormalKeys(g, p, es[1..], es[0].key);
          HeadIsAlone(es);
        }
      }
      assert forall i :: 0 < i < |ns| ==> ns[i] == rest[i - 1];
    }
  }

  lemma HasAt(es: seq<Entry>, j: nat)
    requires j < |es|
    ensures Has(es, es[j].key)
  {
  }

  lemma HeadIsAlone(es: seq<Entry>)
    requires es != [] && DistinctKeys(es)
    ensures !Has(es[1..], es[0].key)
  {
    assert forall i :: 0 <= i < |es[1..]| ==> es[1..][i] == es[i + 1];
  }

  /**
    Every message without a fault, whatever stands in it, arrives as its definition sees it, without
    the empty arrays of strings or messages.
   */
  lemma RoundTripOfAny(g: Globals, p: Proto, es: seq<Entry>)
    requires MessageFault(g, p, es).NoFault? && Defined(g, p, es)
    ensures MessageBytes(g, p, es).Some?
    ensures |MessageBytes(g, p, es).value| < TWO31 ==> Decode(MessageBytes(g, p, es).value, g, p) == Some(Keep(g, p, Normal(g, p, es)))
  {
    hide MessageBytes, MessageFault, Defined, Typed, Decode, Keep, Normal;
    MessageFaultIff(g, p, es);
    MessageIsNormal(g, p, es);
    RoundTrip(g, p, Normal(g, p, es));
  }

  // ---------- messages that fit are normal ----------

  lemma {:induction false} TypedValueIsNormal(g: Globals, p: Proto, kind: Kind, v: Json)
    requires TypedValue(g, p, kind, v)
    ensures NormalValue(g, p, kind, v) == v
    decreases v, 2
  {
    hide Floats.Near, Floats.SingleOfInt, Floats.DoubleOfInt;
    if kind.KMessage? {
      TypedIsNormal(g, Resolve(g, p.messages.value, kind.name).value, v.entries);
    }
  }

  lemma {:induction false} TypedItemsAreNormal(g: Globals, p: Proto, kind: Kind, vs: seq<Json>)
    requires TypedItems(g, p, kind, vs)
    ensures NormalItems(g, p, kind, vs) == vs
    decreases vs, 0
  {
    hide TypedValue, NormalValue;
    if vs != [] {
      TypedValueIsNormal(g, p, kind, vs[0]);
      TypedItemsAreNormal(g, p, kind, vs[1..]);
    }
  }

  /** A message that fits its definition is seen as it is. */
  lemma {:induction false} TypedIsNormal(g: Globals, p: Proto, es: seq<Entry>)
    requires Typed(g, p, es)
    ensures Normal(g, p, es) == es
    decreases es, 0
  {
    hide TypedValue, NormalValue, TypedItems, NormalItems, WellFormed;
    if es != [] {
      var e := es[0];
      assert TypedEntry(g, p, e);
      var f := p.fields[e.key];
      if f.presence.Repeated? {
        TypedItemsAreNormal(g, p, f.kind, e.value.items);
      } else {
        TypedValueIsNormal(g, p, f.kind, e.value);
      }
      assert forall i :: 0 <= i < |es[1..]| ==> es[1..][i] == es[i + 1];
      TypedIsNormal(g, p, es[1..]);
    }
  }

  /** What is no number counts as 0 in a number field. */
  lemma OthersAreZero(g: Globals, p: Proto, v: Json)
    requires !v.Int? && !v.Single? && !v.Double?
    ensures ValueBytes(g, p, KUInt32, v) == Some([0]) && ValueBytes(g, p, KInt32, v) == Some([0]) && ValueBytes(g, p, KSInt32, v) == Some([0])
    ensures ValueBytes(g, p, KFloat, v) == Some([0, 0, 0, 0]) && ValueBytes(g, p, KDouble, v) == Some([0, 0, 0, 0, 0, 0, 0, 0])
  {
  }
}
