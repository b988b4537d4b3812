/**
  The bytes of a message: the reference that the stream writer of src/pb-encode.c is proved to emit.
  None stands for the schema errors on which pb_encode returns 0 whatever the buffer.
 */
module ProtoBytes {
  import opened Bytes
  import opened JsonValues
  import opened ProtoSchema
  import opened Varints
  import Floats

  function Tag(f: Field): (s: seq<byte>)
    ensures |s| >= 1
  {
    Varint((f.tag * 8 + WireType(f.kind)) % TWO32)
  }

  /**
    json_number_value gives a double, and 0 for anything but a number, so that an integer is rounded
    to the nearest double first. A real in an integer field, or of the other width, is not modelled.
   */
  function IntOf(v: Json): Option<int> {
    match v
    case Int(i) => Some(Floats.Near(i))
    case Single(_) => None
    case Double(_) => None
    case _ => Some(0)
  }

  function SingleOf(v: Json): (r: Option<seq<byte>>)
    ensures r.Some? ==> |r.value| == 4
  {
    match v
    case Single(b) => if |b| == 4 then Some(b) else None
    case Int(i) => Some(Floats.SingleOfInt(i))
    case Double(_) => None
    case _ => Some([0, 0, 0, 0])
  }

  function DoubleOf(v: Json): (r: Option<seq<byte>>)
    ensures r.Some? ==> |r.value| == 8
  {
    match v
    case Double(b) => if |b| == 8 then Some(b) else None
    case Int(i) => Some(Floats.DoubleOfInt(i))
    case Single(_) => None
    case _ => Some([0, 0, 0, 0, 0, 0, 0, 0])
  }

  function ValueBytes(g: Globals, p: Proto, kind: Kind, v: Json): Option<seq<byte>>
    decreases v, 2
  {
    match kind
    case KUInt32 =>
      var i :- IntOf(v);
      Some(Varint(Unsigned64(i)))
    case KInt32 =>
      var i :- IntOf(v);
      Some(Varint(ZigZag(i) % TWO64))
    case KSInt32 =>
      var i :- IntOf(v);
      Some(Varint(ZigZag(i) % TWO64))
    case KFloat => SingleOf(v)
    case KDouble => DoubleOf(v)
    case KString =>
      if v.Str? then Some(Varint(|CString(v.text)|) + CString(v.text)) else None
    case KMessage(name) =>
      if p.messages.None? then Some([])
      else
        var sub :- Resolve(g, p.messages.value, name);
        var body :- if v.Obj? then MessageBytes(g, sub, v.entries) else Some([]);
        Some(Varint(|body|) + body)
  }

  /** The payloads of a packed array, one after the other. */
  function PackedBytes(g: Globals, p: Proto, kind: Kind, vs: seq<Json>): Option<seq<byte>>
    decreases vs, 0
  {
    if vs == [] then Some([])
    else
      var first :- ValueBytes(g, p, kind, vs[0]);
      var rest :- PackedBytes(g, p, kind, vs[1..]);
      Some(first + rest)
  }

  /** A repeated string or message: every element under a tag of its own. */
  function TaggedBytes(g: Globals, p: Proto, f: Field, vs: seq<Json>): Option<seq<byte>>
    decreases vs, 0
  {
    if vs == [] then Some([])
    else
      var first :- ValueBytes(g, p, f.kind, vs[0]);
      var rest :- TaggedBytes(g, p, f, vs[1..]);
      Some(Tag(f) + first + rest)
  }

  function ArrayBytes(g: Globals, p: Proto, f: Field, vs: seq<Json>): Option<seq<byte>>
    decreases vs, 1
  {
    if f.kind.Packed() then
      var items :- PackedBytes(g, p, f.kind, vs);
      Some(Tag(f) + Varint(|vs|) + items)
    else TaggedBytes(g, p, f, vs)
  }

  function EntryBytes(g: Globals, p: Proto, e: Entry): Option<seq<byte>>
    decreases e, 0
  {
    if e.key !in p.fields then None
    else
      var f := p.fields[e.key];
      match f.presence
      case Required =>
        var v :- ValueBytes(g, p, f.kind, e.value);
        Some(Tag(f) + v)
      case Optional =>
        var v :- ValueBytes(g, p, f.kind, e.value);
        Some(Tag(f) + v)
      case Repeated => if e.value.Arr? then ArrayBytes(g, p, f, e.value.items) else Some([])
      case OtherOption => Some([])
  }

  /** pb_encode: the entries in iteration order. */
  function MessageBytes(g: Globals, p: Proto, es: seq<Entry>): Option<seq<byte>>
    decreases es, 0
  {
    if es == [] then Some([])
    else
      var first :- EntryBytes(g, p, es[0]);
      var rest :- MessageBytes(g, p, es[1..]);
      Some(first + rest)
  }

  /** Typed messages meet none of the schema errors. */
  lemma {:induction false} TypedValueHasBytes(g: Globals, p: Proto, kind: Kind, v: Json)
    requires TypedValue(g, p, kind, v)
    ensures ValueBytes(g, p, kind, v).Some?
    decreases v, 2
  {
    if kind.KMessage? {
      TypedHasBytes(g, Resolve(g, p.messages.value, kind.name).value, v.entries);
    }
  }

  lemma {:induction false} TypedItemsHaveBytes(g: Globals, p: Proto, f: Field, vs: seq<Json>)
    requires TypedItems(g, p, f.kind, vs)
    ensures PackedBytes(g, p, f.kind, vs).Some? && TaggedBytes(g, p, f, vs).Some?
    decreases vs, 0
  {
    if vs != [] {
      TypedValueHasBytes(g, p, f.kind, vs[0]);
      TypedItemsHaveBytes(g, p, f, vs[1..]);
    }
  }

  lemma {:induction false} TypedEntryHasBytes(g: Globals, p: Proto, e: Entry)
    requires TypedEntry(g, p, e)
    ensures EntryBytes(g, p, e).Some?
    decreases e, 0
  {
    var f := p.fields[e.key];
    if f.presence.Repeated? {
      TypedItemsHaveBytes(g, p, f, e.value.items);
    } else {
      TypedValueHasBytes(g, p, f.kind, e.value);
    }
  }

  lemma {:induction false} TypedHasBytes(g: Globals, p: Proto, es: seq<Entry>)
    requires Typed(g, p, es)
    ensures MessageBytes(g, p, es).Some?
    decreases es, 0
  {
    if es != [] {
      TypedEntryHasBytes(g, p, es[0]);
      TypedHasBytes(g, p, es[1..]);
    }
  }
}
