/**
  Message definitions as the handshake delivers them, and which JSON values fit them. A definition
  is a JSON object in the source; here its entries are already read (src/pb-util.c turns the type
  text of a field into a number, which is the constructor of `Kind`).
 */
module ProtoSchema {
  import opened Bytes
  import opened JsonValues
  import Utf8
  import Floats

  datatype Presence = Required | Optional | Repeated | OtherOption

  datatype Kind = KUInt32 | KInt32 | KSInt32 | KFloat | KDouble | KString | KMessage(name: Text) {
    /** Repeated fields of these kinds share one tag and a count. */
    predicate Packed() { !KString? && !KMessage? }
  }

  datatype Field = Field(presence: Presence, kind: Kind, tag: nat)

  /** `messages` is the entry `__messages`, `tags` the entry `__tags`; either may be missing. */
  datatype Proto = Proto(
    fields: map<Text, Field>,
    messages: Option<map<Text, Proto>>,
    tags: Option<map<nat, Text>>)

  /** All definitions sent with the handshake, by the text they are filed under. */
  type Globals = map<Text, Proto>

  /** "message " */
  const HEAD: Text := [109, 101, 115, 115, 97, 103, 101, 32]

  /** A nested definition first, then a root one filed under "message <name>". */
  function Resolve(g: Globals, nested: map<Text, Proto>, name: Text): Option<Proto> {
    if name in nested then Some(nested[name])
    else if HEAD + name in g then Some(g[HEAD + name])
    else None
  }

  /** pb__get_constant_type. */
  function WireType(k: Kind): (w: nat)
    ensures w < 8
  {
    match k
    case KUInt32 => 0
    case KSInt32 => 0
    case KInt32 => 0
    case KDouble => 1
    case KString => 2
    case KFloat => 5
    case KMessage(_) => 2
  }

  /** Field numbers fit a 32-bit tag and `__tags` is the exact inverse of the fields' tags. */
  ghost predicate WellFormed(p: Proto) {
    && p.tags.Some?
    && (forall k :: k in p.fields ==>
          1 <= p.fields[k].tag < 0x2000_0000 && p.fields[k].tag in p.tags.value && p.tags.value[p.fields[k].tag] == k)
    && (forall k :: k in p.fields && p.fields[k].kind.KMessage? ==> p.messages.Some?)
  }

  /** A 64-bit integer that is a double, as all are up to 2^53. */
  predicate ExactInDouble(i: int) {
    -(TWO63 as int) <= i < TWO63 && Floats.Near(i) == i
  }

  /** `v` is a value of one occurrence of a field of kind `kind` inside a message defined by `p`. */
  ghost predicate TypedValue(g: Globals, p: Proto, kind: Kind, v: Json)
    decreases v, 2
  {
    match kind
    case KUInt32 => v.Int? && ExactInDouble(v.i)
    case KInt32 => v.Int? && ExactInDouble(v.i)
    case KSInt32 => v.Int? && ExactInDouble(v.i)
    case KFloat => v.Single? && |v.single| == 4
    case KDouble => v.Double? && |v.double| == 8
    case KString => v.Str? && Utf8.IsCText(v.text)
    case KMessage(name) =>
      && v.Obj?
      && p.messages.Some?
      && Resolve(g, p.messages.value, name).Some?
      && Typed(g, Resolve(g, p.messages.value, name).value, v.entries)
  }

  ghost predicate TypedItems(g: Globals, p: Proto, kind: Kind, vs: seq<Json>)
    decreases vs, 0
  {
    forall i :: 0 <= i < |vs| ==> TypedValue(g, p, kind, vs[i])
  }

  ghost predicate TypedEntry(g: Globals, p: Proto, e: Entry)
    decreases e, 0
  {
    && e.key in p.fields
    && var f := p.fields[e.key];
    match f.presence
    case Required => TypedValue(g, p, f.kind, e.value)
    case Optional => TypedValue(g, p, f.kind, e.value)
    case Repeated => e.value.Arr? && TypedItems(g, p, f.kind, e.value.items)
    case OtherOption => false
  }

  /** `es` is a message of type `p`: the definitions it touches are well formed and every entry fits. */
  ghost predicate Typed(g: Globals, p: Proto, es: seq<Entry>)
    decreases es, 0
  {
    && WellFormed(p)
    && DistinctKeys(es)
    && forall i :: 0 <= i < |es| ==> TypedEntry(g, p, es[i])
  }
}
