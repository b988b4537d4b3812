/**
  The buffer estimate of src/msg-pb.c: twice the length of the compact JSON text is always enough
  for the encoding, provided the fields met hold no reals, their numbers are below 2048, integers in
  integer fields are in 32-bit range, no element of a uInt32 array is in -99..-1, none of a double array
  is in -9..99, and the text is shorter than 2^27 bytes. The ranges of the elements are exact: copies of
  a value always fit if and only if the value is outside of them.
 */
module ProtoSize {
  import opened Bytes
  import opened JsonValues
  import opened ProtoSchema
  import opened Varints
  import Utf8
  import opened ProtoBytes
  import opened JsonDump
  import ProtoWriter
  import opened ProtoNormal
  import Floats

  /** The flags of json_dumps(msg, JSON_COMPACT). */
  const COMPACT: Flags := Flags(true, false, false, 0)

  const LIMIT: nat := 0x800_0000

  ghost predicate ModestValue(g: Globals, p: Proto, kind: Kind, v: Json)
    decreases v, 2
  {
    match kind
    case KUInt32 => v.Int? && -(TWO31 as int) <= v.i < TWO32
    case KInt32 => v.Int? && -(TWO31 as int) <= v.i < TWO31
    case KSInt32 => v.Int? && -(TWO31 as int) <= v.i < TWO31
    case KFloat => v.Int?
    case KDouble => v.Int?
    case KString => v.Str? && Plain(v)
    case KMessage(name) =>
      && v.Obj? && Plain(v)
      && p.messages.Some? && Resolve(g, p.messages.value, name).Some?
      && Modest(g, Resolve(g, p.messages.value, name).value, v.entries)
  }

  ghost predicate ModestItems(g: Globals, p: Proto, kind: Kind, vs: seq<Json>)
    decreases vs, 0
  {
    forall i :: 0 <= i < |vs| ==> Plain(vs[i]) && ModestValue(g, p, kind, vs[i]) && (kind.Packed() ==> Packable(kind, vs[i].i))
  }

  /**
    A negative integer in a uInt32 field takes ten bytes, and four characters and a comma of text make up
    for them; any integer in a double field takes eight, which three characters and a comma make up for.
   */
  predicate Packable(kind: Kind, i: int) {
    match kind
    case KUInt32 => 0 <= i || i <= -100
    case KDouble => 100 <= i || i <= -10
    case _ => true
  }

  /** Values that may take more than twice their text. */
  predicate Wide(kind: Kind, i: int) {
    (kind.KUInt32? && i < 0) || kind.KFloat? || kind.KDouble?
  }

  ghost predicate ModestEntry(g: Globals, p: Proto, e: Entry)
    decreases e, 0
  {
    && PlainEntry(e)
    && e.key in p.fields
    && var f := p.fields[e.key];
    && f.tag < 2048
    && match f.presence
       case Required => ModestValue(g, p, f.kind, e.value)
       case Optional => ModestValue(g, p, f.kind, e.value)
       case Repeated => e.value.Arr? && ModestItems(g, p, f.kind, e.value.items)
       case OtherOption => true
  }

  ghost predicate Modest(g: Globals, p: Proto, es: seq<Entry>)
    decreases es, 0
  {
    forall i :: 0 <= i < |es| ==> ModestEntry(g, p, es[i])
  }

  lemma {:induction false} DigitsLength(n: nat)
    ensures |Digits(n)| == 1 <==> n < 10
    ensures |Digits(n)| <= 2 <==> n < 100
  {
    if n >= 10 {
      DigitsLength(n / 10);
    }
  }

  lemma VarintShort(n: nat)
    ensures n < 0x80 ==> |Varint(n)| <= 1
    ensures n < 0x4000 ==> |Varint(n)| <= 2
    ensures n < 0x1000_0000 ==> |Varint(n)| <= 4
    ensures n < 0x8_0000_0000 ==> |Varint(n)| <= 5
  {
    Pow128Values();
    if n < 0x80 { VarintLength(n, 1); }
    if n < 0x4000 { VarintLength(n, 2); }
    if n < 0x1000_0000 { VarintLength(n, 4); }
    if n < 0x8_0000_0000 { VarintLength(n, 5); }
  }

  lemma IntBound(i: int, n: nat)
    requires n <= 2 * (if i < 0 then -i else i) < 0x8_0000_0000
    ensures |Varint(n)| <= 2 * |IntText(i)|
  {
    hide Varint, Digits;
    var m := if i < 0 then -i else i;
    DigitsLength(m);
    VarintShort(n);
  }

  lemma TagBound(f: Field)
    requires f.tag < 2048
    ensures |Tag(f)| <= 2
  {
    VarintShort((f.tag * 8 + WireType(f.kind)) % TWO32);
  }

  lemma {:induction false} DumpTextGrows(s: Text, fl: Flags)
    requires Utf8.IsUtf8(s) && !fl.ensureAscii
    ensures |DumpText(s, fl).value| >= |s|
  {
    if s != [] {
      Utf8.HeadIsEncoded(s);
      var h := Utf8.Head(s).value;
      DumpTextGrows(s[h.1..], fl);
    }
  }

  lemma StringBound(t: Text)
    requires Utf8.IsCText(t) && |Quoted(t, COMPACT)| < LIMIT
    ensures |Varint(|CString(t)|) + CString(t)| <= 2 * |Quoted(t, COMPACT)|
  {
    DumpTextGrows(t, COMPACT);
    VarintShort(|CString(t)|);
  }

  /** A value takes at most twice its text, unless it is wide; then it takes up to ten bytes, and at most six more. */
  lemma {:induction false} ValueBound(g: Globals, p: Proto, kind: Kind, v: Json, depth: nat, s: seq<byte>)
    requires Plain(v) && ModestValue(g, p, kind, v) && ValueBytes(g, p, kind, v) == Some(s)
    requires |Dump(v, COMPACT, depth)| < LIMIT
    ensures if v.Int? && Wide(kind, v.i)
            then WideFits(kind, v.i, |s|, |Dump(v, COMPACT, depth)|)
            else |s| <= 2 * |Dump(v, COMPACT, depth)|
    decreases v, 2
  {
    hide Varint, Digits, Quoted, MessageBytes, IntText, DumpEntries, Plain, Floats.Near, Floats.SingleOfInt, Floats.DoubleOfInt, Packable;
    match kind
    case KUInt32 =>
      Floats.NearSmall(v.i);
      if v.i < 0 {
        NegativeBound(v.i);
      } else {
        IntBound(v.i, v.i);
      }
    case KInt32 => Floats.NearSmall(v.i); SignedBound(v.i);
    case KSInt32 => Floats.NearSmall(v.i); SignedBound(v.i);
    case KFloat => RealBound(v.i);
    case KDouble => RealBound(v.i);
    case KString => PlainString(v); StringBound(v.text);
    case KMessage(name) =>
      var sub := Resolve(g, p.messages.value, name).value;
      NestedBound(g, sub, v, depth, MessageBytes(g, sub, v.entries).value);
  }

  /** `n` bytes for a wide value with a text of `l` characters. */
  predicate WideFits(kind: Kind, i: int, n: nat, l: nat) {
    n <= 10 && n <= 2 * l + 6 && (Packable(kind, i) ==> n <= 2 * l + 2)
  }

  lemma NegativeBound(i: int)
    requires i < 0
    ensures |Varint(Unsigned64(i))| <= 10 && |IntText(i)| >= (if i <= -100 then 4 else 2)
    ensures WideFits(KUInt32, i, |Varint(Unsigned64(i))|, |IntText(i)|)
  {
    hide Varint, Digits;
    VarintFits(Unsigned64(i));
    DigitsLength(-i);
  }

  lemma RealBound(i: int)
    ensures WideFits(KFloat, i, 4, |IntText(i)|) && WideFits(KDouble, i, 8, |IntText(i)|)
  {
    hide Digits;
    DigitsLength(Floats.Abs(i));
  }

  lemma PlainString(v: Json)
    requires v.Str? && Plain(v)
    ensures Utf8.IsCText(v.text)
  {
  }

  lemma SignedBound(i: int)
    requires -(TWO31 as int) <= i < TWO31
    ensures |Varint(ZigZag(i) % TWO64)| <= 2 * |IntText(i)|
  {
    hide Varint, Digits;
    IntBound(i, ZigZag(i));
  }

  lemma {:induction false} PackedBound(g: Globals, p: Proto, kind: Kind, vs: seq<Json>, depth: nat, s: seq<byte>)
    requires vs != [] && kind.Packed() && ModestItems(g, p, kind, vs) && PackedBytes(g, p, kind, vs) == Some(s)
    requires |DumpItems(vs, COMPACT, depth)| < LIMIT
    ensures |s| <= 2 * |DumpItems(vs, COMPACT, depth)| + 2 && |vs| <= |DumpItems(vs, COMPACT, depth)|
    decreases vs, 0
  {
    hide ModestValue, ValueBytes, Dump, Plain, Packable, Wide;
    var first := ValueBytes(g, p, kind, vs[0]).value;
    ValueBound(g, p, kind, vs[0], depth + 1, first);
    DumpNotEmpty(vs[0], depth + 1);
    if |vs| > 1 {
      PackedBound(g, p, kind, vs[1..], depth, PackedBytes(g, p, kind, vs[1..]).value);
    } else {
      assert PackedBytes(g, p, kind, vs[1..]) == Some([]);
    }
  }

  lemma DumpNotEmpty(v: Json, depth: nat)
    requires Plain(v)
    ensures |Dump(v, COMPACT, depth)| >= 1
  {
    hide Digits, DumpText, DumpItems, DumpEntries;
  }

  lemma {:induction false} TaggedBound(g: Globals, p: Proto, f: Field, vs: seq<Json>, depth: nat, s: seq<byte>)
    requires vs != [] && f.tag < 2048 && !f.kind.Packed()
    requires ModestItems(g, p, f.kind, vs) && TaggedBytes(g, p, f, vs) == Some(s)
    requires |DumpItems(vs, COMPACT, depth)| < LIMIT
    ensures |s| <= 2 * |DumpItems(vs, COMPACT, depth)| + 2
    decreases vs, 0
  {
    hide ModestValue, ValueBytes, Dump, Plain, Tag, PackedBytes;
    TagBound(f);
    var first := ValueBytes(g, p, f.kind, vs[0]).value;
    ValueBound(g, p, f.kind, vs[0], depth + 1, first);
    if |vs| > 1 {
      TaggedBound(g, p, f, vs[1..], depth, TaggedBytes(g, p, f, vs[1..]).value);
    } else {
      assert TaggedBytes(g, p, f, vs[1..]) == Some([]);
    }
  }

  lemma {:induction false} ArrayBound(g: Globals, p: Proto, f: Field, v: Json, depth: nat, s: seq<byte>)
    requires v.Arr? && Plain(v) && f.tag < 2048
    requires ModestItems(g, p, f.kind, v.items) && ArrayBytes(g, p, f, v.items) == Some(s)
    requires |Dump(v, COMPACT, depth)| < LIMIT
    ensures |s| <= 2 * |Dump(v, COMPACT, depth)| + 4
    decreases v, 1
  {
    hide Tag, Varint, DumpItems, PackedBytes, TaggedBytes, ModestItems;
    var vs := v.items;
    TagBound(f);
    if vs == [] {
      VarintShort(0);
      NoItems(g, p, f);
    } else if f.kind.Packed() {
      PackedBound(g, p, f.kind, vs, depth, PackedBytes(g, p, f.kind, vs).value);
      VarintShort(|vs|);
    } else {
      TaggedBound(g, p, f, vs, depth, s);
    }
  }

  lemma NoItems(g: Globals, p: Proto, f: Field)
    ensures PackedBytes(g, p, f.kind, []) == Some([]) && TaggedBytes(g, p, f, []) == Some([])
  {
  }

  /** An entry takes less than twice its text; up to twelve bytes it may take as much, or two more under an empty key. */
  lemma {:induction false} EntryBound(g: Globals, p: Proto, e: Entry, depth: nat, s: seq<byte>)
    requires ModestEntry(g, p, e) && EntryBytes(g, p, e) == Some(s)
    requires |DumpEntry(e, COMPACT, depth)| < LIMIT
    ensures |s| <= 2 * |DumpEntry(e, COMPACT, depth)| + 2 * Empty(e)
    ensures |s| > 12 ==> |s| + 2 <= 2 * |DumpEntry(e, COMPACT, depth)|
    decreases e, 1
  {
    hide Tag, Dump, ValueBytes, ArrayBytes, ModestValue, ModestItems, DumpText, Plain;
    var f := p.fields[e.key];
    KeyLength(e.key);
    if f.presence.Repeated? {
      ArrayBound(g, p, f, e.value, depth + 1, s);
    } else if !f.presence.OtherOption? {
      TagBound(f);
      ValueBound(g, p, f.kind, e.value, depth + 1, ValueBytes(g, p, f.kind, e.value).value);
    }
  }

  function Empty(e: Entry): (n: nat)
    ensures n <= 1
  {
    if e.key == [] then 1 else 0
  }

  lemma KeyLength(k: Text)
    requires Utf8.IsCText(k)
    ensures |Quoted(k, COMPACT)| >= 2 && (k != [] ==> |Quoted(k, COMPACT)| >= 3)
  {
    DumpTextGrows(k, COMPACT);
  }

  /** How many entries have an empty key. */
  function Empties(es: seq<Entry>): nat {
    if es == [] then 0 else Empty(es[0]) + Empties(es[1..])
  }

  lemma {:induction false} EmptiesOf(es: seq<Entry>)
    requires DistinctKeys(es)
    ensures Empties(es) <= 1 && (Empties(es) == 1 ==> Has(es, []))
  {
    if es != [] {
      EmptiesOf(es[1..]);
      assert es[0].key == [] ==> Has(es, []);
      if Empties(es[1..]) == 1 {
        var i :| 0 <= i < |es[1..]| && es[1..][i].key == [];
        assert es[i + 1].key == [];
      }
    }
  }

  lemma {:induction false} EntriesBound(g: Globals, p: Proto, es: seq<Entry>, depth: nat, s: seq<byte>)
    requires es != [] && (forall i :: 0 <= i < |es| ==> PlainEntry(es[i]))
    requires Modest(g, p, es) && MessageBytes(g, p, es) == Some(s)
    requires |DumpEntries(es, COMPACT, depth)| < LIMIT
    ensures |s| + 2 * (|es| - 1) <= 2 * |DumpEntries(es, COMPACT, depth)| + 2 * Empties(es)
    ensures |es| == 1 && |s| > 12 ==> |s| + 2 <= 2 * |DumpEntries(es, COMPACT, depth)|
    decreases es, 0
  {
    hide ModestEntry, EntryBytes, DumpEntry, PlainEntry;
    var first := EntryBytes(g, p, es[0]).value;
    EntryBound(g, p, es[0], depth, first);
    if |es| > 1 {
      EntriesBound(g, p, es[1..], depth, MessageBytes(g, p, es[1..]).value);
    } else {
      assert MessageBytes(g, p, es[1..]) == Some([]);
    }
  }

  /** A nested message fits with its length prefix. */
  lemma {:induction false} NestedBound(g: Globals, p: Proto, v: Json, depth: nat, s: seq<byte>)
    requires v.Obj? && Plain(v) && Modest(g, p, v.entries) && MessageBytes(g, p, v.entries) == Some(s)
    requires |Dump(v, COMPACT, depth)| < LIMIT
    ensures |Varint(|s|) + s| <= 2 * |Dump(v, COMPACT, depth)|
    decreases v, 1
  {
    hide Varint, MessageBytes;
    MessageBound(g, p, v, depth, s);
    VarintShort(|s|);
  }

  /** Every message that is modest fits the estimate. */
  lemma {:induction false} MessageBound(g: Globals, p: Proto, v: Json, depth: nat, s: seq<byte>)
    requires v.Obj? && Plain(v) && Modest(g, p, v.entries) && MessageBytes(g, p, v.entries) == Some(s)
    requires |Dump(v, COMPACT, depth)| < LIMIT
    ensures |s| + 2 <= 2 * |Dump(v, COMPACT, depth)|
    ensures |s| > 12 ==> |s| + 4 <= 2 * |Dump(v, COMPACT, depth)|
    decreases v, 0
  {
    hide DumpEntries, Modest, PlainEntry;
    if v.entries != [] {
      EmptiesOf(v.entries);
      EntriesBound(g, p, v.entries, depth, s);
    }
  }

  // ---------- pc__pb_encode ----------

  /** The encoding exists and fits the buffer of twice the text. */
  predicate FitsEstimate(g: Globals, p: Proto, es: seq<Entry>)
    requires Plain(Obj(es))
  {
    MessageBytes(g, p, es).Some? && |MessageBytes(g, p, es).value| <= 2 * |Dump(Obj(es), COMPACT, 0)|
  }

  /**
    pc__pb_encode: JSON text first, then a buffer of twice its length, then the encoding, which must not
    meet a string field without a string. A failure is a schema error or lack of room, and leaves the
    length of the result at 0, which is no sign of failure to the caller.
   */
  method PbEncode(g: Globals, p: Proto, es: seq<Entry>) returns (ok: bool, r: seq<byte>)
    requires Plain(Obj(es)) && !MessageFault(g, p, es).NullText?
    ensures ok <==> FitsEstimate(g, p, es)
    ensures ok ==> MessageBytes(g, p, es) == Some(r)
    ensures !ok ==> r == [] && (MessageFault(g, p, es).SchemaError? || MessageBytes(g, p, es).Some?)
  {
    hide MessageBytes, MessageFault, Dump;
    var evalSize := |Dump(Obj(es), COMPACT, 0)| * 2;
    var buf := new byte[evalSize];
    var written;
    ok, written := ProtoWriter.Encode(buf, g, p, es);
    MessageFaultIff(g, p, es);
    PlainHasNoReal(g, p, es);
    return ok, if ok then buf[..written] else [];
  }

  // ---------- values without reals ----------

  lemma {:induction false} PlainValueHasNoReal(g: Globals, p: Proto, kind: Kind, v: Json)
    requires Plain(v)
    ensures !ValueFault(g, p, kind, v).OtherReal?
    decreases v, 2
  {
    hide Floats.Near, Floats.SingleOfInt, Floats.DoubleOfInt, Resolve;
    if kind.KMessage? && p.messages.Some? && Resolve(g, p.messages.value, kind.name).Some? && v.Obj? {
      PlainHasNoReal(g, Resolve(g, p.messages.value, kind.name).value, v.entries);
    }
  }

  lemma {:induction false} PlainItemsHaveNoReal(g: Globals, p: Proto, kind: Kind, vs: seq<Json>)
    requires forall i :: 0 <= i < |vs| ==> Plain(vs[i])
    ensures !ItemsFault(g, p, kind, vs).OtherReal?
    decreases vs, 0
  {
    hide ValueFault, Plain;
    if vs != [] {
      PlainValueHasNoReal(g, p, kind, vs[0]);
      PlainItemsHaveNoReal(g, p, kind, vs[1..]);
    }
  }

  lemma {:induction false} PlainHasNoReal(g: Globals, p: Proto, es: seq<Entry>)
    requires Plain(Obj(es))
    ensures !MessageFault(g, p, es).OtherReal?
    decreases es, 0
  {
    hide ValueFault, ItemsFault;
    if es != [] {
      var e := es[0];
      assert PlainEntry(e);
      assert Plain(Obj(es[1..])) by {
        assert forall i :: 0 <= i < |es[1..]| ==> es[1..][i] == es[i + 1];
      }
      PlainHasNoReal(g, p, es[1..]);
      if e.key in p.fields {
        PlainValueHasNoReal(g, p, p.fields[e.key].kind, e.value);
        if e.value.Arr? {
          PlainItemsHaveNoReal(g, p, p.fields[e.key].kind, e.value.items);
        }
      }
    }
  }

  // ---------- modest messages ----------

  lemma {:induction false} ModestValueHasBytes(g: Globals, p: Proto, kind: Kind, v: Json)
    requires ModestValue(g, p, kind, v)
    ensures ValueBytes(g, p, kind, v).Some?
    decreases v, 2
  {
    hide Floats.Near, Floats.SingleOfInt, Floats.DoubleOfInt, Varint, CString, Plain;
    if kind.KMessage? {
      ModestHasBytes(g, Resolve(g, p.messages.value, kind.name).value, v.entries);
    }
  }

  lemma {:induction false} ModestItemsHaveBytes(g: Globals, p: Proto, f: Field, vs: seq<Json>)
    requires ModestItems(g, p, f.kind, vs)
    ensures PackedBytes(g, p, f.kind, vs).Some? && TaggedBytes(g, p, f, vs).Some?
    decreases vs, 0
  {
    hide ModestValue, ValueBytes, Plain, Packable, Tag;
    if vs != [] {
      ModestValueHasBytes(g, p, f.kind, vs[0]);
      ModestItemsHaveBytes(g, p, f, vs[1..]);
    }
  }

  lemma {:induction false} ModestEntryHasBytes(g: Globals, p: Proto, e: Entry)
    requires ModestEntry(g, p, e)
    ensures EntryBytes(g, p, e).Some?
    decreases e, 0
  {
    hide ModestValue, ModestItems, ValueBytes, PackedBytes, TaggedBytes, Plain, Tag;
    var f := p.fields[e.key];
    if f.presence.Repeated? {
      ModestItemsHaveBytes(g, p, f, e.value.items);
    } else if !f.presence.OtherOption? {
      ModestValueHasBytes(g, p, f.kind, e.value);
    }
  }

  lemma {:induction false} ModestHasBytes(g: Globals, p: Proto, es: seq<Entry>)
    requires Modest(g, p, es)
    ensures MessageBytes(g, p, es).Some?
    decreases es, 0
  {
    hide ModestEntry, EntryBytes;
    if es != [] {
      ModestEntryHasBytes(g, p, es[0]);
      assert forall i :: 0 <= i < |es[1..]| ==> es[1..][i] == es[i + 1];
      ModestHasBytes(g, p, es[1..]);
    }
  }

  /** Modest messages do fit. */
  lemma ModestFits(g: Globals, p: Proto, es: seq<Entry>)
    requires Plain(Obj(es)) && Modest(g, p, es) && |Dump(Obj(es), COMPACT, 0)| < LIMIT
    ensures FitsEstimate(g, p, es)
  {
    hide Plain, MessageBytes, Modest, Dump;
    ModestHasBytes(g, p, es);
    MessageBound(g, p, Obj(es), 0, MessageBytes(g, p, es).value);
  }

  // ---------- where the estimate is too small ----------

  /** `n` times the integer `v`. */
  function Copies(v: int, n: nat): (vs: seq<Json>)
    ensures |vs| == n && forall i :: 0 <= i < n ==> vs[i] == Int(v)
  {
    seq(n, i => Int(v))
  }

  /** A message type with one field, `a`, an array of that kind with number 1. */
  function ArrayOf(kind: Kind): Proto {
    Proto(map[[97] := Field(Repeated, kind, 1)], None, Some(map[1 := [97]]))
  }

  /** A message of that type. */
  function Counts(v: int, n: nat): seq<Entry> {
    [Entry([97], Arr(Copies(v, n)))]
  }

  predicate Int32Range(v: int) { -(TWO31 as int) <= v < TWO32 }

  /** The bytes of one element. */
  function ItemBytes(kind: Kind, v: int): seq<byte>
    requires kind.Packed()
  {
    match kind
    case KUInt32 => Varint(Unsigned64(v))
    case KInt32 => Varint(ZigZag(v) % TWO64)
    case KSInt32 => Varint(ZigZag(v) % TWO64)
    case KFloat => Floats.SingleOfInt(v)
    case KDouble => Floats.DoubleOfInt(v)
  }

  lemma {:induction false} LongVarint(v: nat, n: nat)
    requires n >= 1 && (n >= 2 ==> v >= Pow128(n - 1))
    ensures |Varint(v)| >= n
    decreases n
  {
    if n >= 2 {
      Pow128Values();
      assert Pow128(n - 1) == 128 * Pow128(n - 2);
      LongVarint(v / 128, n - 1);
    }
  }

  /** How many bytes an element takes, and how many characters. */
  lemma OneCopy(kind: Kind, v: int)
    requires Int32Range(v) && kind.Packed()
    ensures var b, l := |ItemBytes(kind, v)|, |IntText(v)|;
      && (Packable(kind, v) ==> b <= 2 * l + 2)
      && (!Packable(kind, v) ==> b >= 2 * l + 4)
  {
    hide Varint, Digits, Floats.SingleOfInt, Floats.DoubleOfInt;
    match kind
    case KUInt32 => OneUnsigned(v);
    case KInt32 => IntBound(v, ZigZag(v));
    case KSInt32 => IntBound(v, ZigZag(v));
    case KFloat => RealBound(v);
    case KDouble => RealBound(v); DigitsLength(Floats.Abs(v));
  }

  lemma OneUnsigned(v: int)
    requires Int32Range(v)
    ensures var b, l := |Varint(Unsigned64(v))|, |IntText(v)|;
      && (Packable(KUInt32, v) ==> b <= 2 * l + 2)
      && (!Packable(KUInt32, v) ==> b == 10 && l <= 3)
  {
    hide Varint, Digits;
    if v < 0 {
      NegativeBound(v);
      DigitsLength(-v);
      Pow128Values();
      LongVarint(Unsigned64(v), 10);
    } else {
      IntBound(v, v);
    }
  }

  lemma OneItem(g: Globals, p: Proto, kind: Kind, v: int)
    requires kind.Packed() && Int32Range(v)
    ensures ValueBytes(g, p, kind, Int(v)) == Some(ItemBytes(kind, v))
  {
    hide Varint, Floats.Near, Floats.SingleOfInt, Floats.DoubleOfInt;
    Floats.NearSmall(v);
  }

  lemma {:induction false} CopiesBytes(g: Globals, p: Proto, kind: Kind, v: int, n: nat)
    requires kind.Packed() && Int32Range(v)
    ensures PackedBytes(g, p, kind, Copies(v, n)).Some?
    ensures |PackedBytes(g, p, kind, Copies(v, n)).value| == n * |ItemBytes(kind, v)|
  {
    hide ItemBytes, ValueBytes;
    if n > 0 {
      CopiesBytes(g, p, kind, v, n - 1);
      OneItem(g, p, kind, v);
      assert Copies(v, n)[1..] == Copies(v, n - 1);
      assert n * |ItemBytes(kind, v)| == (n - 1) * |ItemBytes(kind, v)| + |ItemBytes(kind, v)|;
    }
  }

  lemma {:induction false} CopiesText(v: int, n: nat, depth: nat)
    requires n > 0 && Int32Range(v)
    ensures |DumpItems(Copies(v, n), COMPACT, depth)| == n * (|IntText(v)| + 1) - 1
  {
    hide IntText;
    var vs := Copies(v, n);
    if n > 1 {
      assert vs[1..] == Copies(v, n - 1);
      CopiesText(v, n - 1, depth);
      assert n * (|IntText(v)| + 1) == (n - 1) * (|IntText(v)| + 1) + (|IntText(v)| + 1);
    }
  }

  lemma OneLetterKey()
    ensures Utf8.IsCText([97]) && Quoted([97], COMPACT) == [34, 97, 34]
  {
    assert Utf8.Head([97]) == Some((97, 1));
    assert DumpText([], COMPACT) == Some([]);
  }

  lemma PlainCounts(v: int, n: nat)
    requires Int32Range(v)
    ensures Plain(Obj(Counts(v, n)))
  {
    OneLetterKey();
    assert PlainEntry(Entry([97], Arr(Copies(v, n))));
  }

  lemma CountsText(v: int, n: nat)
    requires Int32Range(v) && Plain(Obj(Counts(v, n)))
    ensures |Dump(Obj(Counts(v, n)), COMPACT, 0)| == if n == 0 then 8 else n * (|IntText(v)| + 1) + 7
  {
    var e := Entry([97], Arr(Copies(v, n)));
    if n > 0 {
      CopiesText(v, n, 1);
    }
    OneLetterKey();
    assert [e][0] == e && PlainEntry(e);
    hide DumpItems, DumpText, Quoted, Plain, Utf8.IsUtf8, IntText;
    assert |Dump(e.value, COMPACT, 1)| == if n == 0 then 2 else n * (|IntText(v)| + 1) + 1;
    assert |DumpEntry(e, COMPACT, 0)| == |Dump(e.value, COMPACT, 1)| + 4;
    assert |DumpEntries([e], COMPACT, 0)| == |DumpEntry(e, COMPACT, 0)|;
  }

  lemma CountsBytes(g: Globals, kind: Kind, v: int, n: nat)
    requires kind.Packed() && Int32Range(v)
    ensures MessageBytes(g, ArrayOf(kind), Counts(v, n)).Some?
    ensures |MessageBytes(g, ArrayOf(kind), Counts(v, n)).value| == 1 + |Varint(n)| + n * |ItemBytes(kind, v)|
  {
    var f := Field(Repeated, kind, 1);
    assert |Tag(f)| == 1;
    hide PackedBytes, Varint, Tag, ItemBytes;
    var e := Entry([97], Arr(Copies(v, n)));
    CopiesBytes(g, ArrayOf(kind), kind, v, n);
    assert [e][1..] == [];
    assert EntryBytes(g, ArrayOf(kind), e) == ArrayBytes(g, ArrayOf(kind), f, Copies(v, n));
  }

  lemma CountsTyped(g: Globals, v: int, n: nat)
    requires Int32Range(v)
    ensures Typed(g, ArrayOf(KUInt32), Counts(v, n))
  {
    hide Floats.Near;
    Floats.NearSmall(v);
    assert TypedItems(g, ArrayOf(KUInt32), KUInt32, Copies(v, n));
    assert TypedEntry(g, ArrayOf(KUInt32), Entry([97], Arr(Copies(v, n))));
  }

  lemma CountsDefined(g: Globals, kind: Kind, v: int, n: nat)
    requires kind.Packed() && Int32Range(v)
    ensures Defined(g, ArrayOf(kind), Counts(v, n))
  {
    hide Floats.Near;
    Floats.NearSmall(v);
    assert DefinedItems(g, ArrayOf(kind), kind, Copies(v, n));
    assert DefinedEntry(g, ArrayOf(kind), Entry([97], Arr(Copies(v, n))));
  }

  /** Whether so many copies of a value fit. */
  lemma CopiesFit(g: Globals, kind: Kind, v: int, n: nat)
    requires kind.Packed() && Int32Range(v) && n < TWO32 && Plain(Obj(Counts(v, n)))
    ensures Packable(kind, v) ==> FitsEstimate(g, ArrayOf(kind), Counts(v, n))
    ensures !Packable(kind, v) && n >= 7 ==> !FitsEstimate(g, ArrayOf(kind), Counts(v, n))
  {
    hide Plain, MessageBytes, Dump, Varint, IntText, Counts, ItemBytes, ArrayOf, Packable;
    CountsText(v, n);
    CountsBytes(g, kind, v, n);
    OneCopy(kind, v);
    VarintShort(n);
    if Packable(kind, v) {
      RoomFor(n, |ItemBytes(kind, v)|, |IntText(v)|);
    } else {
      NoRoomFor(n, |ItemBytes(kind, v)|, |IntText(v)|);
    }
  }

  lemma RoomFor(n: nat, b: nat, l: nat)
    requires b <= 2 * l + 2
    ensures n * b <= 2 * (n * (l + 1))
  {
    calc {
      n * b;
    <= { Monotone(n, b, 2 * l + 2); }
      n * (2 * l + 2);
    ==
      2 * (n * (l + 1));
    }
  }

  lemma NoRoomFor(n: nat, b: nat, l: nat)
    requires b >= 2 * l + 4
    ensures 2 * (n * (l + 1)) + 2 * n <= n * b
  {
    calc {
      2 * (n * (l + 1)) + 2 * n;
    ==
      n * (2 * l + 4);
    <= { Monotone(n, 2 * l + 4, b); }
      n * b;
    }
  }

  lemma Monotone(n: nat, x: nat, y: nat)
    requires x <= y
    ensures n * x <= n * y
  {
  }

  /**
    An array of numbers always fits the estimate, however many copies of an integer it holds, if and only
    if it is no uInt32 array and the integer in -99..-1, and no double array and the integer in -9..99.
   */
  lemma CopiesFitIff(g: Globals, kind: Kind, v: int)
    requires kind.Packed() && Int32Range(v)
    ensures (forall n: nat :: n < TWO32 ==> Plain(Obj(Counts(v, n))) && FitsEstimate(g, ArrayOf(kind), Counts(v, n))) <==> Packable(kind, v)
  {
    hide Plain, FitsEstimate, Counts, ArrayOf, Packable;
    forall n: nat | n < TWO32
      ensures Plain(Obj(Counts(v, n))) && (Packable(kind, v) ==> FitsEstimate(g, ArrayOf(kind), Counts(v, n)))
    {
      PlainCounts(v, n);
      CopiesFit(g, kind, v, n);
    }
    CopiesFit(g, kind, v, 7);
  }
}
