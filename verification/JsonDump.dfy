/** The JSON printer of the vendored jansson (deps/jansson/src/dump.c). */
module JsonDump {
  import opened Bytes
  import opened JsonValues
  import Utf8

  /** JSON_COMPACT, JSON_ENSURE_ASCII, JSON_ESCAPE_SLASH and JSON_INDENT(n). */
  datatype Flags = Flags(compact: bool, ensureAscii: bool, escapeSlash: bool, indent: nat)

  function HexDigit(n: nat): byte
    requires n < 16
  {
    if n < 10 then 48 + n else 87 + n
  }

  /** `\uXXXX` */
  function UnicodeEscape(n: nat): (s: seq<byte>)
    requires n < 0x10000
    ensures |s| == 6
  {
    [92, 117, HexDigit(n / 4096), HexDigit(n / 256 % 16), HexDigit(n / 16 % 16), HexDigit(n % 16)]
  }

  predicate NeedsEscape(c: nat, fl: Flags) {
    || c == 92 || c == 34 || c < 0x20
    || (fl.escapeSlash && c == 47)
    || (fl.ensureAscii && c > 0x7F)
  }

  /** The text that stands for an escaped code point; beyond the BMP, a UTF-16 surrogate pair. */
  function Escape(c: nat): (s: seq<byte>)
    requires c <= 0x10FFFF
    ensures |s| >= 2
  {
    if c == 92 then [92, 92]
    else if c == 34 then [92, 34]
    else if c == 8 then [92, 98]
    else if c == 12 then [92, 102]
    else if c == 10 then [92, 110]
    else if c == 13 then [92, 114]
    else if c == 9 then [92, 116]
    else if c == 47 then [92, 47]
    else if c < 0x10000 then UnicodeEscape(c)
    else
      UnicodeEscape(0xD800 + (c - 0x10000) / 1024) + UnicodeEscape(0xDC00 + (c - 0x10000) % 1024)
  }

  /** What dump_string writes for the code point `c` whose UTF-8 form is `raw`. */
  function Piece(c: nat, raw: seq<byte>, fl: Flags): seq<byte>
    requires c <= 0x10FFFF
  {
    if NeedsEscape(c, fl) then Escape(c) else raw
  }

  /** The inside of a dumped string; None when the text is not UTF-8. */
  function DumpText(s: Text, fl: Flags): (r: Option<seq<byte>>)
    ensures r.Some? <==> Utf8.IsUtf8(s)
  {
    if s == [] then Some([])
    else
      match Utf8.Head(s)
      case None => None
      case Some(h) =>
        Utf8.HeadIsEncoded(s);
        var rest :- DumpText(s[h.1..], fl);
        Some(Piece(h.0, s[..h.1], fl) + rest)
  }

  function Quoted(s: Text, fl: Flags): seq<byte>
    requires Utf8.IsUtf8(s)
  {
    [34] + DumpText(s, fl).value + [34]
  }

  function Digits(n: nat): (s: seq<byte>)
    ensures |s| >= 1
  {
    if n < 10 then [48 + n] else Digits(n / 10) + [48 + n % 10]
  }

  function IntText(i: int): seq<byte> {
    if i < 0 then [45] + Digits(-i) else Digits(i)
  }

  /** `n` copies of the byte `b`. */
  function Repeat(b: byte, n: nat): (s: seq<byte>)
    ensures |s| == n && forall i :: 0 <= i < n ==> s[i] == b
  {
    seq(n, i => b)
  }

  /** dump_indent. */
  function Indent(fl: Flags, depth: nat, space: bool): seq<byte> {
    if fl.indent > 0 then [10] + Repeat(32, depth * fl.indent)
    else if space && !fl.compact then [32]
    else []
  }

  function Colon(fl: Flags): seq<byte> {
    if fl.compact then [58] else [58, 32]
  }

  /**
    The values whose text is modelled: no reals, 64-bit integers, and, as jansson's constructors
    ensure, NUL-free UTF-8 text and distinct keys.
   */
  predicate Plain(v: Json)
    decreases v, 1
  {
    match v
    case Null => true
    case True => true
    case False => true
    case Int(i) => -(TWO63 as int) <= i < TWO63
    case Single(_) => false
    case Double(_) => false
    case Str(t) => Utf8.IsCText(t)
    case Arr(vs) => forall i :: 0 <= i < |vs| ==> Plain(vs[i])
    case Obj(es) => DistinctKeys(es) && forall i :: 0 <= i < |es| ==> PlainEntry(es[i])
  }

  predicate PlainEntry(e: Entry)
    decreases e, 0
  {
    Utf8.IsCText(e.key) && Plain(e.value)
  }

  /** do_dump. */
  function Dump(v: Json, fl: Flags, depth: nat): (s: seq<byte>)
    requires Plain(v)
    decreases v, 1
  {
    match v
    case Null => [110, 117, 108, 108]
    case True => [116, 114, 117, 101]
    case False => [102, 97, 108, 115, 101]
    case Int(i) => IntText(i)
    case Str(t) => Quoted(t, fl)
    case Arr(vs) =>
      if vs == [] then [91, 93]
      else [91] + Indent(fl, depth + 1, false) + DumpItems(vs, fl, depth) + [93]
    case Obj(es) =>
      if es == [] then [123, 125]
      else [123] + Indent(fl, depth + 1, false) + DumpEntries(es, fl, depth) + [125]
  }

  /** The elements of a non-empty array, up to the closing bracket. */
  function DumpItems(vs: seq<Json>, fl: Flags, depth: nat): seq<byte>
    requires vs != [] && forall i :: 0 <= i < |vs| ==> Plain(vs[i])
    decreases vs, 0
  {
    var first := Dump(vs[0], fl, depth + 1);
    if |vs| == 1 then first + Indent(fl, depth, false)
    else first + [44] + Indent(fl, depth + 1, true) + DumpItems(vs[1..], fl, depth)
  }

  function DumpEntry(e: Entry, fl: Flags, depth: nat): seq<byte>
    requires PlainEntry(e)
    decreases e, 0
  {
    Quoted(e.key, fl) + Colon(fl) + Dump(e.value, fl, depth + 1)
  }

  function DumpEntries(es: seq<Entry>, fl: Flags, depth: nat): seq<byte>
    requires es != [] && forall i :: 0 <= i < |es| ==> PlainEntry(es[i])
    decreases es, 0
  {
    var first := DumpEntry(es[0], fl, depth);
    if |es| == 1 then first + Indent(fl, depth, false)
    else first + [44] + Indent(fl, depth + 1, true) + DumpEntries(es[1..], fl, depth)
  }
}
