/**
  What the printer writes, byte by byte: texts that need no escape are printed as they are, the escapes
  are those of section 2.5 of RFC 4627, and the flags have their effect on every value.
 */
module JsonShape {
  import opened Bytes
  import opened JsonValues
  import opened JsonDump
  import Utf8

  // ---------- strings ----------

  lemma HeadOfConcat(a: Text, b: seq<byte>)
    requires a != [] && Utf8.Head(a).Some?
    ensures Utf8.Head(a + b) == Utf8.Head(a)
  {
    hide Utf8.Head, Utf8.EncodeCodePoint;
    Utf8.HeadIsEncoded(a);
    var (c, n) := Utf8.Head(a).value;
    Utf8.HeadOfEncoded(c, a[n..] + b);
    Utf8.HeadOfEncoded(c, a[n..]);
    assert a[..n] + a[n..] == a && a[..n] + (a[n..] + b) == a + b;
  }

  /** Texts are printed code point by code point. */
  lemma {:induction false} TextSplit(a: Text, b: Text, fl: Flags)
    requires Utf8.IsUtf8(a) && Utf8.IsUtf8(b)
    ensures Utf8.IsUtf8(a + b) && DumpText(a + b, fl).value == DumpText(a, fl).value + DumpText(b, fl).value
    decreases |a|
  {
    hide Utf8.Head, Piece;
    if a == [] {
      assert a + b == b;
      assert DumpText(a, fl).value == [];
    } else {
      Utf8.HeadIsEncoded(a);
      var (c, n) := Utf8.Head(a).value;
      HeadOfConcat(a, b);
      assert (a + b)[n..] == a[n..] + b && (a + b)[..n] == a[..n];
      TextSplit(a[n..], b, fl);
      var piece := Piece(c, a[..n], fl);
      assert piece + (DumpText(a[n..], fl).value + DumpText(b, fl).value) == piece + DumpText(a[n..], fl).value + DumpText(b, fl).value;
    }
  }

  /** A byte that is printed as it is: no quote, backslash or control character, no slash or non-ASCII byte where the flags say so. */
  predicate Ordinary(b: byte, fl: Flags) {
    b != 34 && b != 92 && b >= 0x20 && (fl.escapeSlash ==> b != 47) && (fl.ensureAscii ==> b <= 0x7F)
  }

  lemma HeadSize(s: Text)
    requires s != [] && Utf8.Head(s).Some?
    ensures var (c, n) := Utf8.Head(s).value; (n == 1 ==> c == s[0]) && (n > 1 ==> c >= 0x80 && s[0] >= 0x80)
  {
    Utf8.HeadIsEncoded(s);
  }

  lemma {:induction false} OrdinaryText(s: Text, fl: Flags)
    requires Utf8.IsUtf8(s) && forall i :: 0 <= i < |s| ==> Ordinary(s[i], fl)
    ensures DumpText(s, fl) == Some(s)
    decreases |s|
  {
    hide Utf8.Head, Piece, Ordinary;
    if s != [] {
      Utf8.HeadIsEncoded(s);
      var (c, n) := Utf8.Head(s).value;
      assert Ordinary(s[0], fl);
      OrdinaryPiece(s, fl);
      OrdinaryText(s[n..], fl);
      assert s[..n] + s[n..] == s;
    }
  }

  lemma OrdinaryPiece(s: Text, fl: Flags)
    requires s != [] && Utf8.Head(s).Some? && Utf8.Head(s).value.0 <= 0x10FFFF && Ordinary(s[0], fl)
    ensures var (c, n) := Utf8.Head(s).value; Piece(c, s[..n], fl) == s[..n]
  {
    hide Utf8.Head, Escape;
    HeadSize(s);
  }

  /** A text of ordinary bytes is printed as it is, between quotes. */
  lemma OrdinaryQuoted(s: Text, fl: Flags)
    requires Utf8.IsUtf8(s) && forall i :: 0 <= i < |s| ==> Ordinary(s[i], fl)
    ensures Quoted(s, fl) == [34] + s + [34]
  {
    OrdinaryText(s, fl);
  }

  lemma OneCodePoint(c: nat, fl: Flags)
    requires Utf8.IsScalar(c)
    ensures var s := Utf8.EncodeCodePoint(c).value; Utf8.IsUtf8(s) && DumpText(s, fl) == Some(Piece(c, s, fl))
  {
    hide Utf8.Head, Utf8.EncodeCodePoint, Piece;
    var s := Utf8.EncodeCodePoint(c).value;
    Utf8.HeadOfEncoded(c, []);
    assert s + [] == s && s[|s|..] == [] && s[..|s|] == s;
    assert DumpText([], fl) == Some([]);
    assert Piece(c, s, fl) + [] == Piece(c, s, fl);
  }

  /** The two-byte escapes: quote, backslash, \b, \f, \n, \r, \t, and the slash where it is asked for. */
  lemma ShortEscapes(fl: Flags)
    ensures DumpText([34], fl) == Some([92, 34]) && DumpText([92], fl) == Some([92, 92])
    ensures DumpText([8], fl) == Some([92, 98]) && DumpText([12], fl) == Some([92, 102]) && DumpText([10], fl) == Some([92, 110])
    ensures DumpText([13], fl) == Some([92, 114]) && DumpText([9], fl) == Some([92, 116])
    ensures DumpText([47], fl) == Some(if fl.escapeSlash then [92, 47] else [47])
  {
    hide DumpText;
    OneCodePoint(34, fl);
    OneCodePoint(92, fl);
    OneCodePoint(8, fl);
    OneCodePoint(12, fl);
    OneCodePoint(10, fl);
    OneCodePoint(13, fl);
    OneCodePoint(9, fl);
    OneCodePoint(47, fl);
  }

  /** A hexadecimal digit in lower case. */
  function LowerHex(n: nat): byte
    requires n < 16
  {
    [48, 49, 50, 51, 52, 53, 54, 55, 56, 57, 97, 98, 99, 100, 101, 102][n]
  }

  /** Four of them. */
  function Hex4(n: nat): seq<byte>
    requires n < 0x1_0000
  {
    [LowerHex(n / 0x1000), LowerHex(n / 0x100 % 16), LowerHex(n / 0x10 % 16), LowerHex(n % 16)]
  }

  lemma HexDigits(n: nat)
    requires n < 0x1_0000
    ensures UnicodeEscape(n) == [92, 117] + Hex4(n)
  {
    Digit(n / 4096);
    Digit(n / 256 % 16);
    Digit(n / 16 % 16);
    Digit(n % 16);
    hide HexDigit, LowerHex;
  }

  lemma Digit(n: nat)
    requires n < 16
    ensures HexDigit(n) == LowerHex(n)
  {
  }

  /** The other control characters, and non-ASCII ones where it is asked for: \uXXXX, beyond the BMP a surrogate pair. */
  lemma UnicodeEscapes(c: nat, fl: Flags)
    requires Utf8.IsScalar(c) && (c < 0x20 || (fl.ensureAscii && c > 0x7F)) && c != 8 && c != 9 && c != 10 && c != 12 && c != 13
    ensures DumpText(Utf8.EncodeCodePoint(c).value, fl) ==
      Some(if c < 0x1_0000 then [92, 117] + Hex4(c)
           else [92, 117] + Hex4(0xD800 + (c - 0x1_0000) / 0x400) + ([92, 117] + Hex4(0xDC00 + (c - 0x1_0000) % 0x400)))
  {
    hide DumpText, UnicodeEscape, Hex4, Utf8.EncodeCodePoint;
    OneCodePoint(c, fl);
    if c < 0x1_0000 {
      HexDigits(c);
    } else {
      HexDigits(0xD800 + (c - 0x1_0000) / 0x400);
      HexDigits(0xDC00 + (c - 0x1_0000) % 0x400);
    }
  }

  // ---------- what holds of all that is printed ----------

  /** A property of texts that their concatenation keeps. */
  ghost predicate Closed(q: seq<byte> -> bool) {
    forall a, b :: q(a) && q(b) ==> q(a + b)
  }

  lemma Join(q: seq<byte> -> bool, a: seq<byte>, b: seq<byte>)
    requires Closed(q) && q(a) && q(b)
    ensures q(a + b)
  {
  }

  /** It holds of the tokens, other than strings, and of the blanks that the flags allow. */
  ghost predicate Tokens(q: seq<byte> -> bool, fl: Flags) {
    && q([]) && q([44]) && q([58]) && q([91]) && q([93]) && q([123]) && q([125]) && q([45])
    && (forall d: byte :: 48 <= d <= 57 ==> q([d]))
    && q([110, 117, 108, 108]) && q([116, 114, 117, 101]) && q([102, 97, 108, 115, 101])
    && (fl.indent > 0 ==> q([10]) && q([32]))
    && (!fl.compact ==> q([32]))
  }

  /** And of all strings and keys of a value, as they are printed. */
  ghost predicate Texts(q: seq<byte> -> bool, x: Json, fl: Flags)
    requires Plain(x)
    decreases x, 1
  {
    match x
    case Str(t) => q(Quoted(t, fl))
    case Arr(vs) => forall i :: 0 <= i < |vs| ==> Texts(q, vs[i], fl)
    case Obj(es) => forall i :: 0 <= i < |es| ==> EntryTexts(q, es[i], fl)
    case _ => true
  }

  ghost predicate EntryTexts(q: seq<byte> -> bool, e: Entry, fl: Flags)
    requires PlainEntry(e)
    decreases e, 0
  {
    q(Quoted(e.key, fl)) && Texts(q, e.value, fl)
  }

  lemma {:induction false} DigitsHold(q: seq<byte> -> bool, fl: Flags, n: nat)
    requires Closed(q) && Tokens(q, fl)
    ensures q(Digits(n))
  {
    hide Closed;
    if n >= 10 {
      DigitsHold(q, fl, n / 10);
      Join(q, Digits(n / 10), [48 + n % 10]);
    }
  }

  lemma {:induction false} BlanksHold(q: seq<byte> -> bool, n: nat)
    requires Closed(q) && q([]) && q([32])
    ensures q(Repeat(32, n))
  {
    hide Closed;
    if n == 0 {
      assert Repeat(32, 0) == [];
    } else {
      BlanksHold(q, n - 1);
      Join(q, Repeat(32, n - 1), [32]);
      assert Repeat(32, n) == Repeat(32, n - 1) + [32];
    }
  }

  lemma IndentHolds(q: seq<byte> -> bool, fl: Flags, depth: nat, space: bool)
    requires Closed(q) && Tokens(q, fl)
    ensures q(Indent(fl, depth, space))
  {
    hide Closed, Repeat;
    if fl.indent > 0 {
      BlanksHold(q, depth * fl.indent);
      Join(q, [10], Repeat(32, depth * fl.indent));
    }
  }

  lemma ColonHolds(q: seq<byte> -> bool, fl: Flags)
    requires Closed(q) && Tokens(q, fl)
    ensures q(Colon(fl))
  {
    hide Closed;
    if !fl.compact {
      Join(q, [58], [32]);
      assert [58] + [32] == [58, 32];
    }
  }

  lemma {:induction false} DumpHolds(q: seq<byte> -> bool, x: Json, fl: Flags, depth: nat)
    requires Closed(q) && Tokens(q, fl) && Plain(x) && Texts(q, x, fl)
    ensures q(Dump(x, fl, depth))
    decreases x, 2
  {
    hide Closed, Indent, Quoted, Digits, DumpItems, DumpEntries;
    match x
    case Null =>
    case True =>
    case False =>
    case Int(i) =>
      DigitsHold(q, fl, if i < 0 then -i else i);
      if i < 0 {
        Join(q, [45], Digits(-i));
      }
    case Str(t) =>
    case Arr(vs) =>
      if vs == [] {
        Join(q, [91], [93]);
        assert [91] + [93] == [91, 93];
      } else {
        ItemsHold(q, vs, fl, depth);
        Wrapped(q, fl, depth + 1, 91, DumpItems(vs, fl, depth), 93);
      }
    case Obj(es) =>
      if es == [] {
        Join(q, [123], [125]);
        assert [123] + [125] == [123, 125];
      } else {
        EntriesHold(q, es, fl, depth);
        Wrapped(q, fl, depth + 1, 123, DumpEntries(es, fl, depth), 125);
      }
  }

  lemma Wrapped(q: seq<byte> -> bool, fl: Flags, depth: nat, open: byte, inside: seq<byte>, close: byte)
    requires Closed(q) && Tokens(q, fl) && q([open]) && q([close]) && q(inside)
    ensures q([open] + Indent(fl, depth, false) + inside + [close])
  {
    hide Closed, Indent;
    IndentHolds(q, fl, depth, false);
    Join(q, [open], Indent(fl, depth, false));
    Join(q, [open] + Indent(fl, depth, false), inside);
    Join(q, [open] + Indent(fl, depth, false) + inside, [close]);
  }

  lemma Separated(q: seq<byte> -> bool, fl: Flags, depth: nat, first: seq<byte>, rest: seq<byte>)
    requires Closed(q) && Tokens(q, fl) && q(first) && q(rest)
    ensures q(first + Indent(fl, depth, false)) && q(first + [44] + Indent(fl, depth + 1, true) + rest)
  {
    hide Closed, Indent;
    IndentHolds(q, fl, depth, false);
    IndentHolds(q, fl, depth + 1, true);
    Join(q, first, Indent(fl, depth, false));
    Join(q, first, [44]);
    Join(q, first + [44], Indent(fl, depth + 1, true));
    Join(q, first + [44] + Indent(fl, depth + 1, true), rest);
  }

  lemma {:induction false} ItemsHold(q: seq<byte> -> bool, vs: seq<Json>, fl: Flags, depth: nat)
    requires Closed(q) && Tokens(q, fl) && vs != [] && (forall i :: 0 <= i < |vs| ==> Plain(vs[i]))
    requires forall i :: 0 <= i < |vs| ==> Texts(q, vs[i], fl)
    ensures q(DumpItems(vs, fl, depth))
    decreases vs, 0
  {
    hide Closed, Tokens, Indent, Dump, Plain, Texts;
    var first := Dump(vs[0], fl, depth + 1);
    DumpHolds(q, vs[0], fl, depth + 1);
    if |vs| == 1 {
      Separated(q, fl, depth, first, first);
    } else {
      ItemsHold(q, vs[1..], fl, depth);
      Separated(q, fl, depth, first, DumpItems(vs[1..], fl, depth));
    }
  }

  lemma {:induction false} EntriesHold(q: seq<byte> -> bool, es: seq<Entry>, fl: Flags, depth: nat)
    requires Closed(q) && Tokens(q, fl) && es != [] && (forall i :: 0 <= i < |es| ==> PlainEntry(es[i]))
    requires forall i :: 0 <= i < |es| ==> EntryTexts(q, es[i], fl)
    ensures q(DumpEntries(es, fl, depth))
    decreases es, 0
  {
    hide Closed, Tokens, Indent, DumpEntry, PlainEntry, EntryTexts;
    var first := DumpEntry(es[0], fl, depth);
    EntryHolds(q, es[0], fl, depth);
    if |es| == 1 {
      Separated(q, fl, depth, first, first);
    } else {
      EntriesHold(q, es[1..], fl, depth);
      Separated(q, fl, depth, first, DumpEntries(es[1..], fl, depth));
    }
  }

  lemma {:induction false} EntryHolds(q: seq<byte> -> bool, e: Entry, fl: Flags, depth: nat)
    requires Closed(q) && Tokens(q, fl) && PlainEntry(e) && EntryTexts(q, e, fl)
    ensures q(DumpEntry(e, fl, depth))
    decreases e, 0
  {
    hide Closed, Tokens, Quoted, Colon, Dump;
    ColonHolds(q, fl);
    DumpHolds(q, e.value, fl, depth + 1);
    Join(q, Quoted(e.key, fl), Colon(fl));
    Join(q, Quoted(e.key, fl) + Colon(fl), Dump(e.value, fl, depth + 1));
  }

  /** When it holds of every printed text, it holds of the texts of every value. */
  lemma {:induction false} AllTexts(q: seq<byte> -> bool, x: Json, fl: Flags)
    requires Plain(x) && forall t: Text :: Utf8.IsCText(t) ==> q(Quoted(t, fl))
    ensures Texts(q, x, fl)
    decreases x, 1
  {
    hide Quoted;
    match x
    case Arr(vs) =>
      forall i | 0 <= i < |vs|
        ensures Texts(q, vs[i], fl)
      {
        AllTexts(q, vs[i], fl);
      }
    case Obj(es) =>
      forall i | 0 <= i < |es|
        ensures EntryTexts(q, es[i], fl)
      {
        assert PlainEntry(es[i]);
        AllTexts(q, es[i].value, fl);
      }
    case _ =>
  }

  // ---------- the flags ----------

  predicate Ascii(s: seq<byte>) {
    forall i :: 0 <= i < |s| ==> s[i] < 0x80
  }

  /** Every slash stands behind a backslash. */
  predicate Slashed(s: seq<byte>) {
    forall i :: 0 <= i < |s| && s[i] == 47 ==> i > 0 && s[i - 1] == 92
  }

  predicate Dense(s: seq<byte>) {
    forall i :: 0 <= i < |s| ==> s[i] > 0x20
  }

  lemma PieceIsAscii(c: nat, raw: seq<byte>, fl: Flags)
    requires Utf8.IsScalar(c) && raw == Utf8.EncodeCodePoint(c).value && fl.ensureAscii
    ensures Ascii(Piece(c, raw, fl))
  {
  }

  lemma {:induction false} TextIsAscii(s: Text, fl: Flags)
    requires Utf8.IsUtf8(s) && fl.ensureAscii
    ensures Ascii(DumpText(s, fl).value)
    decreases |s|
  {
    hide Utf8.Head, Piece, Utf8.EncodeCodePoint;
    if s != [] {
      Utf8.HeadIsEncoded(s);
      var (c, n) := Utf8.Head(s).value;
      PieceIsAscii(c, s[..n], fl);
      TextIsAscii(s[n..], fl);
    }
  }

  /** With JSON_ENSURE_ASCII everything that is printed is ASCII. */
  lemma DumpIsAscii(x: Json, fl: Flags, depth: nat)
    requires Plain(x) && fl.ensureAscii
    ensures Ascii(Dump(x, fl, depth))
  {
    hide Dump, Plain, Texts;
    forall t: Text | Utf8.IsCText(t)
      ensures Ascii(Quoted(t, fl))
    {
      TextIsAscii(t, fl);
    }
    AllTexts(Ascii, x, fl);
    DumpHolds(Ascii, x, fl, depth);
  }

  lemma TailBytes(s: Text)
    requires s != [] && Utf8.Head(s).Some?
    ensures var n := Utf8.Head(s).value.1; n > 1 ==> forall i :: 0 <= i < n ==> s[i] >= 0x80
  {
    var n := Utf8.Head(s).value.1;
    if n > 1 {
      Utf8.FullForm(s[..n]);
      assert forall i :: 1 <= i < n ==> Utf8.IsTail(s[..n][i]);
      assert forall i :: 1 <= i < n ==> s[i] == s[..n][i];
    }
  }

  lemma PieceIsSlashed(s: Text, fl: Flags)
    requires s != [] && Utf8.Head(s).Some? && Utf8.Head(s).value.0 <= 0x10FFFF && fl.escapeSlash
    ensures Slashed(Piece(Utf8.Head(s).value.0, s[..Utf8.Head(s).value.1], fl))
  {
    hide Utf8.Head, HexDigit;
    TailBytes(s);
    HeadSize(s);
    NoSlashDigits();
  }

  lemma NoSlashDigits()
    ensures forall n :: 0 <= n < 16 ==> HexDigit(n) != 47
  {
  }

  lemma {:induction false} TextIsSlashed(s: Text, fl: Flags)
    requires Utf8.IsUtf8(s) && fl.escapeSlash
    ensures Slashed(DumpText(s, fl).value)
    decreases |s|
  {
    hide Utf8.Head, Piece;
    if s != [] {
      Utf8.HeadIsEncoded(s);
      var (c, n) := Utf8.Head(s).value;
      PieceIsSlashed(s, fl);
      TextIsSlashed(s[n..], fl);
    }
  }

  /** With JSON_ESCAPE_SLASH every slash stands behind a backslash. */
  lemma DumpIsSlashed(x: Json, fl: Flags, depth: nat)
    requires Plain(x) && fl.escapeSlash
    ensures Slashed(Dump(x, fl, depth))
  {
    hide Dump, Plain, Texts;
    forall t: Text | Utf8.IsCText(t)
      ensures Slashed(Quoted(t, fl))
    {
      TextIsSlashed(t, fl);
    }
    AllTexts(Slashed, x, fl);
    DumpHolds(Slashed, x, fl, depth);
  }

  /** No string or key of the value has a blank in it. */
  ghost predicate Unspaced(x: Json)
    requires Plain(x)
    decreases x, 1
  {
    match x
    case Str(t) => 32 !in t
    case Arr(vs) => forall i :: 0 <= i < |vs| ==> Unspaced(vs[i])
    case Obj(es) => forall i :: 0 <= i < |es| ==> UnspacedEntry(es[i])
    case _ => true
  }

  ghost predicate UnspacedEntry(e: Entry)
    requires PlainEntry(e)
    decreases e, 0
  {
    32 !in e.key && Unspaced(e.value)
  }

  lemma PieceIsDense(s: Text, fl: Flags)
    requires s != [] && Utf8.Head(s).Some? && Utf8.Head(s).value.0 <= 0x10FFFF && s[0] != 32
    ensures Dense(Piece(Utf8.Head(s).value.0, s[..Utf8.Head(s).value.1], fl))
  {
    hide Utf8.Head;
    TailBytes(s);
    HeadSize(s);
  }

  lemma {:induction false} TextIsDense(s: Text, fl: Flags)
    requires Utf8.IsUtf8(s) && 32 !in s
    ensures Dense(DumpText(s, fl).value)
    decreases |s|
  {
    hide Utf8.Head, Piece;
    if s != [] {
      Utf8.HeadIsEncoded(s);
      var (c, n) := Utf8.Head(s).value;
      PieceIsDense(s, fl);
      TextIsDense(s[n..], fl);
    }
  }

  lemma {:induction false} DenseTexts(x: Json, fl: Flags)
    requires Plain(x) && Unspaced(x)
    ensures Texts(Dense, x, fl)
    decreases x, 1
  {
    hide DumpText;
    match x
    case Str(t) => TextIsDense(t, fl);
    case Arr(vs) =>
      forall i | 0 <= i < |vs|
        ensures Texts(Dense, vs[i], fl)
      {
        DenseTexts(vs[i], fl);
      }
    case Obj(es) =>
      forall i | 0 <= i < |es|
        ensures EntryTexts(Dense, es[i], fl)
      {
        assert PlainEntry(es[i]) && UnspacedEntry(es[i]);
        TextIsDense(es[i].key, fl);
        DenseTexts(es[i].value, fl);
      }
    case _ =>
  }

  /** With JSON_COMPACT and no indentation nothing is printed between the tokens. */
  lemma DumpIsDense(x: Json, fl: Flags, depth: nat)
    requires Plain(x) && Unspaced(x) && fl.compact && fl.indent == 0
    ensures Dense(Dump(x, fl, depth))
  {
    hide Dump, Plain, Texts;
    DenseTexts(x, fl);
    DumpHolds(Dense, x, fl, depth);
  }

  // ---------- the same value three times ----------

  /** {"a":[1,2]} */
  const ITEMS: seq<Json> := [Int(1), Int(2)]
  const SAMPLE: seq<Entry> := [Entry([97], Arr(ITEMS))]

  lemma SampleIsPlain()
    ensures Plain(Obj(SAMPLE)) && PlainEntry(SAMPLE[0]) && Plain(Arr(ITEMS)) && Plain(Int(1)) && Plain(Int(2))
    ensures forall fl: Flags :: Quoted([97], fl) == [34, 97, 34]
  {
    assert Utf8.Head([97]) == Some((97, 1));
    assert Utf8.IsUtf8([97]);
    forall fl: Flags
      ensures Quoted([97], fl) == [34, 97, 34]
    {
      OrdinaryQuoted([97], fl);
    }
  }

  /** The parts of the text of the sample, outermost first. */
  lemma SampleText(fl: Flags)
    requires Plain(Obj(SAMPLE))
    ensures Dump(Obj(SAMPLE), fl, 0) == [123] + Indent(fl, 1, false) + ([34, 97, 34] + Colon(fl)
      + ([91] + Indent(fl, 2, false) + ([49] + [44] + Indent(fl, 2, true) + ([50] + Indent(fl, 1, false))) + [93]) + Indent(fl, 0, false)) + [125]
  {
    hide Indent, Colon, Quoted;
    SampleIsPlain();
    assert ITEMS[1..] == [Int(2)] && [Int(2)][0] == Int(2);
    assert Dump(Int(1), fl, 2) == [49] && Dump(Int(2), fl, 2) == [50];
    assert DumpItems([Int(2)], fl, 1) == [50] + Indent(fl, 1, false);
    assert DumpItems(ITEMS, fl, 1) == [49] + [44] + Indent(fl, 2, true) + ([50] + Indent(fl, 1, false));
    assert Dump(Arr(ITEMS), fl, 1) == [91] + Indent(fl, 2, false) + DumpItems(ITEMS, fl, 1) + [93];
    assert DumpEntry(SAMPLE[0], fl, 0) == [34, 97, 34] + Colon(fl) + Dump(Arr(ITEMS), fl, 1);
    assert DumpEntries(SAMPLE, fl, 0) == DumpEntry(SAMPLE[0], fl, 0) + Indent(fl, 0, false);
  }

  lemma Blanks(fl: Flags, depth: nat, space: bool)
    ensures fl.indent == 0 ==> Indent(fl, depth, space) == if space && !fl.compact then [32] else []
    ensures fl.indent == 2 && depth == 0 ==> Indent(fl, depth, space) == [10]
    ensures fl.indent == 2 && depth == 1 ==> Indent(fl, depth, space) == [10, 32, 32]
    ensures fl.indent == 2 && depth == 2 ==> Indent(fl, depth, space) == [10, 32, 32, 32, 32]
  {
    assert Repeat(32, 0) == [] && Repeat(32, 2) == [32, 32] && Repeat(32, 4) == [32, 32, 32, 32];
  }

  lemma SampleBlanks(fl: Flags)
    ensures var blank := if fl.compact then [] else [32];
      && (fl.indent == 0 ==> Indent(fl, 0, false) == [] && Indent(fl, 1, false) == [] && Indent(fl, 2, false) == [] && Indent(fl, 2, true) == blank)
      && (fl.indent == 2 ==> Indent(fl, 0, false) == [10] && Indent(fl, 1, false) == [10, 32, 32])
      && (fl.indent == 2 ==> Indent(fl, 2, false) == [10, 32, 32, 32, 32] && Indent(fl, 2, true) == [10, 32, 32, 32, 32])
      && Colon(fl) == [58] + blank
  {
    hide Indent;
    Blanks(fl, 0, false);
    Blanks(fl, 1, false);
    Blanks(fl, 2, false);
    Blanks(fl, 2, true);
  }

  /** Compact. */
  lemma CompactSample()
    ensures Plain(Obj(SAMPLE))
    ensures Dump(Obj(SAMPLE), Flags(true, false, false, 0), 0) == COMPACT_TEXT
  {
    hide Dump, Indent, Colon, Plain;
    SampleIsPlain();
    SampleText(Flags(true, false, false, 0));
    SampleBlanks(Flags(true, false, false, 0));
  }

  /** With blanks. */
  lemma SpacedSample()
    ensures Plain(Obj(SAMPLE))
    ensures Dump(Obj(SAMPLE), Flags(false, false, false, 0), 0) == SPACED_TEXT
  {
    hide Dump, Indent, Colon, Plain;
    SampleIsPlain();
    SampleText(Flags(false, false, false, 0));
    SampleBlanks(Flags(false, false, false, 0));
  }

  lemma ItemsText(fl: Flags, depth: nat)
    ensures Plain(Arr(ITEMS))
    ensures Dump(Arr(ITEMS), fl, depth) ==
      [91] + Indent(fl, depth + 1, false) + ([49] + [44] + Indent(fl, depth + 1, true) + ([50] + Indent(fl, depth, false))) + [93]
  {
    hide Indent;
    SampleIsPlain();
    assert ITEMS[1..] == [Int(2)] && [Int(2)][0] == Int(2);
    assert Dump(Int(1), fl, depth + 1) == [49] && Dump(Int(2), fl, depth + 1) == [50];
    assert DumpItems([Int(2)], fl, depth) == [50] + Indent(fl, depth, false);
    assert DumpItems(ITEMS, fl, depth) == [49] + [44] + Indent(fl, depth + 1, true) + ([50] + Indent(fl, depth, false));
  }

  /** Indented by two: every element on a line of its own, as far in as it is deep. */
  lemma IndentedSample()
    ensures Plain(Arr(ITEMS))
    ensures Dump(Arr(ITEMS), Flags(false, false, false, 2), 0) == [91, 10, 32, 32, 49, 44, 10, 32, 32, 50, 10, 93]
    ensures Dump(Arr(ITEMS), Flags(false, false, false, 2), 1) == [91, 10, 32, 32, 32, 32, 49, 44, 10, 32, 32, 32, 32, 50, 10, 32, 32, 93]
  {
    hide Dump, Indent, Plain;
    var fl := Flags(false, false, false, 2);
    ItemsText(fl, 0);
    ItemsText(fl, 1);
    SampleBlanks(fl);
    Blanks(fl, 1, true);
  }

  const COMPACT_TEXT: seq<byte> := [123, 34, 97, 34, 58, 91, 49, 44, 50, 93, 125]
  const SPACED_TEXT: seq<byte> := [123, 34, 97, 34, 58, 32, 91, 49, 44, 32, 50, 93, 125]
}
