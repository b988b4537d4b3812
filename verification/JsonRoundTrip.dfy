/**
  Loading what was dumped gives the value back (sections 2.1 to 2.5 of RFC 4627): for every tree of
  objects, arrays, strings, integers and literals, and under every choice of compactness, ASCII-only
  output, slash escaping and indentation.
 */
module JsonRoundTrip {
  import opened Bytes
  import opened JsonValues
  import opened JsonDump
  import opened JsonLoad
  import Utf8

  /** `s` stands in `v` at position `p`. */
  ghost predicate Here(v: seq<byte>, p: nat, s: seq<byte>) {
    p + |s| <= |v| && v[p..p + |s|] == s
  }

  lemma HereConcat(v: seq<byte>, p: nat, a: seq<byte>, b: seq<byte>)
    requires Here(v, p, a + b)
    ensures Here(v, p, a) && Here(v, p + |a|, b)
  {
    var s := v[p..p + |a + b|];
    assert v[p..p + |a|] == s[..|a|] == a;
    assert v[p + |a|..p + |a| + |b|] == s[|a|..] == b;
  }

  lemma HereAt(v: seq<byte>, p: nat, s: seq<byte>, i: nat)
    requires Here(v, p, s) && i < |s|
    ensures v[p + i] == s[i]
  {
    assert v[p..p + |s|][i] == s[i];
  }

  /** What may follow a number or a word: the end, or a byte that cannot extend it. */
  predicate Ends(v: seq<byte>, q: nat) {
    q < |v| ==> IsPunct(v[q]) || IsBlank(v[q])
  }

  // ---- strings ----

  lemma HexRoundTrip(n: nat)
    requires n < 16
    ensures IsHex(HexDigit(n)) && HexValue(HexDigit(n)) == n
  {
  }

  lemma Nibbles(n: nat)
    requires n < 0x10000
    ensures n / 4096 < 16
    ensures n == n / 4096 * 4096 + n / 256 % 16 * 256 + n / 16 % 16 * 16 + n % 16
  {
    assert n / 16 == n / 256 * 16 + n / 16 % 16;
    assert n / 256 == n / 4096 * 16 + n / 256 % 16;
  }

  lemma UnicodeEscapeDigits(n: nat)
    requires n < 0x10000
    ensures var s := UnicodeEscape(n);
      && s[0] == 92 && s[1] == 117 && IsHex(s[2]) && IsHex(s[3]) && IsHex(s[4]) && IsHex(s[5])
      && HexValue(s[2]) == n / 4096 && HexValue(s[3]) == n / 256 % 16
      && HexValue(s[4]) == n / 16 % 16 && HexValue(s[5]) == n % 16
  {
    hide HexDigit, HexValue, IsHex;
    HexRoundTrip(n / 4096);
    HexRoundTrip(n / 256 % 16);
    HexRoundTrip(n / 16 % 16);
    HexRoundTrip(n % 16);
  }

  lemma UnicodeEscapeRoundTrip(n: nat, rest: seq<byte>)
    requires n < 0x10000
    ensures EscapeValue(UnicodeEscape(n) + rest) == Some(n)
  {
    hide HexDigit, HexValue, IsHex, UnicodeEscape;
    UnicodeEscapeDigits(n);
    Nibbles(n);
  }

  /** A dumped code point is followed to its end by the scan for the closing quote. */
  lemma {:induction false} ScanUnicodeEscape(v: seq<byte>, p: nat, n: nat)
    requires n < 0x10000 && Here(v, p, UnicodeEscape(n))
    ensures StringEnd(v, p) == StringEnd(v, p + 6)
  {
    hide HexDigit, HexValue, IsHex, UnicodeEscape;
    UnicodeEscapeDigits(n);
    var s := UnicodeEscape(n);
    HereAt(v, p, s, 0);
    HereAt(v, p, s, 1);
    HereAt(v, p, s, 2);
    HereAt(v, p, s, 3);
    HereAt(v, p, s, 4);
    HereAt(v, p, s, 5);
  }

  lemma {:induction false} ScanRaw(v: seq<byte>, p: nat, raw: seq<byte>)
    requires Here(v, p, raw) && forall i :: 0 <= i < |raw| ==> raw[i] > 0x1F && raw[i] != 34 && raw[i] != 92
    ensures StringEnd(v, p) == StringEnd(v, p + |raw|)
    decreases |raw|
  {
    if raw != [] {
      HereAt(v, p, raw, 0);
      HereConcat(v, p, [raw[0]], raw[1..]) by { assert [raw[0]] + raw[1..] == raw; }
      ScanRaw(v, p + 1, raw[1..]);
    }
  }

  /** The bytes of a code point that needs no escape are ordinary string bytes. */
  lemma RawIsOrdinary(s: Text, fl: Flags)
    requires s != [] && Utf8.Head(s).Some? && Utf8.Head(s).value.0 <= 0x10FFFF
    requires !NeedsEscape(Utf8.Head(s).value.0, fl)
    ensures forall i :: 0 <= i < Utf8.Head(s).value.1 ==> s[i] > 0x1F && s[i] != 34 && s[i] != 92
  {
    var n := Utf8.Head(s).value.1;
    if n > 1 {
      Utf8.FullForm(s[..n]);
      assert forall i :: 1 <= i < n ==> Utf8.IsTail(s[..n][i]);
      assert forall i :: 1 <= i < n ==> s[i] == s[..n][i];
    }
  }

  lemma {:induction false} ScanPiece(v: seq<byte>, p: nat, s: Text, fl: Flags)
    requires s != [] && Utf8.Head(s).Some? && Utf8.IsScalar(Utf8.Head(s).value.0)
    requires Here(v, p, Piece(Utf8.Head(s).value.0, s[..Utf8.Head(s).value.1], fl))
    ensures StringEnd(v, p) == StringEnd(v, p + |Piece(Utf8.Head(s).value.0, s[..Utf8.Head(s).value.1], fl)|)
  {
    hide Utf8.Head, UnicodeEscape, Utf8.IsScalar;
    var (c, n) := Utf8.Head(s).value;
    ScalarBound(c);
    var piece := Piece(c, s[..n], fl);
    if !NeedsEscape(c, fl) {
      RawIsOrdinary(s, fl);
      ScanRaw(v, p, s[..n]);
    } else if |Escape(c)| == 2 {
      HereAt(v, p, piece, 0);
      HereAt(v, p, piece, 1);
    } else if c < 0x10000 {
      ScanUnicodeEscape(v, p, c);
    } else {
      var hi, lo := 0xD800 + (c - 0x10000) / 1024, 0xDC00 + (c - 0x10000) % 1024;
      HereConcat(v, p, UnicodeEscape(hi), UnicodeEscape(lo));
      ScanUnicodeEscape(v, p, hi);
      ScanUnicodeEscape(v, p + 6, lo);
    }
  }

  lemma ScalarBound(c: nat)
    requires Utf8.IsScalar(c)
    ensures c <= 0x10FFFF && !(0xD800 <= c <= 0xDFFF)
  {
  }

  /** The scan stops at the quote that dump_string wrote, not before. */
  lemma {:induction false} ScanText(v: seq<byte>, p: nat, s: Text, fl: Flags)
    requires Utf8.IsUtf8(s) && Here(v, p, DumpText(s, fl).value + [34])
    ensures StringEnd(v, p) == Some(p + |DumpText(s, fl).value|)
    decreases |s|
  {
    hide Utf8.Head, Piece;
    if s == [] {
      HereAt(v, p, DumpText(s, fl).value + [34], 0);
    } else {
      Utf8.HeadIsEncoded(s);
      var (c, n) := Utf8.Head(s).value;
      var piece, rest := Piece(c, s[..n], fl), DumpText(s[n..], fl).value;
      assert DumpText(s, fl).value + [34] == piece + (rest + [34]);
      HereConcat(v, p, piece, rest + [34]);
      ScanPiece(v, p, s, fl);
      ScanText(v, p + |piece|, s[n..], fl);
    }
  }

  lemma {:induction false} UnescapeRaw(raw: seq<byte>, rest: seq<byte>)
    requires forall i :: 0 <= i < |raw| ==> raw[i] != 92
    ensures Unescape(raw + rest) == if Unescape(rest).Some? then Some(raw + Unescape(rest).value) else None
    decreases |raw|
  {
    if raw == [] {
      assert raw + rest == rest;
      assert Unescape(rest).Some? ==> raw + Unescape(rest).value == Unescape(rest).value;
    } else {
      assert (raw + rest)[1..] == raw[1..] + rest;
      UnescapeRaw(raw[1..], rest);
      if Unescape(rest).Some? {
        assert [raw[0]] + (raw[1..] + Unescape(rest).value) == raw + Unescape(rest).value;
      }
    }
  }

  lemma {:induction false} UnescapeShort(c: nat, rest: seq<byte>)
    requires c <= 0x10FFFF && |Escape(c)| == 2
    ensures Unescape(Escape(c) + rest) == if Unescape(rest).Some? then Some([c as byte] + Unescape(rest).value) else None
  {
    assert (Escape(c) + rest)[2..] == rest;
  }

  lemma {:induction false} UnescapeBmp(c: nat, rest: seq<byte>)
    requires 0 < c < 0x10000 && !(0xD800 <= c <= 0xDFFF)
    ensures Unescape(UnicodeEscape(c) + rest) ==
      if Unescape(rest).Some? then Some(Utf8.EncodeCodePoint(c).value + Unescape(rest).value) else None
  {
    hide Utf8.EncodeCodePoint, EscapeValue, HexDigit;
    UnicodeEscapeRoundTrip(c, rest);
    assert (UnicodeEscape(c) + rest)[6..] == rest;
  }

  lemma {:induction false} UnescapePair(c: nat, rest: seq<byte>)
    requires 0x10000 <= c <= 0x10FFFF
    ensures Unescape(Escape(c) + rest) ==
      if Unescape(rest).Some? then Some(Utf8.EncodeCodePoint(c).value + Unescape(rest).value) else None
  {
    hide Utf8.EncodeCodePoint, EscapeValue, HexDigit;
    var hi, lo := 0xD800 + (c - 0x10000) / 1024, 0xDC00 + (c - 0x10000) % 1024;
    var s := Escape(c) + rest;
    assert s == UnicodeEscape(hi) + (UnicodeEscape(lo) + rest);
    UnicodeEscapeRoundTrip(hi, UnicodeEscape(lo) + rest);
    assert s[6..] == UnicodeEscape(lo) + rest;
    UnicodeEscapeRoundTrip(lo, rest);
    assert s[12..] == rest;
    assert (hi - 0xD800) * 1024 + (lo - 0xDC00) + 0x10000 == c;
  }

  lemma {:induction false} UnescapePiece(s: Text, fl: Flags, rest: seq<byte>)
    requires s != [] && s[0] != 0 && Utf8.Head(s).Some? && Utf8.IsScalar(Utf8.Head(s).value.0)
    ensures var raw := s[..Utf8.Head(s).value.1];
      Unescape(Piece(Utf8.Head(s).value.0, raw, fl) + rest) ==
        if Unescape(rest).Some? then Some(raw + Unescape(rest).value) else None
  {
    hide UnicodeEscape, Utf8.Full, Unescape, Utf8.EncodeCodePoint;
    var (c, n) := Utf8.Head(s).value;
    Utf8.HeadIsEncoded(s);
    if !NeedsEscape(c, fl) {
      RawIsOrdinary(s, fl);
      UnescapeRaw(s[..n], rest);
    } else if |Escape(c)| == 2 {
      UnescapeShort(c, rest);
      assert s[..n] == [c as byte] by { AsciiIsItself(c); }
    } else if c < 0x10000 {
      assert c != 0 by { if n == 1 { assert c == s[0]; } else { NotZero(s); } }
      UnescapeBmp(c, rest);
    } else {
      UnescapePair(c, rest);
    }
  }

  lemma AsciiIsItself(c: nat)
    requires c < 0x80
    ensures Utf8.EncodeCodePoint(c) == Some([c as byte])
  {
  }

  lemma NotZero(s: Text)
    requires s != [] && Utf8.Head(s).Some? && Utf8.Head(s).value.1 > 1
    ensures Utf8.Head(s).value.0 != 0
  {
  }

  lemma {:induction false} UnescapeText(s: Text, fl: Flags)
    requires Utf8.IsCText(s)
    ensures Unescape(DumpText(s, fl).value) == Some(s)
    decreases |s|
  {
    hide Utf8.Head, Piece, Unescape;
    if s == [] {
      assert Unescape([]) == Some([]) by { UnescapeNothing(); }
    } else {
      Utf8.HeadIsEncoded(s);
      var (c, n) := Utf8.Head(s).value;
      UnescapeText(s[n..], fl);
      UnescapePiece(s, fl, DumpText(s[n..], fl).value);
      assert s[..n] + s[n..] == s;
    }
  }

  lemma UnescapeNothing()
    ensures Unescape([]) == Some([])
  {
  }

  /** Lexing a dumped string restores it exactly. */
  lemma QuotedRoundTrip(v: seq<byte>, p: nat, t: Text, fl: Flags)
    requires Utf8.IsCText(t) && Here(v, p, Quoted(t, fl))
    ensures LexString(v, p + 1) == Lexed(TString(t), p + |Quoted(t, fl)|)
  {
    hide DumpText, StringEnd, Unescape;
    var inside := DumpText(t, fl).value;
    assert Quoted(t, fl) == [34] + (inside + [34]);
    HereConcat(v, p, [34], inside + [34]);
    ScanText(v, p + 1, t, fl);
    HereConcat(v, p + 1, inside, [34]);
    UnescapeText(t, fl);
  }

  // ---- blanks, punctuation, numbers and words ----

  predicate AllBlank(s: seq<byte>) {
    forall i :: 0 <= i < |s| ==> IsBlank(s[i])
  }

  lemma {:induction false} SkipBlanksOver(v: seq<byte>, p: nat, ws: seq<byte>)
    requires AllBlank(ws) && Here(v, p, ws)
    ensures SkipBlanks(v, p) == SkipBlanks(v, p + |ws|)
    decreases |ws|
  {
    if ws != [] {
      HereAt(v, p, ws, 0);
      HereConcat(v, p, [ws[0]], ws[1..]) by { assert [ws[0]] + ws[1..] == ws; }
      SkipBlanksOver(v, p + 1, ws[1..]);
    }
  }

  /** Leading blanks do not change the next token. */
  lemma LexOver(v: seq<byte>, bad: bool, p: nat, ws: seq<byte>)
    requires AllBlank(ws) && Here(v, p, ws)
    ensures Lex(v, bad, p) == Lex(v, bad, p + |ws|)
  {
    SkipBlanksOver(v, p, ws);
  }

  lemma IndentIsBlank(fl: Flags, depth: nat, space: bool)
    ensures AllBlank(Indent(fl, depth, space))
  {
  }

  lemma LexPunct(v: seq<byte>, bad: bool, p: nat, ws: seq<byte>, c: byte)
    requires AllBlank(ws) && IsPunct(c) && Here(v, p, ws + [c])
    ensures Lex(v, bad, p) == Lexed(TPunct(c), p + |ws| + 1)
  {
    HereConcat(v, p, ws, [c]);
    LexOver(v, bad, p, ws);
    HereAt(v, p + |ws|, [c], 0);
  }

  lemma {:induction false} DigitsRoundTrip(n: nat)
    ensures forall i :: 0 <= i < |Digits(n)| ==> IsDigit(Digits(n)[i])
    ensures DigitsValue(Digits(n)) == n
    ensures Digits(n)[0] == 48 ==> |Digits(n)| == 1
  {
    if n >= 10 {
      DigitsRoundTrip(n / 10);
      var s := Digits(n);
      assert s[..|s| - 1] == Digits(n / 10);
      assert Digits(n / 10)[0] == 48 ==> n / 10 == 0 by { if Digits(n / 10)[0] == 48 { LeadingZero(n / 10); } }
    }
  }

  lemma {:induction false} LeadingZero(n: nat)
    requires Digits(n)[0] == 48
    ensures n == 0
  {
    if n >= 10 {
      LeadingZero(n / 10);
    }
  }

  lemma {:induction false} SkipDigitsOver(v: seq<byte>, p: nat, s: seq<byte>)
    requires Here(v, p, s) && (forall i :: 0 <= i < |s| ==> IsDigit(s[i]))
    requires p + |s| < |v| ==> !IsDigit(v[p + |s|])
    ensures SkipDigits(v, p) == p + |s|
    decreases |s|
  {
    if s != [] {
      HereAt(v, p, s, 0);
      HereConcat(v, p, [s[0]], s[1..]) by { assert [s[0]] + s[1..] == s; }
      SkipDigitsOver(v, p + 1, s[1..]);
    }
  }

  /** What the number scanner finds where digits were dumped. */
  lemma DigitsHere(v: seq<byte>, bad: bool, q: nat, n: nat)
    requires Here(v, q, Digits(n)) && Ends(v, q + |Digits(n)|)
    ensures var e := q + |Digits(n)|;
      && IsDigit(v[q]) && (v[q] == 48 ==> e == q + 1)
      && SkipDigits(v, q) == e && v[q..e] == Digits(n) && PutBack(v, e) == e
      && !IsDigit(CharAt(v, bad, e)) && CharAt(v, bad, e) != 46 && !IsExponent(CharAt(v, bad, e))
  {
    hide Digits, SkipDigits;
    DigitsRoundTrip(n);
    HereAt(v, q, Digits(n), 0);
    SkipDigitsOver(v, q, Digits(n));
  }

  lemma LexInt(v: seq<byte>, bad: bool, p: nat, i: int)
    requires -(TWO63 as int) <= i < TWO63 && Here(v, p, IntText(i)) && Ends(v, p + |IntText(i)|)
    ensures Lex(v, bad, p) == Lexed(TInteger(i), p + |IntText(i)|)
  {
    hide Digits, DigitsValue, SkipDigits, PutBack, IsExponent, Ends, LexNumber;
    IntNumber(v, bad, p, i);
    assert SkipBlanks(v, p) == p;
  }

  lemma IntNumber(v: seq<byte>, bad: bool, p: nat, i: int)
    requires -(TWO63 as int) <= i < TWO63 && Here(v, p, IntText(i)) && Ends(v, p + |IntText(i)|)
    ensures p < |v| && (v[p] == 45 || IsDigit(v[p])) && LexNumber(v, bad, p) == Lexed(TInteger(i), p + |IntText(i)|)
  {
    hide Digits, DigitsValue, SkipDigits, PutBack, IsExponent, Ends, LexNumber, CharAt, Here, IntText;
    var n: nat := if i < 0 then -i else i;
    var q := if i < 0 then p + 1 else p;
    SignHere(v, p, i);
    DigitsHere(v, bad, q, n);
    DigitsRoundTrip(n);
    IntegerLexed(v, bad, p, q, q + |Digits(n)|);
  }

  lemma SignHere(v: seq<byte>, p: nat, i: int)
    requires Here(v, p, IntText(i))
    ensures i < 0 ==> p < |v| && v[p] == 45 && |IntText(i)| == |Digits(-i)| + 1 && Here(v, p + 1, Digits(-i))
    ensures i >= 0 ==> IntText(i) == Digits(i)
  {
    hide Digits;
    if i < 0 {
      HereConcat(v, p, [45], Digits(-i));
      HereAt(v, p, [45], 0);
    }
  }

  /** An integer is lexed from its sign, if any, at `p` and its digits from `q` to `e`. */
  lemma IntegerLexed(v: seq<byte>, bad: bool, p: nat, q: nat, e: nat)
    requires p <= q < e <= |v| && (if v[p] == 45 then q == p + 1 else q == p) && IsDigit(v[q])
    requires SkipDigits(v, q) == e && (v[q] == 48 ==> e == q + 1) && PutBack(v, e) == e
    requires !IsDigit(CharAt(v, bad, e)) && CharAt(v, bad, e) != 46 && !IsExponent(CharAt(v, bad, e))
    ensures var n := DigitsValue(v[q..e]); var i: int := if v[p] == 45 then 0 - n else n;
      -(TWO63 as int) <= i < TWO63 ==> LexNumber(v, bad, p) == Lexed(TInteger(i), e)
  {
    hide DigitsValue, SkipDigits, PutBack, IsExponent, LexReal;
  }

  lemma {:induction false} SkipAlphasOver(v: seq<byte>, p: nat, s: seq<byte>)
    requires Here(v, p, s) && (forall i :: 0 <= i < |s| ==> IsAlpha(s[i]))
    requires p + |s| < |v| ==> !IsAlpha(v[p + |s|])
    ensures SkipAlphas(v, p) == p + |s|
    decreases |s|
  {
    if s != [] {
      HereAt(v, p, s, 0);
      HereConcat(v, p, [s[0]], s[1..]) by { assert [s[0]] + s[1..] == s; }
      SkipAlphasOver(v, p + 1, s[1..]);
    }
  }

  lemma LexWord(v: seq<byte>, bad: bool, p: nat, s: seq<byte>)
    requires s != [] && (forall i :: 0 <= i < |s| ==> IsAlpha(s[i])) && Here(v, p, s) && Ends(v, p + |s|)
    ensures Lex(v, bad, p) == Lexed(Word(s), p + |s|)
  {
    SkipAlphasOver(v, p, s);
    HereAt(v, p, s, 0);
  }

  lemma LexQuoted(v: seq<byte>, bad: bool, p: nat, t: Text, fl: Flags)
    requires Utf8.IsCText(t) && Here(v, p, Quoted(t, fl))
    ensures Lex(v, bad, p) == Lexed(TString(t), p + |Quoted(t, fl)|)
  {
    hide LexString, DumpText;
    HereAt(v, p, Quoted(t, fl), 0);
    QuotedRoundTrip(v, p, t, fl);
  }

  // ---- values ----

  /** The token at `p` starts a value, and parsing it gives `x` and stops at `q`. */
  ghost predicate Reads(v: seq<byte>, bad: bool, p: nat, x: Json, q: nat) {
    && p <= |v|
    && var l := Lex(v, bad, p);
    && !l.token.TInvalid? && !l.token.TEof?
    && l.token != TPunct(93) && l.token != TPunct(125)
    && ParseValue(v, bad, l.token, l.at) == Parsed(x, q)
  }

  lemma {:induction false} ValueRoundTrip(v: seq<byte>, bad: bool, p: nat, x: Json, fl: Flags, depth: nat)
    requires Plain(x) && Here(v, p, Dump(x, fl, depth)) && Ends(v, p + |Dump(x, fl, depth)|)
    ensures Reads(v, bad, p, x, p + |Dump(x, fl, depth)|)
    decreases x, 2
  {
    hide Lex, Quoted, IntText, DumpItems, DumpEntries, Indent;
    match x
    case Null => LexWord(v, bad, p, Dump(x, fl, depth));
    case True => LexWord(v, bad, p, Dump(x, fl, depth));
    case False => LexWord(v, bad, p, Dump(x, fl, depth));
    case Int(i) => LexInt(v, bad, p, i);
    case Str(t) => LexQuoted(v, bad, p, t, fl);
    case Arr(vs) => ArrayRoundTrip(v, bad, p, x, fl, depth);
    case Obj(es) => ObjectRoundTrip(v, bad, p, x, fl, depth);
  }

  lemma {:induction false} ArrayRoundTrip(v: seq<byte>, bad: bool, p: nat, x: Json, fl: Flags, depth: nat)
    requires x.Arr? && Plain(x) && Here(v, p, Dump(x, fl, depth))
    ensures Reads(v, bad, p, x, p + |Dump(x, fl, depth)|)
    decreases x, 1
  {
    hide Lex, Dump, DumpItems, Indent, ParseItems, Plain, Here, AllBlank;
    PlainItems(x);
    ArrText(x, fl, depth);
    NoBlank();
    assert [] + [91] == [91] && [] + [93] == [93];
    if x.items == [] {
      HereConcat(v, p, [91], [93]);
      LexPunct(v, bad, p, [], 91);
      LexPunct(v, bad, p + 1, [], 93);
      assert ParseArray(v, bad, p + 1) == Parsed(Arr([]), p + 2);
      assert x == Arr([]);
    } else {
      var ws, inside := Indent(fl, depth + 1, false), DumpItems(x.items, fl, depth) + [93];
      HereConcat(v, p, [91], ws + inside);
      LexPunct(v, bad, p, [], 91);
      HereConcat(v, p + 1, ws, inside);
      IndentIsBlank(fl, depth + 1, false);
      LexOver(v, bad, p + 1, ws);
      ItemsRoundTrip(v, bad, p + 1 + |ws|, x.items, [], fl, depth);
      assert [] + x.items == x.items;
      assert ParseArray(v, bad, p + 1) == Parsed(x, p + |Dump(x, fl, depth)|);
    }
  }

  lemma ArrText(x: Json, fl: Flags, depth: nat)
    requires x.Arr? && Plain(x)
    ensures x.items == [] ==> Dump(x, fl, depth) == [91] + [93]
    ensures x.items != [] ==>
      Dump(x, fl, depth) == [91] + (Indent(fl, depth + 1, false) + (DumpItems(x.items, fl, depth) + [93]))
  {
    hide DumpItems, Indent;
  }

  lemma PlainItems(x: Json)
    requires x.Arr? && Plain(x)
    ensures forall i :: 0 <= i < |x.items| ==> Plain(x.items[i])
  {
  }

  lemma PlainEntries(x: Json)
    requires x.Obj? && Plain(x)
    ensures DistinctKeys(x.entries) && forall i :: 0 <= i < |x.entries| ==> PlainEntry(x.entries[i])
  {
  }

  lemma ItemsText(vs: seq<Json>, fl: Flags, depth: nat)
    requires vs != [] && (forall i :: 0 <= i < |vs| ==> Plain(vs[i]))
    ensures |vs| == 1 ==>
      DumpItems(vs, fl, depth) + [93] == Dump(vs[0], fl, depth + 1) + (Indent(fl, depth, false) + [93])
    ensures |vs| > 1 ==>
      DumpItems(vs, fl, depth) + [93] == Dump(vs[0], fl, depth + 1)
        + ([44] + (Indent(fl, depth + 1, true) + (DumpItems(vs[1..], fl, depth) + [93])))
  {
    hide Dump, Indent, Plain;
  }

  /** The elements of an array up to its closing bracket, the first of them starting at `p`. */
  lemma {:induction false} ItemsRoundTrip(
    v: seq<byte>, bad: bool, p: nat, vs: seq<Json>, done: seq<Json>, fl: Flags, depth: nat)
    requires vs != [] && (forall i :: 0 <= i < |vs| ==> Plain(vs[i]))
    requires Here(v, p, DumpItems(vs, fl, depth) + [93])
    ensures var l := Lex(v, bad, p);
      && l.at <= |v| && !l.token.TInvalid? && !l.token.TEof? && l.token != TPunct(93)
      && ParseItems(v, bad, l.token, l.at, done) == Parsed(Arr(done + vs), p + |DumpItems(vs, fl, depth)| + 1)
    decreases vs, 0
  {
    hide Lex, Dump, Indent, Plain, ParseValue, DumpItems, Here, Ends, AllBlank;
    var first := Dump(vs[0], fl, depth + 1);
    var q := p + |first|;
    ItemsText(vs, fl, depth);
    if |vs| == 1 {
      var ws := Indent(fl, depth, false);
      HereConcat(v, p, first, ws + [93]);
      IndentIsBlank(fl, depth, false);
      EndsBeforePunct(v, q, ws, 93);
      ValueRoundTrip(v, bad, p, vs[0], fl, depth + 1);
      LexPunct(v, bad, q, ws, 93);
      assert done + vs == done + [vs[0]];
    } else {
      var ws, rest := Indent(fl, depth + 1, true), DumpItems(vs[1..], fl, depth) + [93];
      HereConcat(v, p, first, [44] + (ws + rest));
      CommaRoundTrip(v, bad, q, ws, rest) by { IndentIsBlank(fl, depth + 1, true); }
      ValueRoundTrip(v, bad, p, vs[0], fl, depth + 1);
      ItemsRoundTrip(v, bad, q + 1 + |ws|, vs[1..], done + [vs[0]], fl, depth);
      assert done + [vs[0]] + vs[1..] == done + vs;
    }
  }

  /** A comma, blanks, and the text after them. */
  lemma CommaRoundTrip(v: seq<byte>, bad: bool, q: nat, ws: seq<byte>, rest: seq<byte>)
    requires AllBlank(ws) && Here(v, q, [44] + (ws + rest))
    ensures Ends(v, q) && Lex(v, bad, q) == Lexed(TPunct(44), q + 1)
    ensures Here(v, q + 1 + |ws|, rest) && Lex(v, bad, q + 1) == Lex(v, bad, q + 1 + |ws|)
  {
    hide Lex, Here, AllBlank, Ends;
    HereConcat(v, q, [44], ws + rest);
    assert [] + [44] == [44];
    NoBlank();
    EndsBeforePunct(v, q, [], 44);
    LexPunct(v, bad, q, [], 44);
    HereConcat(v, q + 1, ws, rest);
    LexOver(v, bad, q + 1, ws);
  }

  lemma EndsBeforePunct(v: seq<byte>, q: nat, ws: seq<byte>, c: byte)
    requires AllBlank(ws) && IsPunct(c) && Here(v, q, ws + [c])
    ensures Ends(v, q)
  {
    HereAt(v, q, ws + [c], 0);
  }

  lemma {:induction false} ObjectRoundTrip(v: seq<byte>, bad: bool, p: nat, x: Json, fl: Flags, depth: nat)
    requires x.Obj? && Plain(x) && Here(v, p, Dump(x, fl, depth))
    ensures Reads(v, bad, p, x, p + |Dump(x, fl, depth)|)
    decreases x, 1
  {
    hide Lex, Dump, DumpEntries, Indent, ParseMembers, Plain, Here, AllBlank;
    PlainEntries(x);
    ObjText(x, fl, depth);
    NoBlank();
    assert [] + [123] == [123] && [] + [125] == [125];
    if x.entries == [] {
      HereConcat(v, p, [123], [125]);
      LexPunct(v, bad, p, [], 123);
      LexPunct(v, bad, p + 1, [], 125);
      assert ParseObject(v, bad, p + 1) == Parsed(Obj([]), p + 2);
      assert x == Obj([]);
    } else {
      var ws, inside := Indent(fl, depth + 1, false), DumpEntries(x.entries, fl, depth) + [125];
      HereConcat(v, p, [123], ws + inside);
      LexPunct(v, bad, p, [], 123);
      HereConcat(v, p + 1, ws, inside);
      IndentIsBlank(fl, depth + 1, false);
      LexOver(v, bad, p + 1, ws);
      EntriesRoundTrip(v, bad, p + 1 + |ws|, x.entries, [], fl, depth);
      assert [] + x.entries == x.entries;
      assert ParseObject(v, bad, p + 1) == Parsed(x, p + |Dump(x, fl, depth)|);
    }
  }

  lemma ObjText(x: Json, fl: Flags, depth: nat)
    requires x.Obj? && Plain(x)
    ensures x.entries == [] ==> Dump(x, fl, depth) == [123] + [125]
    ensures x.entries != [] ==>
      Dump(x, fl, depth) == [123] + (Indent(fl, depth + 1, false) + (DumpEntries(x.entries, fl, depth) + [125]))
  {
    hide DumpEntries, Indent;
  }

  /** One member: the key, the colon, the value, and what its value token is. */
  lemma {:induction false} EntryRoundTrip(v: seq<byte>, bad: bool, p: nat, e: Entry, fl: Flags, depth: nat)
    requires PlainEntry(e) && Here(v, p, DumpEntry(e, fl, depth)) && Ends(v, p + |DumpEntry(e, fl, depth)|)
    ensures Lex(v, bad, p) == Lexed(TString(e.key), p + |Quoted(e.key, fl)|)
    ensures Lex(v, bad, p + |Quoted(e.key, fl)|) == Lexed(TPunct(58), p + |Quoted(e.key, fl)| + 1)
    ensures Reads(v, bad, p + |Quoted(e.key, fl)| + 1, e.value, p + |DumpEntry(e, fl, depth)|)
    decreases e, 0
  {
    hide Lex, Quoted, Dump, ParseValue, Plain, Here, Ends, AllBlank, DumpEntry;
    var k, x := Quoted(e.key, fl), Dump(e.value, fl, depth + 1);
    var sp := ColonBlank(fl);
    EntryText(e, fl, depth);
    HereConcat(v, p, k, [58] + (sp + x));
    LexQuoted(v, bad, p, e.key, fl);
    HereConcat(v, p + |k|, [58], sp + x);
    assert [] + [58] == [58];
    NoBlank();
    LexPunct(v, bad, p + |k|, [], 58);
    HereConcat(v, p + |k| + 1, sp, x);
    LexOver(v, bad, p + |k| + 1, sp);
    ValueRoundTrip(v, bad, p + |k| + 1 + |sp|, e.value, fl, depth + 1);
  }

  lemma NoBlank()
    ensures AllBlank([])
  {
  }

  function ColonBlank(fl: Flags): (s: seq<byte>) {
    if fl.compact then [] else [32]
  }

  lemma EntryText(e: Entry, fl: Flags, depth: nat)
    requires PlainEntry(e)
    ensures AllBlank(ColonBlank(fl))
    ensures DumpEntry(e, fl, depth)
      == Quoted(e.key, fl) + ([58] + (ColonBlank(fl) + Dump(e.value, fl, depth + 1)))
  {
    hide Quoted, Dump, Plain;
    assert Colon(fl) == [58] + ColonBlank(fl);
  }

  lemma {:induction false} EntriesRoundTrip(
    v: seq<byte>, bad: bool, p: nat, es: seq<Entry>, done: seq<Entry>, fl: Flags, depth: nat)
    requires es != [] && (forall i :: 0 <= i < |es| ==> PlainEntry(es[i]))
    requires DistinctKeys(done + es)
    requires Here(v, p, DumpEntries(es, fl, depth) + [125])
    ensures var l := Lex(v, bad, p);
      && l.at <= |v| && !l.token.TInvalid? && !l.token.TEof? && l.token != TPunct(125)
      && ParseMembers(v, bad, l.token, l.at, done) == Parsed(Obj(done + es), p + |DumpEntries(es, fl, depth)| + 1)
    decreases es, 1
  {
    hide Lex, DumpEntry, Indent, PlainEntry, ParseValue, Put, Has, Quoted, DumpEntries, Here, Ends, AllBlank, DistinctKeys;
    var e, first := es[0], DumpEntry(es[0], fl, depth);
    var q := p + |first|;
    EntriesText(es, fl, depth);
    NewKey(done, es);
    assert Put(done, e.key, e.value) == done + [e];
    if |es| == 1 {
      var ws := Indent(fl, depth, false);
      HereConcat(v, p, first, ws + [125]);
      IndentIsBlank(fl, depth, false);
      EndsBeforePunct(v, q, ws, 125);
      EntryRoundTrip(v, bad, p, e, fl, depth);
      LexPunct(v, bad, q, ws, 125);
      assert done + es == done + [e];
    } else {
      var ws, rest := Indent(fl, depth + 1, true), DumpEntries(es[1..], fl, depth) + [125];
      HereConcat(v, p, first, [44] + (ws + rest));
      CommaRoundTrip(v, bad, q, ws, rest) by { IndentIsBlank(fl, depth + 1, true); }
      EntryRoundTrip(v, bad, p, e, fl, depth);
      assert done + [e] + es[1..] == done + es;
      EntriesRoundTrip(v, bad, q + 1 + |ws|, es[1..], done + [e], fl, depth);
    }
  }

  lemma EntriesText(es: seq<Entry>, fl: Flags, depth: nat)
    requires es != [] && (forall i :: 0 <= i < |es| ==> PlainEntry(es[i]))
    ensures |es| == 1 ==>
      DumpEntries(es, fl, depth) + [125] == DumpEntry(es[0], fl, depth) + (Indent(fl, depth, false) + [125])
    ensures |es| > 1 ==>
      DumpEntries(es, fl, depth) + [125] == DumpEntry(es[0], fl, depth)
        + ([44] + (Indent(fl, depth + 1, true) + (DumpEntries(es[1..], fl, depth) + [125])))
  {
    hide DumpEntry, Indent, PlainEntry;
  }

  lemma NewKey(done: seq<Entry>, es: seq<Entry>)
    requires es != [] && DistinctKeys(done + es)
    ensures !Has(done, es[0].key)
  {
    assert (done + es)[|done|] == es[0];
    assert forall i :: 0 <= i < |done| ==> (done + es)[i] == done[i];
  }

  // ---- whole texts ----

  /** Dumped text is UTF-8, so the byte stream lets all of it through. */
  lemma DumpedTextLoads(x: Json, fl: Flags)
    requires Plain(x) && (x.Arr? || x.Obj?)
    ensures ParseText(Dump(x, fl, 0), false) == Some(x)
  {
    hide Lex, Dump, ParseValue, Plain;
    var v := Dump(x, fl, 0);
    assert v[0..|v|] == v;
    ValueRoundTrip(v, false, 0, x, fl, 0);
    assert Lex(v, false, |v|).token.TEof? by { LexEnd(v); }
    FirstToken(v, x, fl);
  }

  lemma LexEnd(v: seq<byte>)
    ensures Lex(v, false, |v|) == Lexed(TEof, |v|)
  {
  }

  lemma FirstToken(v: seq<byte>, x: Json, fl: Flags)
    requires Plain(x) && (x.Arr? || x.Obj?) && v == Dump(x, fl, 0)
    ensures Lex(v, false, 0).token == TPunct(if x.Arr? then 91 else 123)
  {
    hide DumpItems, DumpEntries, Indent;
  }

  lemma UnicodeEscapeIsAscii(n: nat)
    requires n < 0x10000
    ensures forall i :: 0 <= i < 6 ==> UnicodeEscape(n)[i] < 0x80
  {
  }

  lemma PieceIsUtf8(s: Text, fl: Flags)
    requires s != [] && Utf8.Head(s).Some? && Utf8.IsScalar(Utf8.Head(s).value.0)
    ensures Utf8.IsUtf8(Piece(Utf8.Head(s).value.0, s[..Utf8.Head(s).value.1], fl))
  {
    hide Utf8.IsUtf8, UnicodeEscape, Utf8.Head, Utf8.EncodeCodePoint;
    var (c, n) := Utf8.Head(s).value;
    Utf8.HeadIsEncoded(s);
    if !NeedsEscape(c, fl) {
      assert Utf8.IsUtf8(s[..n]) by { OneIsUtf8(c); }
    } else if |Escape(c)| == 2 {
      Utf8.AsciiIsUtf8(Escape(c));
    } else if c < 0x10000 {
      UnicodeEscapeIsAscii(c);
      Utf8.AsciiIsUtf8(Escape(c));
    } else {
      UnicodeEscapeIsAscii(0xD800 + (c - 0x10000) / 1024);
      UnicodeEscapeIsAscii(0xDC00 + (c - 0x10000) % 1024);
      Utf8.AsciiIsUtf8(Escape(c));
    }
  }

  lemma OneIsUtf8(c: nat)
    requires Utf8.IsScalar(c)
    ensures Utf8.IsUtf8(Utf8.EncodeCodePoint(c).value)
  {
    hide Utf8.EncodeCodePoint;
    assert Utf8.Scalars([c]);
    Utf8.DecodeOfEncoded([c]);
    assert Utf8.EncodeAll([c][1..]) == [];
    assert Utf8.EncodeAll([c]) == Utf8.EncodeCodePoint(c).value;
  }

  lemma {:induction false} DumpTextIsUtf8(s: Text, fl: Flags)
    requires Utf8.IsUtf8(s)
    ensures Utf8.IsUtf8(DumpText(s, fl).value)
    decreases |s|
  {
    hide Piece, Utf8.Head;
    if s != [] {
      Utf8.HeadIsEncoded(s);
      var (c, n) := Utf8.Head(s).value;
      PieceIsUtf8(s, fl);
      DumpTextIsUtf8(s[n..], fl);
      Utf8.ConcatIsUtf8(Piece(c, s[..n], fl), DumpText(s[n..], fl).value);
    }
  }

  lemma QuotedIsUtf8(s: Text, fl: Flags)
    requires Utf8.IsUtf8(s)
    ensures Utf8.IsUtf8(Quoted(s, fl))
  {
    hide Utf8.IsUtf8, DumpText;
    Utf8.AsciiIsUtf8([34]);
    DumpTextIsUtf8(s, fl);
    Utf8.ConcatIsUtf8([34], DumpText(s, fl).value);
    Utf8.ConcatIsUtf8([34] + DumpText(s, fl).value, [34]);
  }

  lemma {:induction false} DigitsAreAscii(n: nat)
    ensures forall i :: 0 <= i < |Digits(n)| ==> Digits(n)[i] < 0x80
  {
    if n >= 10 {
      DigitsAreAscii(n / 10);
    }
  }

  lemma BlankIsUtf8(fl: Flags, depth: nat, space: bool, c: byte)
    requires c < 0x80
    ensures Utf8.IsUtf8([c] + Indent(fl, depth, space)) && Utf8.IsUtf8(Indent(fl, depth, space) + [c])
    ensures Utf8.IsUtf8(Indent(fl, depth, space)) && Utf8.IsUtf8([c])
  {
    hide Utf8.IsUtf8;
    IndentIsBlank(fl, depth, space);
    Utf8.AsciiIsUtf8([c] + Indent(fl, depth, space));
    Utf8.AsciiIsUtf8(Indent(fl, depth, space) + [c]);
    Utf8.AsciiIsUtf8(Indent(fl, depth, space));
    Utf8.AsciiIsUtf8([c]);
  }

  lemma {:induction false} DumpIsUtf8(x: Json, fl: Flags, depth: nat)
    requires Plain(x)
    ensures Utf8.IsUtf8(Dump(x, fl, depth))
    decreases x, 1
  {
    hide Utf8.IsUtf8, Indent, Quoted, Digits;
    match x
    case Null => Utf8.AsciiIsUtf8(Dump(x, fl, depth));
    case True => Utf8.AsciiIsUtf8(Dump(x, fl, depth));
    case False => Utf8.AsciiIsUtf8(Dump(x, fl, depth));
    case Int(i) => DigitsAreAscii(if i < 0 then -i else i); Utf8.AsciiIsUtf8(Dump(x, fl, depth));
    case Str(t) => QuotedIsUtf8(t, fl);
    case Arr(vs) =>
      if vs == [] {
        Utf8.AsciiIsUtf8([91, 93]);
      } else {
        BlankIsUtf8(fl, depth + 1, false, 91);
        BlankIsUtf8(fl, depth + 1, false, 93);
        ItemsAreUtf8(vs, fl, depth);
        Utf8.ConcatIsUtf8([91] + Indent(fl, depth + 1, false), DumpItems(vs, fl, depth));
        Utf8.ConcatIsUtf8([91] + Indent(fl, depth + 1, false) + DumpItems(vs, fl, depth), [93]);
      }
    case Obj(es) =>
      if es == [] {
        Utf8.AsciiIsUtf8([123, 125]);
      } else {
        BlankIsUtf8(fl, depth + 1, false, 123);
        BlankIsUtf8(fl, depth + 1, false, 125);
        EntriesAreUtf8(es, fl, depth);
        Utf8.ConcatIsUtf8([123] + Indent(fl, depth + 1, false), DumpEntries(es, fl, depth));
        Utf8.ConcatIsUtf8([123] + Indent(fl, depth + 1, false) + DumpEntries(es, fl, depth), [125]);
      }
  }

  lemma {:induction false} ItemsAreUtf8(vs: seq<Json>, fl: Flags, depth: nat)
    requires vs != [] && forall i :: 0 <= i < |vs| ==> Plain(vs[i])
    ensures Utf8.IsUtf8(DumpItems(vs, fl, depth))
    decreases vs, 0
  {
    hide Utf8.IsUtf8, Indent, Dump, Plain;
    var first := Dump(vs[0], fl, depth + 1);
    DumpIsUtf8(vs[0], fl, depth + 1);
    BlankIsUtf8(fl, depth, false, 44);
    BlankIsUtf8(fl, depth + 1, true, 44);
    if |vs| == 1 {
      Utf8.ConcatIsUtf8(first, Indent(fl, depth, false));
    } else {
      ItemsAreUtf8(vs[1..], fl, depth);
      Utf8.ConcatIsUtf8(first, [44]);
      Utf8.ConcatIsUtf8(first + [44], Indent(fl, depth + 1, true));
      Utf8.ConcatIsUtf8(first + [44] + Indent(fl, depth + 1, true), DumpItems(vs[1..], fl, depth));
    }
  }

  lemma {:induction false} EntriesAreUtf8(es: seq<Entry>, fl: Flags, depth: nat)
    requires es != [] && forall i :: 0 <= i < |es| ==> PlainEntry(es[i])
    ensures Utf8.IsUtf8(DumpEntries(es, fl, depth))
    decreases es, 0
  {
    hide Utf8.IsUtf8, Indent, DumpEntry, PlainEntry;
    var first := DumpEntry(es[0], fl, depth);
    EntryIsUtf8(es[0], fl, depth);
    BlankIsUtf8(fl, depth, false, 44);
    BlankIsUtf8(fl, depth + 1, true, 44);
    if |es| == 1 {
      Utf8.ConcatIsUtf8(first, Indent(fl, depth, false));
    } else {
      EntriesAreUtf8(es[1..], fl, depth);
      Utf8.ConcatIsUtf8(first, [44]);
      Utf8.ConcatIsUtf8(first + [44], Indent(fl, depth + 1, true));
      Utf8.ConcatIsUtf8(first + [44] + Indent(fl, depth + 1, true), DumpEntries(es[1..], fl, depth));
    }
  }

  lemma {:induction false} EntryIsUtf8(e: Entry, fl: Flags, depth: nat)
    requires PlainEntry(e)
    ensures Utf8.IsUtf8(DumpEntry(e, fl, depth))
    decreases e, 0
  {
    hide Utf8.IsUtf8, Dump, Quoted;
    QuotedIsUtf8(e.key, fl);
    DumpIsUtf8(e.value, fl, depth + 1);
    Utf8.AsciiIsUtf8(Colon(fl));
    Utf8.ConcatIsUtf8(Quoted(e.key, fl), Colon(fl));
    Utf8.ConcatIsUtf8(Quoted(e.key, fl) + Colon(fl), Dump(e.value, fl, depth + 1));
  }

  /** Loading a dumped array or object gives an equal value, under every choice of flags. */
  lemma RoundTrip(x: Json, fl: Flags)
    requires Plain(x) && (x.Arr? || x.Obj?)
    ensures Load(Dump(x, fl, 0)) == Some(x)
  {
    hide Dump, ParseText, Plain, Clean;
    var s := Dump(x, fl, 0);
    DumpIsUtf8(x, fl, 0);
    DumpedTextLoads(x, fl);
    assert Clean(s) == |s| && s[..|s|] == s;
  }
}
