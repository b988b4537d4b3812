/**
  The JSON lexer and parser of the vendored jansson (deps/jansson/src/load.c) as functions over the
  text. `v` is the part of the input that is UTF-8 and `bad` tells whether something that is not
  UTF-8 follows it; `JsonStream` proves that this is what the byte stream delivers.
 */
module JsonLoad {
  import opened Bytes
  import opened JsonValues
  import Utf8

  datatype Token =
    | TInvalid
    | TEof
    | TPunct(c: byte)
    | TString(text: Text)
    | TInteger(i: int)
    | TReal
    | TTrue
    | TFalse
    | TNull

  const EOF: int := -1
  const ERROR: int := -2

  function CharAt(v: seq<byte>, bad: bool, p: nat): int {
    if p < |v| then v[p] else if bad then ERROR else EOF
  }

  predicate IsBlank(c: int) { c == 32 || c == 9 || c == 10 || c == 13 }
  predicate IsDigit(c: int) { 48 <= c <= 57 }
  predicate IsAlpha(c: int) { 65 <= c <= 90 || 97 <= c <= 122 }
  predicate IsHex(c: int) { IsDigit(c) || 65 <= c <= 70 || 97 <= c <= 102 }
  predicate IsPunct(c: int) { c == 123 || c == 125 || c == 91 || c == 93 || c == 58 || c == 44 }
  predicate IsExponent(c: int) { c == 69 || c == 101 }

  /** The first position from `p` on whose byte is not of the class. */
  function SkipBlanks(v: seq<byte>, p: nat): (q: nat)
    requires p <= |v|
    ensures p <= q <= |v| && (q < |v| ==> !IsBlank(v[q]))
    decreases |v| - p
  {
    if p < |v| && IsBlank(v[p]) then SkipBlanks(v, p + 1) else p
  }

  function SkipDigits(v: seq<byte>, p: nat): (q: nat)
    requires p <= |v|
    ensures p <= q <= |v| && (forall i :: p <= i < q ==> IsDigit(v[i])) && (q < |v| ==> !IsDigit(v[q]))
    decreases |v| - p
  {
    if p < |v| && IsDigit(v[p]) then SkipDigits(v, p + 1) else p
  }

  function SkipAlphas(v: seq<byte>, p: nat): (q: nat)
    requires p <= |v|
    ensures p <= q <= |v| && (q < |v| ==> !IsAlpha(v[q]))
    decreases |v| - p
  {
    if p < |v| && IsAlpha(v[p]) then SkipAlphas(v, p + 1) else p
  }

  /** Where reading goes on after the byte at `q` was put back: a NUL that is put back is lost. */
  function PutBack(v: seq<byte>, q: nat): (r: nat)
    requires q <= |v|
    ensures q <= r <= |v|
  {
    if q < |v| && v[q] == 0 then q + 1 else q
  }

  function DigitValue(c: byte): nat
    requires IsDigit(c)
  {
    c - 48
  }

  /** strtoll over digits. */
  function DigitsValue(s: seq<byte>): nat
    requires forall i :: 0 <= i < |s| ==> IsDigit(s[i])
  {
    if s == [] then 0 else DigitsValue(s[..|s| - 1]) * 10 + DigitValue(s[|s| - 1])
  }

  datatype Lexed = Lexed(token: Token, at: nat)

  /** lex_scan_number, from the sign or first digit at `p`. */
  function LexNumber(v: seq<byte>, bad: bool, p: nat): (r: Lexed)
    requires p < |v| && (v[p] == 45 || IsDigit(v[p]))
    ensures !r.token.TInvalid? ==> p < r.at <= |v|
  {
    var negative := v[p] == 45;
    var q := if negative then p + 1 else p;
    if !IsDigit(CharAt(v, bad, q)) then Lexed(TInvalid, p)
    else
      var e := if v[q] == 48 then q + 1 else SkipDigits(v, q);
      var c := CharAt(v, bad, e);
      if v[q] == 48 && IsDigit(c) then Lexed(TInvalid, p)
      else if c != 46 && !IsExponent(c) then
        var n := DigitsValue(v[q..e]);
        var i: int := if negative then 0 - n else n;
        if -(TWO63 as int) <= i < TWO63 then Lexed(TInteger(i), PutBack(v, e)) else Lexed(TInvalid, p)
      else LexReal(v, bad, e)
  }

  /** The fraction and exponent of a real; its value is left to the C library. */
  function LexReal(v: seq<byte>, bad: bool, e: nat): (r: Lexed)
    requires e < |v|
    ensures !r.token.TInvalid? ==> e < r.at <= |v|
  {
    var point := v[e] == 46;
    if point && !IsDigit(CharAt(v, bad, e + 1)) then Lexed(TInvalid, e)
    else
      var f := if point then SkipDigits(v, e + 1) else e;
      if !IsExponent(CharAt(v, bad, f)) then (if f > e then Lexed(TReal, PutBack(v, f)) else Lexed(TInvalid, e))
      else
        var c := CharAt(v, bad, f + 1);
        var x := if c == 43 || c == 45 then f + 2 else f + 1;
        if !IsDigit(CharAt(v, bad, x)) then Lexed(TInvalid, e)
        else Lexed(TReal, PutBack(v, SkipDigits(v, x)))
  }

  predicate IsShortEscape(c: int) {
    c == 34 || c == 92 || c == 47 || c == 98 || c == 102 || c == 110 || c == 114 || c == 116
  }

  /** The closing quote of a string whose inside starts at `p`: the first loop of lex_scan_string. */
  function StringEnd(v: seq<byte>, p: nat): (r: Option<nat>)
    requires p <= |v|
    ensures r.Some? ==> p <= r.value < |v| && v[r.value] == 34
    decreases |v| - p
  {
    if p == |v| then None
    else if v[p] == 34 then Some(p)
    else if v[p] <= 0x1F then None
    else if v[p] == 92 then
      if p + 1 == |v| then None
      else if v[p + 1] == 117 then
        if p + 6 <= |v| && IsHex(v[p + 2]) && IsHex(v[p + 3]) && IsHex(v[p + 4]) && IsHex(v[p + 5])
        then StringEnd(v, p + 6) else None
      else if IsShortEscape(v[p + 1]) then StringEnd(v, p + 2)
      else None
    else StringEnd(v, p + 1)
  }

  function HexValue(c: byte): (n: nat)
    requires IsHex(c)
    ensures n < 16
  {
    if IsDigit(c) then c - 48 else if c >= 97 then c - 87 else c - 55
  }

  /** decode_unicode_escape: four hex digits after `\u`; None marks text the first loop would not let through. */
  function EscapeValue(s: seq<byte>): (r: Option<nat>)
    ensures r.Some? ==> |s| >= 6 && r.value < 0x10000
  {
    if |s| >= 6 && s[0] == 92 && s[1] == 117 && IsHex(s[2]) && IsHex(s[3]) && IsHex(s[4]) && IsHex(s[5]) then
      Some(HexValue(s[2]) * 4096 + HexValue(s[3]) * 256 + HexValue(s[4]) * 16 + HexValue(s[5]))
    else None
  }

  function ShortEscapeValue(c: byte): byte
    requires IsShortEscape(c)
  {
    if c == 98 then 8 else if c == 102 then 12 else if c == 110 then 10 else if c == 114 then 13
    else if c == 116 then 9 else c
  }

  /** The text between the quotes, escapes decoded: the second loop of lex_scan_string. */
  function Unescape(s: seq<byte>): (r: Option<Text>)
    ensures r.Some? ==> |r.value| <= |s|
    decreases |s|
  {
    if s == [] then Some([])
    else if s[0] != 92 then
      var rest :- Unescape(s[1..]);
      Some([s[0]] + rest)
    else if |s| >= 2 && s[1] == 117 then
      var u :- EscapeValue(s);
      if 0xD800 <= u <= 0xDBFF then
        var w :- EscapeValue(s[6..]);
        if 0xDC00 <= w <= 0xDFFF then
          var rest :- Unescape(s[12..]);
          Some(Utf8.EncodeCodePoint((u - 0xD800) * 1024 + (w - 0xDC00) + 0x10000).value + rest)
        else None
      else if 0xDC00 <= u <= 0xDFFF || u == 0 then None
      else
        var rest :- Unescape(s[6..]);
        BmpIsShort(u);
        Some(Utf8.EncodeCodePoint(u).value + rest)
    else if |s| >= 2 && IsShortEscape(s[1]) then
      var rest :- Unescape(s[2..]);
      Some([ShortEscapeValue(s[1])] + rest)
    else None
  }

  lemma BmpIsShort(u: nat)
    requires u < 0x10000
    ensures |Utf8.EncodeCodePoint(u).value| <= 3
  {
  }

  function LexString(v: seq<byte>, p: nat): (r: Lexed)
    requires p <= |v|
    ensures !r.token.TInvalid? ==> p < r.at <= |v|
  {
    match StringEnd(v, p)
    case None => Lexed(TInvalid, p)
    case Some(q) =>
      match Unescape(v[p..q])
      case None => Lexed(TInvalid, p)
      case Some(t) => Lexed(TString(t), q + 1)
  }

  function Word(s: seq<byte>): Token {
    if s == [116, 114, 117, 101] then TTrue
    else if s == [102, 97, 108, 115, 101] then TFalse
    else if s == [110, 117, 108, 108] then TNull
    else TInvalid
  }

  /** lex_scan. */
  function Lex(v: seq<byte>, bad: bool, p: nat): (r: Lexed)
    requires p <= |v|
    ensures !r.token.TInvalid? && !r.token.TEof? ==> p < r.at <= |v|
    ensures r.token.TEof? ==> r.at == |v|
  {
    var q := SkipBlanks(v, p);
    if q == |v| then Lexed(if bad then TInvalid else TEof, q)
    else
      var c := v[q];
      if IsPunct(c) then Lexed(TPunct(c), q + 1)
      else if c == 34 then LexString(v, q + 1)
      else if IsDigit(c) || c == 45 then LexNumber(v, bad, q)
      else if IsAlpha(c) then
        var e := SkipAlphas(v, q);
        Lexed(Word(v[q..e]), PutBack(v, e))
      else Lexed(TInvalid, q)
  }

  datatype Parsed<+T> = NoParse | Parsed(value: T, at: nat)

  /** parse_value, with `t` the current token and `p` the position after it. */
  function ParseValue(v: seq<byte>, bad: bool, t: Token, p: nat): (r: Parsed<Json>)
    requires p <= |v|
    ensures r.Parsed? ==> p <= r.at <= |v|
    decreases |v| - p, 1
  {
    match t
    case TString(s) => Parsed(Str(s), p)
    case TInteger(i) => Parsed(Int(i), p)
    case TTrue => Parsed(True, p)
    case TFalse => Parsed(False, p)
    case TNull => Parsed(Null, p)
    case TPunct(c) =>
      if c == 123 then ParseObject(v, bad, p)
      else if c == 91 then ParseArray(v, bad, p)
      else NoParse
    case _ => NoParse
  }

  function ParseArray(v: seq<byte>, bad: bool, p: nat): (r: Parsed<Json>)
    requires p <= |v|
    ensures r.Parsed? ==> p <= r.at <= |v|
    decreases |v| - p, 0
  {
    var l := Lex(v, bad, p);
    if l.token == TPunct(93) then Parsed(Arr([]), l.at)
    else if l.token.TInvalid? || l.token.TEof? then NoParse
    else ParseItems(v, bad, l.token, l.at, [])
  }

  /** The loop of parse_array. */
  function ParseItems(v: seq<byte>, bad: bool, t: Token, p: nat, vs: seq<Json>): (r: Parsed<Json>)
    requires p <= |v|
    ensures r.Parsed? ==> p <= r.at <= |v|
    decreases |v| - p, 2
  {
    match ParseValue(v, bad, t, p)
    case NoParse => NoParse
    case Parsed(x, q) =>
      var l := Lex(v, bad, q);
      if l.token == TPunct(93) then Parsed(Arr(vs + [x]), l.at)
      else if l.token != TPunct(44) then NoParse
      else
        var n := Lex(v, bad, l.at);
        if n.token.TInvalid? || n.token.TEof? then NoParse
        else ParseItems(v, bad, n.token, n.at, vs + [x])
  }

  function ParseObject(v: seq<byte>, bad: bool, p: nat): (r: Parsed<Json>)
    requires p <= |v|
    ensures r.Parsed? ==> p <= r.at <= |v|
    decreases |v| - p, 0
  {
    var l := Lex(v, bad, p);
    if l.token == TPunct(125) then Parsed(Obj([]), l.at)
    else if l.token.TInvalid? || l.token.TEof? then NoParse
    else ParseMembers(v, bad, l.token, l.at, [])
  }

  /** The loop of parse_object. */
  function ParseMembers(v: seq<byte>, bad: bool, t: Token, p: nat, es: seq<Entry>): (r: Parsed<Json>)
    requires p <= |v|
    ensures r.Parsed? ==> p <= r.at <= |v|
    decreases |v| - p, 2
  {
    if !t.TString? then NoParse
    else
      var colon := Lex(v, bad, p);
      if colon.token != TPunct(58) then NoParse
      else
        var first := Lex(v, bad, colon.at);
        if first.token.TInvalid? || first.token.TEof? then NoParse
        else match ParseValue(v, bad, first.token, first.at)
          case NoParse => NoParse
          case Parsed(x, q) =>
            var es' := Put(es, t.text, x);
            var l := Lex(v, bad, q);
            if l.token == TPunct(125) then Parsed(Obj(es'), l.at)
            else if l.token != TPunct(44) then NoParse
            else
              var n := Lex(v, bad, l.at);
              if n.token.TInvalid? || n.token.TEof? then NoParse
              else ParseMembers(v, bad, n.token, n.at, es')
  }

  /** parse_json without JSON_DECODE_ANY and JSON_DISABLE_EOF_CHECK. */
  function ParseText(v: seq<byte>, bad: bool): Option<Json> {
    var l := Lex(v, bad, 0);
    if l.token != TPunct(91) && l.token != TPunct(123) then None
    else match ParseValue(v, bad, l.token, l.at)
      case NoParse => None
      case Parsed(x, q) => if Lex(v, bad, q).token.TEof? then Some(x) else None
  }

  /** The length of the part of `s` that the byte stream lets through: its complete UTF-8 sequences. */
  function Clean(s: seq<byte>): (n: nat)
    ensures n <= |s|
    ensures n == |s| <==> Utf8.IsUtf8(s)
  {
    if s == [] then 0
    else match Utf8.Head(s)
      case None => 0
      case Some(h) => h.1 + Clean(s[h.1..])
  }

  /** json_loadb. */
  function Load(s: seq<byte>): Option<Json> {
    ParseText(s[..Clean(s)], Clean(s) < |s|)
  }

  // ---------- a NUL that is lost ----------

  /** [1, a NUL, and the closing bracket. */
  const NUL_INSIDE: seq<byte> := [91, 49, 0, 93]

  lemma NulTokens()
    ensures var v := NUL_INSIDE;
      && Lex(v, false, 0) == Lexed(TPunct(91), 1) && Lex(v, false, 1) == Lexed(TInteger(1), 3)
      && Lex(v, false, 3) == Lexed(TPunct(93), 4) && Lex(v, false, 4) == Lexed(TEof, 4)
  {
    var v := NUL_INSIDE;
    assert SkipDigits(v, 2) == 2 && SkipDigits(v, 1) == 2;
    assert v[1..2] == [49];
    assert DigitsValue([49]) == 1 by { assert [49][..0] == []; }
  }

  /** A number with a NUL behind it is read as if the NUL were not there. */
  lemma NulIsLost()
    ensures Load(NUL_INSIDE) == Some(Arr([Int(1)]))
  {
    hide Lex, Clean, ParseObject, ParseMembers;
    var v := NUL_INSIDE;
    NulIsText();
    assert v[..4] == v;
    NulTokens();
    assert [] + [Int(1)] == [Int(1)];
    assert ParseValue(v, false, TInteger(1), 3) == Parsed(Int(1), 3);
    assert ParseItems(v, false, TInteger(1), 3, []) == Parsed(Arr([Int(1)]), 4);
    assert ParseArray(v, false, 1) == Parsed(Arr([Int(1)]), 4);
  }

  lemma NulIsText()
    ensures Clean(NUL_INSIDE) == 4
  {
    var v := NUL_INSIDE;
    assert Utf8.Head(v) == Some((91, 1)) && Utf8.Head(v[1..]) == Some((49, 1));
    assert Utf8.Head(v[2..]) == Some((0, 1)) && Utf8.Head(v[3..]) == Some((93, 1));
    assert v[1..][1..] == v[2..] && v[2..][1..] == v[3..] && v[3..][1..] == [];
    assert Clean(v[3..]) == 1 && Clean(v[2..]) == 2 && Clean(v[1..]) == 3;
  }
}
