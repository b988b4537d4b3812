/**
  The JSON lexer and parser as they work (deps/jansson/src/load.c:226-856), reading the byte stream and
  keeping the text of the current token; each method does what the function of module JsonLoad says.
 */
module JsonReader {
  import opened Bytes
  import opened JsonValues
  import opened JsonLoad
  import opened JsonStream
  import Utf8

  /** strtoll over the saved text of an integer. */
  function IntegerOf(s: seq<byte>): Option<int>
    requires s != [] && (forall i :: 1 <= i < |s| ==> IsDigit(s[i])) && (s[0] == 45 || IsDigit(s[0]))
  {
    var n := if s[0] == 45 then 0 - DigitsValue(s[1..]) else DigitsValue(s);
    if -(TWO63 as int) <= n < TWO63 then Some(n) else None
  }

  class Lexer {
    const stream: Stream
    var saved: seq<byte>
    var token: Token

    constructor (data: seq<byte>)
      ensures stream.Valid() && stream.data == data && stream.p == 0 && fresh(stream)
    {
      stream := new Stream(data);
      saved, token := [], TInvalid;
    }

    /** The byte at `q`, or the sentinel there, was just read as `c`. */
    ghost predicate Ahead(q: nat, c: int)
      reads stream
    {
      var v := stream.Text();
      && stream.Valid() && q <= |v| && c == Delivered(v, stream.Bad(), q)
      && (if q < |v| then stream.p == q + 1 && stream.CanUnget() else stream.p == q)
    }

    /** lex_get_save. */
    method GetSave() returns (c: int)
      requires stream.Valid()
      modifies this`saved, stream
      ensures Ahead(old(stream.p), c)
      ensures saved == old(saved) + stream.Text()[old(stream.p)..stream.p]
      ensures (c == EOF || c == ERROR) <==> old(stream.p) == |stream.Text()|
    {
      hide Stream.Valid, Clean;
      c := stream.Get();
      if c != EOF && c != ERROR {
        saved := saved + [if c < 0 then c + 0x100 else c];
      }
    }

    /** lex_unget_unsave. */
    method UngetUnsave(c: int, ghost q: nat)
      requires Ahead(q, c) && (q < |stream.Text()| ==> saved != [])
      modifies this`saved, stream
      ensures stream.Valid() && stream.p == PutBack(stream.Text(), q)
      ensures saved == if q < |stream.Text()| then old(saved)[..|old(saved)| - 1] else old(saved)
    {
      SentinelOnlyAtEnd(stream.data, q);
      if c != EOF && c != ERROR {
        stream.Unget(c);
        saved := saved[..|saved| - 1];
      }
    }

    /** The bytes from `p0` on are saved, up to the one at `q`, just read as `c`. */
    ghost predicate Saving(p0: nat, q: nat, c: int)
      reads this`saved, stream
    {
      Ahead(q, c) && p0 <= q && saved == stream.Text()[p0..stream.p]
    }

    lemma SavingMeans(p0: nat, q: nat, c: int)
      requires Saving(p0, q, c)
      ensures p0 <= q <= |stream.Text()| && c == Delivered(stream.Text(), stream.Bad(), q)
    {
      hide Stream.Valid, Stream.CanUnget, Clean;
    }

    method SaveMore(c0: int, ghost p0: nat, ghost q: nat) returns (c: int)
      requires Saving(p0, q, c0) && q < |stream.Text()|
      modifies this`saved, stream
      ensures Saving(p0, q + 1, c)
    {
      hide Stream.Valid, Stream.CanUnget, Clean;
      ghost var v := stream.Text();
      c := GetSave();
      assert v[p0..q + 1] + v[q + 1..stream.p] == v[p0..stream.p];
    }

    method PutAway(c: int, ghost p0: nat, ghost q: nat)
      requires Saving(p0, q, c)
      modifies this`saved, stream
      ensures stream.Valid() && stream.p == PutBack(stream.Text(), q) && saved == stream.Text()[p0..q]
    {
      hide Stream.Valid, Stream.CanUnget, Clean;
      UngetUnsave(c, q);
    }

    /** lex_get_save while the bytes are digits. */
    method SaveDigits(c0: int, ghost p0: nat, ghost q: nat) returns (c: int)
      requires Saving(p0, q, c0)
      modifies this`saved, stream
      ensures q <= |stream.Text()| && Saving(p0, SkipDigits(stream.Text(), q), c)
    {
      hide Stream.Valid, Stream.Text, Stream.Bad, Clean, Lexer.Saving;
      c := c0;
      SavingMeans(p0, q, c);
      ghost var v, i := stream.Text(), q;
      while IsDigit(c)
        invariant q <= i <= |v| && Saving(p0, i, c) && c == Delivered(v, stream.Bad(), i) && SkipDigits(v, i) == SkipDigits(v, q)
        decreases |v| - i
      {
        c := SaveMore(c, p0, i);
        i := i + 1;
        SavingMeans(p0, i, c);
      }
    }

    /** lex_scan_number, with the first byte already read. */
    method ScanNumber(c0: int, ghost p0: nat)
      requires Saving(p0, p0, c0) && (c0 == 45 || IsDigit(c0))
      modifies this, stream
      ensures stream.Valid() && p0 < |stream.Text()|
      ensures var l := LexNumber(stream.Text(), stream.Bad(), p0); token == l.token && (!token.TInvalid? ==> stream.p == l.at)
    {
      hide Stream.Valid, Stream.Text, Stream.Bad, Clean, Lexer.Saving, SkipDigits, LexReal, IntegerOf, DigitsValue, PutBack;
      token := TInvalid;
      var c := c0;
      SavingMeans(p0, p0, c);
      ghost var v, q := stream.Text(), p0;
      if c == 45 {
        c := SaveMore(c, p0, p0);
        q := p0 + 1;
        SavingMeans(p0, q, c);
      }
      var ok;
      ghost var e;
      ok, c, e := ScanWhole(c, p0, q);
      if !ok {
        return;
      }
      SavingMeans(p0, e, c);
      if c != 46 && c != 69 && c != 101 {
        FinishInteger(c, p0, q, e);
        return;
      }
      ScanReal(c, p0, e);
    }

    /** The digits of a whole number: a zero, or a digit that is no zero and any digits. */
    method ScanWhole(c0: int, ghost p0: nat, ghost q: nat) returns (ok: bool, c: int, ghost e: nat)
      requires Saving(p0, q, c0)
      modifies this`saved, stream
      ensures stream.Valid() && q <= |stream.Text()|
      ensures var v, bad := stream.Text(), stream.Bad();
        && ok == (IsDigit(CharAt(v, bad, q)) && !(v[q] == 48 && IsDigit(CharAt(v, bad, q + 1))))
        && (ok ==> e == (if v[q] == 48 then q + 1 else SkipDigits(v, q)) && q < e <= |v| && Saving(p0, e, c))
    {
      hide Stream.Valid, Stream.Text, Stream.Bad, Clean, Lexer.Saving, SkipDigits, PutBack;
      c := c0;
      SavingMeans(p0, q, c);
      if c == 48 {
        c := SaveMore(c, p0, q);
        e := q + 1;
        SavingMeans(p0, e, c);
        if IsDigit(c) {
          PutAway(c, p0, e);
          return false, c, e;
        }
        ok := true;
        ValidAhead(p0, e, c);
      } else {
        ok, c, e := ScanFirstDigit(c, p0, q);
      }
    }

    /** The number is an integer, if its value fits 64 bits. */
    method FinishInteger(c: int, ghost p0: nat, ghost q: nat, ghost e: nat)
      requires Saving(p0, e, c) && token == TInvalid && p0 <= q < e <= |stream.Text()|
      requires var v := stream.Text(); (if v[p0] == 45 then q == p0 + 1 else q == p0) && forall i :: q <= i < e ==> IsDigit(v[i])
      modifies this, stream
      ensures stream.Valid() && stream.p == PutBack(stream.Text(), e)
      ensures var v := stream.Text(); var n := DigitsValue(v[q..e]); var i := if v[p0] == 45 then 0 - n else n;
        token == if -(TWO63 as int) <= i < TWO63 then TInteger(i) else TInvalid
    {
      hide Stream.Valid, Stream.Text, Stream.Bad, Clean, Lexer.Saving, IntegerOf, DigitsValue, PutBack;
      NumberText(stream.Text(), p0, q, e);
      PutAway(c, p0, e);
      var value := IntegerOf(saved);
      if value.None? {
        return;
      }
      token := TInteger(value.value);
    }

    /** The fraction and the exponent. */
    method ScanReal(c0: int, ghost p0: nat, ghost e: nat)
      requires Saving(p0, e, c0) && (c0 == 46 || c0 == 69 || c0 == 101) && token == TInvalid
      modifies this, stream
      ensures stream.Valid() && e < |stream.Text()|
      ensures var l := LexReal(stream.Text(), stream.Bad(), e); token == l.token && (!token.TInvalid? ==> stream.p == l.at)
    {
      hide Stream.Valid, Stream.Text, Stream.Bad, Clean, Lexer.Saving, SkipDigits, PutBack;
      var ok, c := true, c0;
      SavingMeans(p0, e, c);
      ghost var f := e;
      if c == 46 {
        ok, c, f := ScanDigits(c, p0, e, e + 1);
        if !ok {
          return;
        }
        SavingMeans(p0, f, c);
      }
      if c == 69 || c == 101 {
        ok, c, f := ScanExponent(c, p0, f);
        if !ok {
          return;
        }
      }
      PutAway(c, p0, f);
      token := TReal;
    }

    /** After the byte at `q` there must be a digit, and then there may be more. */
    method ScanDigits(c0: int, ghost p0: nat, ghost q: nat, ghost x: nat) returns (ok: bool, c: int, ghost f: nat)
      requires Saving(p0, q, c0) && q < |stream.Text()| && x == q + 1
      modifies this`saved, stream
      ensures stream.Valid() && ok == IsDigit(CharAt(stream.Text(), stream.Bad(), x))
      ensures ok ==> x < |stream.Text()| && f == SkipDigits(stream.Text(), x) && x < f && Saving(p0, f, c)
    {
      hide Stream.Valid, Stream.Text, Stream.Bad, Clean, Lexer.Saving, SkipDigits, PutBack;
      c := SaveMore(c0, p0, q);
      ok, c, f := ScanFirstDigit(c, p0, x);
    }

    /** Where the digits of an exponent marked at `f` are to start. */
    ghost function ExponentStart(f: nat): nat
    {
      var c := CharAt(stream.Text(), stream.Bad(), f + 1);
      if c == 43 || c == 45 then f + 2 else f + 1
    }

    method ScanExponent(c0: int, ghost p0: nat, ghost f: nat) returns (ok: bool, c: int, ghost x: nat)
      requires Saving(p0, f, c0) && (c0 == 69 || c0 == 101)
      modifies this`saved, stream
      ensures stream.Valid() && ok == IsDigit(CharAt(stream.Text(), stream.Bad(), ExponentStart(f)))
      ensures ok ==> ExponentStart(f) <= |stream.Text()| && x == SkipDigits(stream.Text(), ExponentStart(f)) && Saving(p0, x, c)
    {
      hide Stream.Valid, Stream.Text, Stream.Bad, Clean, Lexer.Saving, SkipDigits, PutBack;
      SavingMeans(p0, f, c0);
      c := SaveMore(c0, p0, f);
      SavingMeans(p0, f + 1, c);
      if c == 43 || c == 45 {
        ok, c, x := ScanDigits(c, p0, f + 1, f + 2);
      } else {
        ok, c, x := ScanFirstDigit(c, p0, f + 1);
      }
    }

    /** The byte at `x`, just read, must be a digit, and then there may be more. */
    method ScanFirstDigit(c0: int, ghost p0: nat, ghost x: nat) returns (ok: bool, c: int, ghost f: nat)
      requires Saving(p0, x, c0)
      modifies this`saved, stream
      ensures stream.Valid() && ok == IsDigit(CharAt(stream.Text(), stream.Bad(), x))
      ensures ok ==> x < |stream.Text()| && f == SkipDigits(stream.Text(), x) && x < f && Saving(p0, f, c)
    {
      hide Stream.Valid, Stream.Text, Stream.Bad, Clean, Lexer.Saving, SkipDigits, PutBack;
      ghost var v := stream.Text();
      c := c0;
      SavingMeans(p0, x, c);
      if !IsDigit(c) {
        PutAway(c, p0, x);
        return false, c, 0;
      }
      c := SaveMore(c, p0, x);
      OneDigit(v, x);
      c := SaveDigits(c, p0, x + 1);
      f := SkipDigits(v, x);
      ok := true;
      ValidAhead(p0, f, c);
    }

    lemma ValidAhead(p0: nat, q: nat, c: int)
      requires Saving(p0, q, c)
      ensures stream.Valid()
    {
      hide Stream.Valid, Stream.CanUnget, Clean;
    }

    /** The four digits after `\u`, the first of which, at `x`, was just read. */
    method SkipFourHex(c0: int, ghost q0: nat, ghost x: nat) returns (ok: bool, c: int)
      requires Saving(q0, x, c0)
      modifies this`saved, stream
      ensures stream.Valid() && ok == FourHex(stream.Text(), x)
      ensures ok ==> Saving(q0, x + 4, c)
    {
      hide Stream.Valid, Stream.Text, Stream.Bad, Clean, Lexer.Saving;
      c := c0;
      ghost var v := stream.Text();
      SavingMeans(q0, x, c);
      ValidAhead(q0, x, c);
      var i := 0;
      while i < 4
        invariant i <= 4 && x + i <= |v| && Saving(q0, x + i, c) && stream.Valid()
        invariant c == Delivered(v, stream.Bad(), x + i) && forall k :: x <= k < x + i ==> IsHex(v[k])
      {
        if !IsHex(c) {
          return false, c;
        }
        c := SaveMore(c, q0, x + i);
        i := i + 1;
        SavingMeans(q0, x + i, c);
        ValidAhead(q0, x + i, c);
      }
      return true, c;
    }

    /** The first loop of lex_scan_string: on to the closing quote, from the opening one at `q0`. */
    method FindQuote(ghost q0: nat) returns (ok: bool, ghost q: nat)
      requires stream.Valid() && q0 < |stream.Text()| && stream.p == q0 + 1 && saved == stream.Text()[q0..q0 + 1]
      modifies this`saved, stream
      ensures stream.Valid() && ok == StringEnd(stream.Text(), q0 + 1).Some?
      ensures ok ==> StringEnd(stream.Text(), q0 + 1) == Some(q) && saved == stream.Text()[q0..q + 1] && stream.p == q + 1
    {
      hide Stream.Valid, Stream.Text, Stream.Bad, Clean, Lexer.Saving, StringEnd;
      ghost var v := stream.Text();
      var c := FirstSave(q0);
      q := q0 + 1;
      while c != 34
        invariant q0 < q <= |v| && Saving(q0, q, c) && c == Delivered(v, stream.Bad(), q)
        invariant StringEnd(v, q) == StringEnd(v, q0 + 1)
        decreases |v| - q
      {
        StringStep(v, q);
        ValidAhead(q0, q, c);
        if c == ERROR || c == EOF {
          SentinelAt(q0, q, c);
          return false, q;
        }
        if 0 <= c <= 0x1F {
          PutAway(c, q0, q);
          return false, q;
        }
        if c == 92 {
          c := SaveMore(c, q0, q);
          SavingMeans(q0, q + 1, c);
          ValidAhead(q0, q + 1, c);
          if c == 117 {
            c := SaveMore(c, q0, q + 1);
            var four;
            four, c := SkipFourHex(c, q0, q + 2);
            if !four {
              return false, q;
            }
            q := q + 6;
          } else if IsShortEscape(c) {
            c := SaveMore(c, q0, q + 1);
            q := q + 2;
          } else {
            return false, q;
          }
        } else {
          c := SaveMore(c, q0, q);
          q := q + 1;
        }
        SavingMeans(q0, q, c);
      }
      StringStep(v, q);
      ok := true;
      SavedAll(q0, q, c);
    }

    /** The byte after the opening quote. */
    method FirstSave(ghost q0: nat) returns (c: int)
      requires stream.Valid() && q0 < |stream.Text()| && stream.p == q0 + 1 && saved == stream.Text()[q0..q0 + 1]
      modifies this`saved, stream
      ensures Saving(q0, q0 + 1, c) && q0 + 1 <= |stream.Text()| && c == Delivered(stream.Text(), stream.Bad(), q0 + 1)
    {
      hide Stream.Valid, Stream.CanUnget, Clean;
      ghost var v := stream.Text();
      c := GetSave();
      assert v[q0..q0 + 1] + v[q0 + 1..stream.p] == v[q0..stream.p];
    }

    lemma SentinelAt(q0: nat, q: nat, c: int)
      requires Saving(q0, q, c)
      ensures c == EOF || c == ERROR <==> q == |stream.Text()|
    {
      hide Stream.Valid, Stream.CanUnget, Clean;
      SentinelOnlyAtEnd(stream.data, q);
    }

    lemma SavedAll(q0: nat, q: nat, c: int)
      requires Saving(q0, q, c) && q < |stream.Text()|
      ensures stream.Valid() && saved == stream.Text()[q0..q + 1] && stream.p == q + 1
    {
      hide Stream.Valid, Stream.CanUnget, Clean;
    }

    /** lex_scan_string, after the opening quote at `q0`. */
    method ScanString(ghost q0: nat)
      requires stream.Valid() && q0 < |stream.Text()| && stream.p == q0 + 1 && saved == stream.Text()[q0..q0 + 1]
      modifies this, stream
      ensures stream.Valid()
      ensures var l := LexString(stream.Text(), q0 + 1); token == l.token && (!token.TInvalid? ==> stream.p == l.at)
    {
      hide Stream.Valid, Stream.Text, Stream.Bad, Clean, StringEnd, Unescape;
      token := TInvalid;
      ghost var v := stream.Text();
      var ok;
      ghost var q;
      ok, q := FindQuote(q0);
      if !ok {
        return;
      }
      StringEndOfPart(v, q0 + 1, q0, q);
      var text := DecodeText(saved);
      assert saved[1..|saved| - 1] == v[q0 + 1..q];
      if text.None? {
        return;
      }
      token := TString(text.value);
    }

    /** The white space before a token; the byte after it is read. */
    method SkipSpace() returns (c: int, ghost q: nat)
      requires stream.Valid()
      modifies this`saved, stream
      ensures old(stream.p) <= |stream.Text()| && q == SkipBlanks(stream.Text(), old(stream.p)) && Ahead(q, c) && saved == []
      ensures q == |stream.Text()| <==> c == EOF || c == ERROR
    {
      hide Stream.Valid, Clean;
      saved := [];
      ghost var v, p0 := stream.Text(), stream.p;
      c := stream.Get();
      q := p0;
      while IsBlank(c)
        invariant p0 <= q <= |v| && Ahead(q, c) && SkipBlanks(v, q) == SkipBlanks(v, p0) && saved == []
        invariant q == |v| <==> c == EOF || c == ERROR
        decreases |v| - q
      {
        c := stream.Get();
        q := q + 1;
      }
    }

    /** lex_save of the byte just read. */
    method Save(c: int, ghost q: nat)
      requires Ahead(q, c) && saved == [] && q < |stream.Text()|
      modifies this`saved
      ensures Saving(q, q, c) && saved == stream.Text()[q..q + 1] && stream.Valid() && stream.p == q + 1 && stream.CanUnget()
    {
      hide Stream.Valid, Stream.CanUnget, Clean;
      saved := saved + [if c < 0 then c + 0x100 else c];
    }

    /** lex_scan. */
    method Scan()
      requires stream.Valid()
      modifies this, stream
      ensures stream.Valid() && old(stream.p) <= |stream.Text()|
      ensures var l := Lex(stream.Text(), stream.Bad(), old(stream.p)); token == l.token && (!token.TInvalid? ==> stream.p == l.at)
    {
      hide Stream.Valid, Stream.Text, Stream.Bad, Stream.CanUnget, Clean, Lexer.Saving, LexString, LexNumber, SkipBlanks, SkipAlphas, Word, PutBack;
      ghost var v := stream.Text();
      var c;
      ghost var q;
      c, q := SkipSpace();
      AheadMeans(q, c);
      if c == EOF {
        token := TEof;
        return;
      }
      if c == ERROR {
        token := TInvalid;
        return;
      }
      Save(c, q);
      if c == 123 || c == 125 || c == 91 || c == 93 || c == 58 || c == 44 {
        token := TPunct(c);
      } else if c == 34 {
        ScanString(q);
      } else if IsDigit(c) || c == 45 {
        ScanNumber(c, q);
      } else if IsAlpha(c) {
        ScanWord(c, q);
      } else {
        SaveCached();
        token := TInvalid;
      }
    }

    lemma AheadMeans(q: nat, c: int)
      requires Ahead(q, c)
      ensures stream.Valid() && q <= |stream.Text()| && c == Delivered(stream.Text(), stream.Bad(), q)
      ensures c == EOF || c == ERROR <==> q == |stream.Text()|
      ensures q == |stream.Text()| ==> stream.p == q && (c == ERROR <==> stream.Bad())
    {
      hide Stream.Valid, Stream.CanUnget, Clean;
      SentinelOnlyAtEnd(stream.data, q);
    }

    /** A word of letters. */
    method ScanWord(c0: int, ghost q: nat)
      requires Saving(q, q, c0) && IsAlpha(c0)
      modifies this, stream
      ensures stream.Valid() && q <= |stream.Text()|
      ensures var e := SkipAlphas(stream.Text(), q); token == Word(stream.Text()[q..e]) && stream.p == PutBack(stream.Text(), e)
    {
      hide Stream.Valid, Stream.Text, Stream.Bad, Clean, Lexer.Saving, PutBack;
      ghost var v, i := stream.Text(), q;
      var c := c0;
      SavingMeans(q, q, c);
      while IsAlpha(c)
        invariant q <= i <= |v| && Saving(q, i, c) && c == Delivered(v, stream.Bad(), i) && SkipAlphas(v, i) == SkipAlphas(v, q)
        decreases |v| - i
      {
        c := SaveMore(c, q, i);
        i := i + 1;
        SavingMeans(q, i, c);
      }
      PutAway(c, q, i);
      if saved == [116, 114, 117, 101] {
        token := TTrue;
      } else if saved == [102, 97, 108, 115, 101] {
        token := TFalse;
      } else if saved == [110, 117, 108, 108] {
        token := TNull;
      } else {
        token := TInvalid;
      }
    }

    /** lex_save_cached: the rest of the buffered sequence is saved, for the error message. */
    method SaveCached()
      requires stream.Valid() && stream.CanUnget()
      modifies this`saved, stream
      ensures stream.Valid()
    {
      var rest := stream.Drain();
      saved := saved + rest;
    }

    /** The outcome `r` of parsing agrees with `x`, which also tells where reading goes on. */
    ghost predicate Agrees(r: Option<Json>, x: Parsed<Json>)
      reads stream
    {
      r.Some? == x.Parsed? && (r.Some? ==> r.value == x.value && stream.p == x.at)
    }

    lemma InText()
      requires stream.Valid()
      ensures stream.p <= |stream.Text()|
    {
    }

    /** What is left to read, one more when there is a token to look at. */
    ghost function Left(t: Token): nat
      reads stream
      requires stream.Valid()
    {
      if t.TInvalid? then 0 else |stream.Text()| - stream.p + 1
    }

    /** parse_value. */
    method ReadValue() returns (r: Option<Json>)
      requires stream.Valid()
      modifies this, stream
      ensures stream.Valid() && old(stream.p) <= |stream.Text()|
      ensures Agrees(r, ParseValue(stream.Text(), stream.Bad(), old(token), old(stream.p)))
      decreases Left(token), 1
    {
      hide Stream.Valid, Stream.Text, Stream.Bad, Clean, ParseObject, ParseArray;
      InText();
      match token {
        case TString(s) => r := Some(Str(s));
        case TInteger(i) => r := Some(Int(i));
        case TTrue => r := Some(True);
        case TFalse => r := Some(False);
        case TNull => r := Some(Null);
        case TPunct(c) =>
          if c == 123 {
            r := ReadObject();
          } else if c == 91 {
            r := ReadArray();
          } else {
            r := None;
          }
        case TReal => r := None;
        case TInvalid => r := None;
        case TEof => r := None;
      }
    }

    /** parse_array, after the opening bracket. */
    method ReadArray() returns (r: Option<Json>)
      requires stream.Valid()
      modifies this, stream
      ensures stream.Valid() && old(stream.p) <= |stream.Text()|
      ensures Agrees(r, ParseArray(stream.Text(), stream.Bad(), old(stream.p)))
      decreases Left(TEof), 0
    {
      hide Stream.Valid, Stream.Text, Stream.Bad, Clean, Lex, ParseValue, ParseItems;
      ghost var v, bad, p0 := stream.Text(), stream.Bad(), stream.p;
      InText();
      Scan();
      LexGoesOn(v, bad, p0);
      InText();
      if token == TPunct(93) {
        return Some(Arr([]));
      }
      var items: seq<Json> := [];
      while !token.TEof?
        invariant stream.Valid() && p0 <= |v| && stream.p <= |v|
        invariant ParseArray(v, bad, p0) == if token.TInvalid? || token.TEof? then NoParse else ParseItems(v, bad, token, stream.p, items)
        invariant token.TInvalid? || token.TEof? || p0 < stream.p
        decreases if token.TInvalid? then 0 else |v| - stream.p + 1
      {
        ghost var t, p := token, stream.p;
        ItemsStep(v, bad, t, p, items);
        var elem := ReadValue();
        if elem.None? {
          return None;
        }
        items := items + [elem.value];
        ghost var q := stream.p;
        InText();
        Scan();
        LexGoesOn(v, bad, q);
        InText();
        if token != TPunct(44) {
          break;
        }
        ghost var q1 := stream.p;
        Scan();
        LexGoesOn(v, bad, q1);
        InText();
      }
      if token != TPunct(93) {
        return None;
      }
      return Some(Arr(items));
    }

    /** parse_object, after the opening brace. */
    method ReadObject() returns (r: Option<Json>)
      requires stream.Valid()
      modifies this, stream
      ensures stream.Valid() && old(stream.p) <= |stream.Text()|
      ensures Agrees(r, ParseObject(stream.Text(), stream.Bad(), old(stream.p)))
      decreases Left(TEof), 0
    {
      hide Stream.Valid, Stream.Text, Stream.Bad, Clean, Lex, ParseValue, ParseMembers;
      ghost var v, bad, p0 := stream.Text(), stream.Bad(), stream.p;
      InText();
      Scan();
      LexGoesOn(v, bad, p0);
      InText();
      if token == TPunct(125) {
        return Some(Obj([]));
      }
      var fields: seq<Entry> := [];
      while true
        invariant stream.Valid() && p0 <= |v| && stream.p <= |v|
        invariant ParseObject(v, bad, p0) == if token.TInvalid? || token.TEof? then NoParse else ParseMembers(v, bad, token, stream.p, fields)
        invariant token.TInvalid? || token.TEof? || p0 < stream.p
        decreases if token.TInvalid? then 0 else |v| - stream.p + 1
      {
        if !token.TString? {
          MembersStep(v, bad, token, stream.p, fields);
          return None;
        }
        var key := token.text;
        ghost var p := stream.p;
        MembersStep(v, bad, token, p, fields);
        Scan();
        LexGoesOn(v, bad, p);
        InText();
        if token != TPunct(58) {
          return None;
        }
        ghost var q := stream.p;
        Scan();
        LexGoesOn(v, bad, q);
        InText();
        NoValue(v, bad, token, stream.p);
        var value := ReadValue();
        if value.None? {
          return None;
        }
        fields := Put(fields, key, value.value);
        ghost var q1 := stream.p;
        InText();
        Scan();
        LexGoesOn(v, bad, q1);
        InText();
        if token != TPunct(44) {
          break;
        }
        ghost var q2 := stream.p;
        Scan();
        LexGoesOn(v, bad, q2);
        InText();
      }
      if token != TPunct(125) {
        return None;
      }
      return Some(Obj(fields));
    }

    /** parse_json. */
    method ReadJson() returns (r: Option<Json>)
      requires stream.Valid() && stream.p == 0
      modifies this, stream
      ensures r == ParseText(stream.Text(), stream.Bad())
    {
      hide Stream.Valid, Stream.Text, Stream.Bad, Clean, Lex, ParseValue;
      ghost var v, bad := stream.Text(), stream.Bad();
      Scan();
      InText();
      if token != TPunct(91) && token != TPunct(123) {
        return None;
      }
      var result := ReadValue();
      if result.None? {
        return None;
      }
      InText();
      Scan();
      if !token.TEof? {
        return None;
      }
      return result;
    }
  }

  /** json_loadb: the lexer and the parser over the bytes give what the function says. */
  method LoadBytes(data: seq<byte>) returns (r: Option<Json>)
    ensures r == Load(data)
  {
    hide Clean, ParseText, Stream.Valid;
    var lexer := new Lexer(data);
    r := lexer.ReadJson();
  }

  lemma LexGoesOn(v: seq<byte>, bad: bool, p: nat)
    requires p <= |v|
    ensures var l := Lex(v, bad, p); !l.token.TInvalid? && !l.token.TEof? ==> p < l.at <= |v|
  {
    hide Lex;
  }

  /** What parse_array goes on with after the value `x`. */
  function AfterItem(v: seq<byte>, bad: bool, x: Json, q: nat, vs: seq<Json>): Parsed<Json>
    requires q <= |v|
  {
    var l := Lex(v, bad, q);
    if l.token == TPunct(93) then Parsed(Arr(vs + [x]), l.at)
    else if l.token != TPunct(44) then NoParse
    else
      var n := Lex(v, bad, l.at);
      if n.token.TInvalid? || n.token.TEof? then NoParse else ParseItems(v, bad, n.token, n.at, vs + [x])
  }

  lemma ItemsStep(v: seq<byte>, bad: bool, t: Token, p: nat, vs: seq<Json>)
    requires p <= |v|
    ensures var y := ParseValue(v, bad, t, p);
      ParseItems(v, bad, t, p, vs) == if y.NoParse? then NoParse else AfterItem(v, bad, y.value, y.at, vs)
    ensures t.TInvalid? || t.TEof? ==> ParseValue(v, bad, t, p) == NoParse
  {
    hide Lex, ParseObject, ParseArray;
  }

  lemma NoValue(v: seq<byte>, bad: bool, t: Token, p: nat)
    requires p <= |v|
    ensures t.TInvalid? || t.TEof? ==> ParseValue(v, bad, t, p) == NoParse
  {
    hide ParseObject, ParseArray;
  }

  /** What parse_object goes on with after the value `x`. */
  function AfterMember(v: seq<byte>, bad: bool, es: seq<Entry>, q: nat): Parsed<Json>
    requires q <= |v|
  {
    var l := Lex(v, bad, q);
    if l.token == TPunct(125) then Parsed(Obj(es), l.at)
    else if l.token != TPunct(44) then NoParse
    else
      var n := Lex(v, bad, l.at);
      if n.token.TInvalid? || n.token.TEof? then NoParse else ParseMembers(v, bad, n.token, n.at, es)
  }

  lemma MembersStep(v: seq<byte>, bad: bool, t: Token, p: nat, es: seq<Entry>)
    requires p <= |v|
    ensures !t.TString? ==> ParseMembers(v, bad, t, p, es) == NoParse
    ensures t.TString? ==>
      var colon := Lex(v, bad, p);
      if colon.token != TPunct(58) then ParseMembers(v, bad, t, p, es) == NoParse
      else
        var first := Lex(v, bad, colon.at);
        if first.token.TInvalid? || first.token.TEof? then ParseMembers(v, bad, t, p, es) == NoParse
        else
          var y := ParseValue(v, bad, first.token, first.at);
          ParseMembers(v, bad, t, p, es) == if y.NoParse? then NoParse else AfterMember(v, bad, Put(es, t.text, y.value), y.at)
  {
    hide Lex, ParseValue;
  }

  /** The search for the closing quote gives the same in a part of the text that ends with it. */
  lemma {:induction false} StringEndOfPart(v: seq<byte>, p: nat, lo: nat, q: nat)
    requires lo <= p <= |v| && StringEnd(v, p) == Some(q)
    ensures q < |v| && p <= q && StringEnd(v[lo..q + 1], p - lo) == Some(q - lo)
    decreases |v| - p
  {
    hide StringEnd;
    StringStep(v, p);
    var s := v[lo..q + 1];
    EndIsAfter(v, p);
    StringStep(s, p - lo);
    if v[p] != 34 {
      var n := if v[p] != 92 then 1 else if v[p + 1] == 117 then 6 else 2;
      EndIsAfter(v, p + n);
      StringEndOfPart(v, p + n, lo, q);
    }
  }

  lemma EndIsAfter(v: seq<byte>, p: nat)
    requires p <= |v|
    ensures StringEnd(v, p).Some? ==> p <= StringEnd(v, p).value < |v|
  {
  }

  function Prefixed(done: Text, r: Option<Text>): Option<Text> {
    match r case None => None case Some(t) => Some(done + t)
  }

  lemma PrefixedTwice(a: Text, b: Text, r: Option<Text>)
    ensures Prefixed(a, Prefixed(b, r)) == Prefixed(a + b, r)
  {
    if r.Some? {
      assert a + (b + r.value) == a + b + r.value;
    }
  }

  /** What stands at the front of text to decode, how long it is, and what it stands for. */
  datatype Front = Front(len: nat, text: Text)

  function FrontOf(s: seq<byte>): (f: Option<Front>)
    requires s != []
    ensures f.Some? ==> 0 < f.value.len <= |s| && |f.value.text| <= f.value.len
  {
    if s[0] != 92 then Some(Front(1, [s[0]]))
    else if |s| >= 2 && s[1] == 117 then
      var u :- EscapeValue(s);
      if 0xD800 <= u <= 0xDBFF then
        var w :- EscapeValue(s[6..]);
        if 0xDC00 <= w <= 0xDFFF then
          Some(Front(12, Utf8.EncodeCodePoint((u - 0xD800) * 1024 + (w - 0xDC00) + 0x10000).value))
        else None
      else if 0xDC00 <= u <= 0xDFFF || u == 0 then None
      else
        BmpIsShort(u);
        Some(Front(6, Utf8.EncodeCodePoint(u).value))
    else if |s| >= 2 && IsShortEscape(s[1]) then Some(Front(2, [ShortEscapeValue(s[1])]))
    else None
  }

  lemma UnescapeFront(s: seq<byte>)
    requires s != []
    ensures Unescape(s) == match FrontOf(s) case None => None case Some(f) => Prefixed(f.text, Unescape(s[f.len..]))
  {
    hide Utf8.EncodeCodePoint, EscapeValue;
  }

  /** decode_unicode_escape: the value of the four digits from `i` on. */
  method DecodeEscape(s: seq<byte>, i: nat) returns (value: nat)
    requires FourHex(s, i)
    ensures value == HexValue(s[i]) * 4096 + HexValue(s[i + 1]) * 256 + HexValue(s[i + 2]) * 16 + HexValue(s[i + 3]) < 0x10000
  {
    value := 0;
    var k := 0;
    while k < 4
      invariant k <= 4
      invariant value == (if k == 0 then 0 else if k == 1 then HexValue(s[i])
                          else if k == 2 then HexValue(s[i]) * 16 + HexValue(s[i + 1])
                          else if k == 3 then HexValue(s[i]) * 256 + HexValue(s[i + 1]) * 16 + HexValue(s[i + 2])
                          else HexValue(s[i]) * 4096 + HexValue(s[i + 1]) * 256 + HexValue(s[i + 2]) * 16 + HexValue(s[i + 3]))
    {
      var c := s[i + k];
      value := value * 16 + (if IsDigit(c) then c as nat - 48 else if c >= 97 then c as nat - 97 + 10 else c as nat - 65 + 10);
      k := k + 1;
    }
  }

  /** The second loop of lex_scan_string: `s` is the saved text with its quotes; what is decoded never outgrows it. */
  method DecodeText(s: seq<byte>) returns (r: Option<Text>)
    requires |s| >= 2 && StringEnd(s, 1) == Some(|s| - 1)
    ensures r == Unescape(s[1..|s| - 1])
    ensures r.Some? ==> |r.value| <= |s|
  {
    hide StringEnd, Unescape, FrontOf;
    var t: Text := [];
    var p := 1;
    ghost var n := |s| - 1;
    assert s[n] == 34 by { EndIsQuote(s); }
    assert Prefixed([], Unescape(s[1..n])) == Unescape(s[1..n]) by { PrefixedNothing(Unescape(s[1..n])); }
    while s[p] != 34
      invariant 1 <= p <= n && StringEnd(s, p) == Some(n) && |t| < p
      invariant Unescape(s[1..n]) == Prefixed(t, Unescape(s[p..n]))
      decreases n - p
    {
      StringStep(s, p);
      EndIsAfter(s, p + 1);
      UnescapeFront(s[p..n]);
      var front, len := DecodeFront(s, p);
      if front.None? {
        return None;
      }
      assert s[p..n][len..] == s[p + len..n];
      PrefixedTwice(t, front.value, Unescape(s[p + len..n]));
      t := t + front.value;
      p := p + len;
    }
    StringStep(s, p);
    assert s[p..n] == [];
    assert Prefixed(t, Unescape([])) == Some(t) by { UnescapeNothing(t); }
    return Some(t);
  }

  lemma EndIsQuote(s: seq<byte>)
    requires |s| >= 2 && StringEnd(s, 1) == Some(|s| - 1)
    ensures s[|s| - 1] == 34
  {
  }

  lemma PrefixedNothing(r: Option<Text>)
    ensures Prefixed([], r) == r
  {
    assert r.Some? ==> [] + r.value == r.value;
  }

  lemma UnescapeNothing(t: Text)
    ensures Prefixed(t, Unescape([])) == Some(t)
  {
    assert t + [] == t;
  }

  /** One character, or one escape, from `p` on. */
  method DecodeFront(s: seq<byte>, p: nat) returns (r: Option<Text>, len: nat)
    requires p < |s| - 1 && s[p] != 34 && StringEnd(s, p) == Some(|s| - 1)
    ensures var n := |s| - 1; var f := FrontOf(s[p..n]);
      && r.Some? == f.Some? && (r.Some? ==> r.value == f.value.text && len == f.value.len && p + len <= n && StringEnd(s, p + len) == Some(n))
  {
    hide StringEnd, Utf8.EncodeCodePoint;
    ghost var n := |s| - 1;
    ghost var f := s[p..n];
    StringStep(s, p);
    if s[p] != 92 {
      EndIsAfter(s, p + 1);
      return Some([s[p]]), 1;
    }
    if s[p + 1] != 117 {
      EndIsAfter(s, p + 2);
      assert f[1] == s[p + 1];
      return Some([ShortEscapeValue(s[p + 1])]), 2;
    }
    EndIsAfter(s, p + 6);
    var value := DecodeEscape(s, p + 2);
    assert EscapeValue(f) == Some(value) by { EscapeIn(s, p, n); }
    if 0xD800 <= value <= 0xDBFF {
      assert f[6..] == s[p + 6..n];
      var second := DecodeSecond(s, p + 6);
      if second.None? {
        return None, 0;
      }
      return Utf8.EncodeCodePoint((value - 0xD800) * 1024 + (second.value - 0xDC00) + 0x10000), 12;
    }
    if 0xDC00 <= value <= 0xDFFF || value == 0 {
      return None, 0;
    }
    BmpIsShort(value);
    return Utf8.EncodeCodePoint(value), 6;
  }

  /** The second half of a surrogate pair. */
  method DecodeSecond(s: seq<byte>, p: nat) returns (r: Option<nat>)
    requires p < |s| && StringEnd(s, p) == Some(|s| - 1)
    ensures var w := EscapeValue(s[p..|s| - 1]);
      && r == (if w.Some? && 0xDC00 <= w.value <= 0xDFFF then w else None)
      && (r.Some? ==> p + 6 < |s| && StringEnd(s, p + 6) == Some(|s| - 1))
  {
    hide StringEnd, EscapeValue;
    StringStep(s, p);
    if s[p] == 92 && s[p + 1] == 117 {
      EndIsAfter(s, p + 6);
      var value2 := DecodeEscape(s, p + 2);
      EscapeIn(s, p, |s| - 1);
      if 0xDC00 <= value2 <= 0xDFFF {
        return Some(value2);
      }
      return None;
    }
    NoEscapeIn(s, p, |s| - 1);
    return None;
  }

  lemma EscapeIn(s: seq<byte>, p: nat, n: nat)
    requires p + 6 <= n <= |s| && s[p] == 92 && s[p + 1] == 117 && FourHex(s, p + 2)
    ensures EscapeValue(s[p..n]) == Some(HexValue(s[p + 2]) * 4096 + HexValue(s[p + 3]) * 256 + HexValue(s[p + 4]) * 16 + HexValue(s[p + 5]))
  {
  }

  lemma NoEscapeIn(s: seq<byte>, p: nat, n: nat)
    requires p <= n < |s| && (s[p] != 92 || (p + 1 < |s| && s[p + 1] != 117))
    ensures EscapeValue(s[p..n]) == None
  {
  }

  predicate FourHex(v: seq<byte>, x: nat) {
    x + 4 <= |v| && IsHex(v[x]) && IsHex(v[x + 1]) && IsHex(v[x + 2]) && IsHex(v[x + 3])
  }

  /** One step of the search for the closing quote. */
  lemma StringStep(v: seq<byte>, p: nat)
    requires p <= |v|
    ensures StringEnd(v, p) ==
      if p == |v| then None
      else if v[p] == 34 then Some(p)
      else if v[p] <= 0x1F then None
      else if v[p] == 92 then
        if p + 1 == |v| then None
        else if v[p + 1] == 117 then (if FourHex(v, p + 2) then StringEnd(v, p + 6) else None)
        else if IsShortEscape(v[p + 1]) then StringEnd(v, p + 2)
        else None
      else StringEnd(v, p + 1)
  {
  }

  lemma OneDigit(v: seq<byte>, q: nat)
    requires q < |v| && IsDigit(v[q])
    ensures SkipDigits(v, q) == SkipDigits(v, q + 1)
  {
  }

  lemma NumberText(v: seq<byte>, p0: nat, q: nat, e: nat)
    requires p0 <= q < e <= |v| && (if v[p0] == 45 then q == p0 + 1 else q == p0) && forall i :: q <= i < e ==> IsDigit(v[i])
    ensures v[p0..e] != [] && (forall i :: 1 <= i < e - p0 ==> IsDigit(v[p0..e][i])) && (v[p0..e][0] == 45 || IsDigit(v[p0..e][0]))
    ensures var n := DigitsValue(v[q..e]); var i := if v[p0] == 45 then 0 - n else n;
      IntegerOf(v[p0..e]) == if -(TWO63 as int) <= i < TWO63 then Some(i) else None
  {
    if v[p0] == 45 {
      assert v[p0..e][1..] == v[q..e];
    }
  }

  lemma SentinelOnlyAtEnd(data: seq<byte>, q: nat)
    requires q <= Clean(data)
    ensures var c := Delivered(data[..Clean(data)], Clean(data) < |data|, q); (c == EOF || c == ERROR) <==> q == Clean(data)
  {
    if q < Clean(data) {
      CleanBytes(data, q);
    }
  }
}
