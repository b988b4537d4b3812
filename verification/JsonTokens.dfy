/** The lexer of jansson against the grammar: it reads a token exactly where one of the grammar stands. */
module JsonTokens {
  import opened Bytes
  import opened JsonValues
  import opened JsonLoad
  import opened JsonRoundTrip
  import G = JsonGrammar
  import Utf8

  function TokenOf(l: G.Leaf): Token
    requires G.GoodLeaf(l)
  {
    match l
    case StringLeaf(ps) => TString(G.PiecesValue(ps))
    case NumberLeaf(negative, ds, _) => TInteger(if negative then 0 - G.NumberOf(ds) else G.NumberOf(ds))
    case TrueLeaf(_) => TTrue
    case FalseLeaf(_) => TFalse
    case NullLeaf(_) => TNull
  }

  // ---------- bytes ----------

  lemma SameBlank(s: seq<byte>)
    ensures G.Blank(s) <==> AllBlank(s)
  {
  }

  lemma SameHex(b: byte)
    ensures G.Hexadecimal(b) <==> IsHex(b)
    ensures IsHex(b) ==> G.HexOf(b) == HexValue(b)
  {
  }

  lemma SameUnit(h: seq<byte>, rest: seq<byte>)
    requires |h| == 4
    ensures EscapeValue([92, 117] + h + rest) == if G.FourHex(h) then Some(G.UnitOf(h)) else None
  {
    hide HexValue, IsHex, G.Hexadecimal, G.HexOf;
    var s := [92, 117] + h + rest;
    assert s[0] == 92 && s[1] == 117 && s[2] == h[0] && s[3] == h[1] && s[4] == h[2] && s[5] == h[3];
    SameHex(h[0]);
    SameHex(h[1]);
    SameHex(h[2]);
    SameHex(h[3]);
  }

  lemma {:induction false} SameNumber(s: seq<byte>)
    requires G.Decimal(s)
    ensures (forall i :: 0 <= i < |s| ==> IsDigit(s[i])) && DigitsValue(s) == G.NumberOf(s)
  {
    if s != [] {
      SameNumber(s[..|s| - 1]);
    }
  }

  // ---------- strings, from the grammar ----------

  lemma {:induction false} ScanUnit(v: seq<byte>, p: nat, h: seq<byte>)
    requires G.FourHex(h) && Here(v, p, [92, 117] + h)
    ensures StringEnd(v, p) == StringEnd(v, p + 6)
  {
    hide IsHex, G.Hexadecimal;
    var s := [92, 117] + h;
    HereAt(v, p, s, 0);
    HereAt(v, p, s, 1);
    HereAt(v, p, s, 2);
    HereAt(v, p, s, 3);
    HereAt(v, p, s, 4);
    HereAt(v, p, s, 5);
    SameHex(h[0]);
    SameHex(h[1]);
    SameHex(h[2]);
    SameHex(h[3]);
  }

  lemma {:induction false} ScanOne(v: seq<byte>, p: nat, x: G.Piece)
    requires G.GoodPiece(x) && Here(v, p, G.PieceText(x))
    ensures StringEnd(v, p) == StringEnd(v, p + |G.PieceText(x)|)
  {
    match x
    case Raw(b) => HereAt(v, p, [b], 0);
    case Short(c) => HereAt(v, p, [92, c], 0); HereAt(v, p, [92, c], 1);
    case Unit(h) => ScanUnit(v, p, h);
    case Pair(h, l) =>
      HereConcat(v, p, [92, 117] + h, [92, 117] + l);
      ScanUnit(v, p, h);
      ScanUnit(v, p + 6, l);
  }

  lemma {:induction false} ScanAll(v: seq<byte>, p: nat, ps: seq<G.Piece>)
    requires G.GoodPieces(ps) && Here(v, p, G.PiecesText(ps) + [34])
    ensures StringEnd(v, p) == Some(p + |G.PiecesText(ps)|)
    decreases |ps|
  {
    hide G.PieceText, G.GoodPiece;
    if ps == [] {
      HereAt(v, p, G.PiecesText(ps) + [34], 0);
    } else {
      var first, rest := G.PieceText(ps[0]), G.PiecesText(ps[1..]) + [34];
      assert G.PiecesText(ps) + [34] == first + rest;
      HereConcat(v, p, first, rest);
      ScanOne(v, p, ps[0]);
      ScanAll(v, p + |first|, ps[1..]);
    }
  }

  lemma {:induction false} UnescapeOne(x: G.Piece, rest: seq<byte>)
    requires G.GoodPiece(x) && Unescape(rest).Some?
    ensures Unescape(G.PieceText(x) + rest) == Some(G.PieceValue(x) + Unescape(rest).value)
  {
    hide Unescape, EscapeValue, G.FourHex, Utf8.EncodeCodePoint, G.UnitOf;
    match x
    case Raw(b) => UnescapeRawByte(b, rest);
    case Short(c) => UnescapeShortByte(c, rest);
    case Unit(h) => UnescapeUnit(h, rest);
    case Pair(h, l) => UnescapeTwo(h, l, rest);
  }

  lemma {:induction false} UnescapeRawByte(b: byte, rest: seq<byte>)
    requires b != 92 && Unescape(rest).Some?
    ensures Unescape([b] + rest) == Some([b] + Unescape(rest).value)
  {
    hide EscapeValue, Utf8.EncodeCodePoint;
    assert ([b] + rest)[1..] == rest;
  }

  lemma {:induction false} UnescapeShortByte(c: byte, rest: seq<byte>)
    requires G.GoodPiece(G.Short(c)) && Unescape(rest).Some?
    ensures Unescape([92, c] + rest) == Some(G.PieceValue(G.Short(c)) + Unescape(rest).value)
  {
    hide EscapeValue, Utf8.EncodeCodePoint;
    assert ([92, c] + rest)[2..] == rest;
  }

  lemma {:induction false} UnescapeUnit(h: seq<byte>, rest: seq<byte>)
    requires G.GoodPiece(G.Unit(h)) && Unescape(rest).Some?
    ensures Unescape([92, 117] + h + rest) == Some(G.PieceValue(G.Unit(h)) + Unescape(rest).value)
  {
    hide EscapeValue, G.FourHex, Utf8.EncodeCodePoint, G.UnitOf;
    UnitLength(h);
    SameUnit(h, rest);
    assert ([92, 117] + h + rest)[6..] == rest;
  }

  lemma {:induction false} UnescapeTwo(h: seq<byte>, l: seq<byte>, rest: seq<byte>)
    requires G.GoodPiece(G.Pair(h, l)) && Unescape(rest).Some?
    ensures Unescape([92, 117] + h + ([92, 117] + l) + rest) == Some(G.PieceValue(G.Pair(h, l)) + Unescape(rest).value)
  {
    hide EscapeValue, G.FourHex, Utf8.EncodeCodePoint, G.UnitOf;
    UnitLength(h);
    UnitLength(l);
    var tail := [92, 117] + l + rest;
    var s := [92, 117] + h + ([92, 117] + l) + rest;
    SameUnit(h, tail);
    SameUnit(l, rest);
    assert s == [92, 117] + h + tail;
    assert s[6..] == tail && s[12..] == rest;
  }

  lemma UnitLength(h: seq<byte>)
    requires G.FourHex(h)
    ensures |h| == 4
  {
  }

  lemma {:induction false} UnescapeAll(ps: seq<G.Piece>)
    requires G.GoodPieces(ps)
    ensures Unescape(G.PiecesText(ps)) == Some(G.PiecesValue(ps))
    decreases |ps|
  {
    hide G.PieceText, G.GoodPiece, G.PieceValue, Unescape;
    if ps == [] {
      UnescapeNothing();
    } else {
      UnescapeAll(ps[1..]);
      UnescapeOne(ps[0], G.PiecesText(ps[1..]));
    }
  }

  lemma LexPieces(v: seq<byte>, p: nat, ps: seq<G.Piece>)
    requires G.GoodPieces(ps) && Here(v, p, [34] + G.PiecesText(ps) + [34])
    ensures LexString(v, p + 1) == Lexed(TString(G.PiecesValue(ps)), p + |G.PiecesText(ps)| + 2)
  {
    hide G.PiecesText, G.PiecesValue, StringEnd, Unescape;
    var inside := G.PiecesText(ps);
    assert [34] + inside + [34] == [34] + (inside + [34]);
    HereConcat(v, p, [34], inside + [34]);
    ScanAll(v, p + 1, ps);
    HereConcat(v, p + 1, inside, [34]);
    UnescapeAll(ps);
  }

  // ---------- strings, to the grammar ----------

  /** One piece, and where the next one begins. */
  ghost predicate Begins(v: seq<byte>, p: nat, q: nat, x: G.Piece, n: nat)
    requires p <= q <= |v|
  {
    && 0 < n <= q - p && StringEnd(v, p + n) == Some(q) && Unescape(v[p + n..q]).Some?
    && G.GoodPiece(x) && G.PieceText(x) == v[p..p + n]
    && Unescape(v[p..q]) == Some(G.PieceValue(x) + Unescape(v[p + n..q]).value)
  }

  lemma {:induction false} PiecesOf(v: seq<byte>, p: nat, q: nat) returns (ps: seq<G.Piece>)
    requires p <= q <= |v| && StringEnd(v, p) == Some(q) && Unescape(v[p..q]).Some?
    ensures G.GoodPieces(ps) && G.PiecesText(ps) == v[p..q] && G.PiecesValue(ps) == Unescape(v[p..q]).value
    decreases q - p
  {
    hide G.GoodPiece, G.PieceText, G.PieceValue, Unescape, StringEnd;
    if p == q {
      ps := [];
      UnescapeNothing();
      assert v[p..q] == [];
    } else {
      var x, n := FirstPiece(v, p, q);
      var rest := PiecesOf(v, p + n, q);
      ps := [x] + rest;
      assert v[p..q] == v[p..p + n] + v[p + n..q];
      assert ps[1..] == rest;
    }
  }

  lemma {:induction false} FirstPiece(v: seq<byte>, p: nat, q: nat) returns (x: G.Piece, n: nat)
    requires p < q <= |v| && StringEnd(v, p) == Some(q) && Unescape(v[p..q]).Some?
    ensures Begins(v, p, q, x, n)
  {
    hide Begins, Unescape;
    if v[p] != 92 {
      x, n := G.Raw(v[p]), 1;
      RawPiece(v, p, q);
    } else if v[p + 1] != 117 {
      x, n := G.Short(v[p + 1]), 2;
      ShortPiece(v, p, q);
    } else {
      x, n := FirstUnit(v, p, q);
    }
  }

  lemma {:induction false} RawPiece(v: seq<byte>, p: nat, q: nat)
    requires p < q <= |v| && StringEnd(v, p) == Some(q) && Unescape(v[p..q]).Some? && v[p] != 92
    ensures Begins(v, p, q, G.Raw(v[p]), 1)
  {
    hide EscapeValue, Utf8.EncodeCodePoint, G.FourHex, IsHex;
    assert v[p..q][1..] == v[p + 1..q] && v[p..p + 1] == [v[p]];
  }

  lemma {:induction false} ShortPiece(v: seq<byte>, p: nat, q: nat)
    requires p < q <= |v| && StringEnd(v, p) == Some(q) && Unescape(v[p..q]).Some? && v[p] == 92 && p + 1 < |v| && v[p + 1] != 117
    ensures Begins(v, p, q, G.Short(v[p + 1]), 2)
  {
    hide EscapeValue, Utf8.EncodeCodePoint, G.FourHex, IsHex;
    assert v[p..q][2..] == v[p + 2..q] && v[p..p + 2] == [92, v[p + 1]];
  }

  lemma {:induction false} FirstUnit(v: seq<byte>, p: nat, q: nat) returns (x: G.Piece, n: nat)
    requires p < q <= |v| && StringEnd(v, p) == Some(q) && Unescape(v[p..q]).Some? && v[p] == 92 && p + 1 < |v| && v[p + 1] == 117
    ensures Begins(v, p, q, x, n)
  {
    hide Begins, StringEnd, Unescape, G.FourHex, EscapeValue;
    HexHere(v, p, q);
    var h := v[p + 2..p + 6];
    assert v[p..q] == [92, 117] + h + v[p + 6..q];
    SameUnit(h, v[p + 6..q]);
    if 0xD800 <= G.UnitOf(h) <= 0xDBFF {
      LowUnit(h, v[p + 6..q]);
      SecondUnit(v, p + 6, q);
      HexHere(v, p + 6, q);
      var l := v[p + 8..p + 12];
      assert v[p + 6..q] == [92, 117] + l + v[p + 12..q];
      SameUnit(l, v[p + 12..q]);
      x, n := G.Pair(h, l), 12;
      PairPiece(v, p, q, h, l);
    } else {
      x, n := G.Unit(h), 6;
      UnitPiece(v, p, q, h);
    }
  }

  /** A high surrogate is only decoded with another unit behind it. */
  lemma LowUnit(h: seq<byte>, rest: seq<byte>)
    requires |h| == 4 && G.FourHex(h) && 0xD800 <= G.UnitOf(h) <= 0xDBFF && Unescape([92, 117] + h + rest).Some?
    ensures EscapeValue(rest).Some?
  {
    hide EscapeValue, G.FourHex, Utf8.EncodeCodePoint;
    SameUnit(h, rest);
    assert ([92, 117] + h + rest)[6..] == rest;
  }

  lemma {:induction false} UnitPiece(v: seq<byte>, p: nat, q: nat, h: seq<byte>)
    requires p + 6 <= q <= |v| && |h| == 4 && G.FourHex(h) && v[p..q] == [92, 117] + h + v[p + 6..q] && Unescape(v[p..q]).Some?
    requires !(0xD800 <= G.UnitOf(h) <= 0xDBFF) && StringEnd(v, p + 6) == Some(q)
    ensures Begins(v, p, q, G.Unit(h), 6)
  {
    hide EscapeValue, G.FourHex, Utf8.EncodeCodePoint, StringEnd, G.UnitOf;
    SameUnit(h, v[p + 6..q]);
    assert v[p..q][6..] == v[p + 6..q];
    assert v[p..p + 6] == v[p..q][..6] == [92, 117] + h;
  }

  lemma {:induction false} PairPiece(v: seq<byte>, p: nat, q: nat, h: seq<byte>, l: seq<byte>)
    requires p + 12 <= q <= |v| && |h| == 4 && G.FourHex(h) && v[p..q] == [92, 117] + h + v[p + 6..q] && Unescape(v[p..q]).Some?
    requires |l| == 4 && G.FourHex(l) && v[p + 6..q] == [92, 117] + l + v[p + 12..q]
    requires 0xD800 <= G.UnitOf(h) <= 0xDBFF && StringEnd(v, p + 12) == Some(q)
    ensures Begins(v, p, q, G.Pair(h, l), 12)
  {
    hide EscapeValue, G.FourHex, Utf8.EncodeCodePoint, StringEnd, G.UnitOf;
    var s := v[p..q];
    SameUnit(h, v[p + 6..q]);
    SameUnit(l, v[p + 12..q]);
    assert s[6..] == v[p + 6..q] && s[12..] == v[p + 6..q][6..] == v[p + 12..q];
    assert v[p..p + 12] == s[..12] == [92, 117] + h + ([92, 117] + l);
  }

  lemma HexHere(v: seq<byte>, p: nat, q: nat)
    requires p < q <= |v| && StringEnd(v, p) == Some(q) && v[p] == 92 && p + 1 < |v| && v[p + 1] == 117
    ensures p + 6 <= q && G.FourHex(v[p + 2..p + 6]) && StringEnd(v, p + 6) == Some(q)
  {
    hide IsHex, G.Hexadecimal;
    var h := v[p + 2..p + 6];
    SameHex(h[0]);
    SameHex(h[1]);
    SameHex(h[2]);
    SameHex(h[3]);
  }

  /** The scan for the closing quote and the decoder agree on where an escape begins. */
  lemma SecondUnit(v: seq<byte>, p: nat, q: nat)
    requires p <= q <= |v| && EscapeValue(v[p..q]).Some?
    ensures p < q && p + 1 < |v| && v[p] == 92 && v[p + 1] == 117
  {
    assert v[p..q][0] == v[p] && v[p..q][1] == v[p + 1];
  }

  // ---------- numbers and words ----------

  /** What may follow a leaf: anything after a string or a NUL, otherwise the end, punctuation or a blank. */
  predicate Follows(v: seq<byte>, q: nat, l: G.Leaf) {
    l.StringLeaf? || l.nul || Ends(v, q)
  }

  /** Where the parts of a number stand. */
  lemma NumberHere(v: seq<byte>, p: nat, l: G.Leaf)
    requires l.NumberLeaf? && Here(v, p, G.LeafText(l))
    ensures var q := if l.negative then p + 1 else p;
      && (l.negative ==> p < |v| && v[p] == 45)
      && Here(v, q, l.digits) && Here(v, q + |l.digits|, G.Nul(l.nul)) && p + |G.LeafText(l)| == q + |l.digits| + |G.Nul(l.nul)|
  {
    hide Here, G.Nul, G.LeafText;
    NumberSpelled(l);
    if l.negative {
      HereConcat(v, p, [45], l.digits + G.Nul(l.nul));
      HereAt(v, p, [45], 0);
      HereConcat(v, p + 1, l.digits, G.Nul(l.nul));
    } else {
      HereConcat(v, p, l.digits, G.Nul(l.nul));
    }
  }

  lemma NumberSpelled(l: G.Leaf)
    requires l.NumberLeaf?
    ensures G.LeafText(l) == if l.negative then [45] + (l.digits + G.Nul(l.nul)) else l.digits + G.Nul(l.nul)
  {
    hide G.Nul;
    assert [] + l.digits == l.digits;
  }

  lemma DigitsFollowed(v: seq<byte>, bad: bool, q: nat, ds: seq<byte>, nul: bool)
    requires ds != [] && G.Decimal(ds) && (ds[0] == 48 ==> |ds| == 1) && Here(v, q, ds) && Here(v, q + |ds|, G.Nul(nul)) && (nul || Ends(v, q + |ds|))
    ensures var e := q + |ds|;
      && q < e <= |v| && IsDigit(v[q]) && v[q..e] == ds && (v[q] == 48 ==> e == q + 1) && SkipDigits(v, q) == e
      && PutBack(v, e) == e + |G.Nul(nul)| && !IsDigit(CharAt(v, bad, e)) && CharAt(v, bad, e) != 46 && !IsExponent(CharAt(v, bad, e))
  {
    hide SkipDigits;
    HereAt(v, q, ds, 0);
    if nul {
      HereAt(v, q + |ds|, [0], 0);
    }
    SkipDigitsOver(v, q, ds);
  }

  lemma LexNumberLeaf(v: seq<byte>, bad: bool, p: nat, l: G.Leaf)
    requires l.NumberLeaf? && G.GoodLeaf(l) && Here(v, p, G.LeafText(l)) && Follows(v, p + |G.LeafText(l)|, l)
    ensures Lex(v, bad, p) == Lexed(TokenOf(l), p + |G.LeafText(l)|)
  {
    hide G.NumberOf, DigitsValue, SkipDigits, PutBack, IsExponent, G.LeafText, Here, G.Decimal, CharAt, G.Nul, Ends;
    var q := if l.negative then p + 1 else p;
    NumberHere(v, p, l);
    FollowsDigits(v, p, q, l);
    DigitsFollowed(v, bad, q, l.digits, l.nul);
    SameNumber(l.digits);
    assert SkipBlanks(v, p) == p;
    NumberLexed(v, bad, p, q, q + |l.digits|);
  }

  lemma FollowsDigits(v: seq<byte>, p: nat, q: nat, l: G.Leaf)
    requires l.NumberLeaf? && Follows(v, p + |G.LeafText(l)|, l) && p + |G.LeafText(l)| == q + |l.digits| + |G.Nul(l.nul)|
    ensures l.nul || Ends(v, q + |l.digits|)
  {
    hide G.LeafText, Ends;
  }

  /** An integer is read from its sign, if any, at `p` and its digits from `q` to `e`, and a NUL behind it passed over. */
  lemma NumberLexed(v: seq<byte>, bad: bool, p: nat, q: nat, e: nat)
    requires p <= q < e <= |v| && (if v[p] == 45 then q == p + 1 else q == p) && IsDigit(v[q])
    requires SkipDigits(v, q) == e && (v[q] == 48 ==> e == q + 1)
    requires !IsDigit(CharAt(v, bad, e)) && CharAt(v, bad, e) != 46 && !IsExponent(CharAt(v, bad, e))
    ensures var n := DigitsValue(v[q..e]); var i: int := if v[p] == 45 then 0 - n else n;
      -(TWO63 as int) <= i < TWO63 ==> LexNumber(v, bad, p) == Lexed(TInteger(i), PutBack(v, e))
  {
    hide DigitsValue, SkipDigits, PutBack, IsExponent, LexReal;
  }

  lemma WordHere(v: seq<byte>, bad: bool, p: nat, s: seq<byte>, nul: bool)
    requires s != [] && (forall i :: 0 <= i < |s| ==> IsAlpha(s[i])) && Here(v, p, s + G.Nul(nul)) && (nul || Ends(v, p + |s|))
    ensures Lex(v, bad, p) == Lexed(Word(s), p + |s + G.Nul(nul)|)
  {
    HereConcat(v, p, s, G.Nul(nul));
    HereAt(v, p, s, 0);
    if nul {
      HereAt(v, p + |s|, [0], 0);
    }
    SkipAlphasOver(v, p, s);
  }

  lemma LexStringLeaf(v: seq<byte>, bad: bool, p: nat, ps: seq<G.Piece>)
    requires G.GoodPieces(ps) && Here(v, p, [34] + G.PiecesText(ps) + [34])
    ensures Lex(v, bad, p) == Lexed(TString(G.PiecesValue(ps)), p + |G.PiecesText(ps)| + 2)
  {
    hide LexString, G.PiecesText, G.PiecesValue;
    HereAt(v, p, [34] + G.PiecesText(ps) + [34], 0);
    LexPieces(v, p, ps);
  }

  lemma LexBareLeaf(v: seq<byte>, bad: bool, p: nat, l: G.Leaf)
    requires G.GoodLeaf(l) && Here(v, p, G.LeafText(l)) && Follows(v, p + |G.LeafText(l)|, l)
    ensures Lex(v, bad, p) == Lexed(TokenOf(l), p + |G.LeafText(l)|)
  {
    hide Lex, G.PiecesText, G.PiecesValue, G.NumberOf, G.GoodPieces, Here, Ends;
    match l
    case StringLeaf(ps) => LexStringLeaf(v, bad, p, ps);
    case NumberLeaf(_, _, _) => LexNumberLeaf(v, bad, p, l);
    case TrueLeaf(nul) => WordHere(v, bad, p, [116, 114, 117, 101], nul);
    case FalseLeaf(nul) => WordHere(v, bad, p, [102, 97, 108, 115, 101], nul);
    case NullLeaf(nul) => WordHere(v, bad, p, [110, 117, 108, 108], nul);
  }

  /** A leaf of the grammar, behind any blanks, is read as its token. */
  lemma LexLeaf(v: seq<byte>, bad: bool, p: nat, ws: seq<byte>, l: G.Leaf)
    requires G.Blank(ws) && G.GoodLeaf(l) && Here(v, p, ws + G.LeafText(l)) && Follows(v, p + |ws + G.LeafText(l)|, l)
    ensures Lex(v, bad, p) == Lexed(TokenOf(l), p + |ws + G.LeafText(l)|)
  {
    hide Lex, G.LeafText, G.GoodLeaf, Follows, TokenOf, G.Blank;
    SameBlank(ws);
    HereConcat(v, p, ws, G.LeafText(l));
    LexOver(v, bad, p, ws);
    LexBareLeaf(v, bad, p + |ws|, l);
  }

  // ---------- and back ----------

  lemma {:induction false} SkippedBlanks(v: seq<byte>, p: nat)
    requires p <= |v|
    ensures G.Blank(v[p..SkipBlanks(v, p)])
    decreases |v| - p
  {
    if p < |v| && IsBlank(v[p]) {
      SkippedBlanks(v, p + 1);
      var q := SkipBlanks(v, p);
      assert forall i :: 0 < i < q - p ==> v[p..q][i] == v[p + 1..q][i - 1];
    }
  }

  predicate IsLeaf(t: Token) {
    t.TString? || t.TInteger? || t.TTrue? || t.TFalse? || t.TNull?
  }

  lemma RealKind(v: seq<byte>, bad: bool, e: nat)
    requires e < |v|
    ensures LexReal(v, bad, e).token.TReal? || LexReal(v, bad, e).token.TInvalid?
  {
  }

  lemma NumberKind(v: seq<byte>, bad: bool, p: nat)
    requires p < |v| && (v[p] == 45 || IsDigit(v[p]))
    ensures var t := LexNumber(v, bad, p).token; t.TInteger? || t.TReal? || t.TInvalid?
  {
    hide LexReal, DigitsValue, SkipDigits;
    forall e | 0 <= e < |v|
      ensures LexReal(v, bad, e).token.TReal? || LexReal(v, bad, e).token.TInvalid?
    {
      RealKind(v, bad, e);
    }
  }

  lemma StringKind(v: seq<byte>, p: nat)
    requires p <= |v|
    ensures var t := LexString(v, p).token; t.TString? || t.TInvalid?
  {
    hide StringEnd, Unescape;
  }

  /** What kind of token a byte begins. */
  lemma Kinds(v: seq<byte>, bad: bool, p: nat)
    requires p <= |v|
    ensures var q, t := SkipBlanks(v, p), Lex(v, bad, p).token;
      && (t.TString? ==> q < |v| && v[q] == 34)
      && (t.TInteger? ==> q < |v| && (IsDigit(v[q]) || v[q] == 45))
      && (t.TTrue? || t.TFalse? || t.TNull? ==> q < |v| && IsAlpha(v[q]))
      && (t.TPunct? ==> q < |v| && IsPunct(v[q]))
      && (t.TEof? ==> q == |v|)
  {
    hide SkipBlanks, LexString, LexNumber, SkipAlphas, PutBack;
    var q := SkipBlanks(v, p);
    if q < |v| {
      StringKind(v, q + 1);
      if v[q] == 45 || IsDigit(v[q]) {
        NumberKind(v, bad, q);
      }
    }
  }

  /** The parts of what was read as an integer. */
  lemma IntegerParts(v: seq<byte>, bad: bool, p: nat)
    requires p < |v| && (v[p] == 45 || IsDigit(v[p])) && LexNumber(v, bad, p).token.TInteger?
    ensures var q := if v[p] == 45 then p + 1 else p;
      q < |v| && IsDigit(v[q]) && Digits(v, q) <= |v| && Decimals(v, q) && LexNumber(v, bad, p).at == PutBack(v, Digits(v, q))
    ensures var q := if v[p] == 45 then p + 1 else p; var n := DigitsValue(v[q..Digits(v, q)]);
      && LexNumber(v, bad, p).token.i == (if v[p] == 45 then 0 - n else n) && (if v[p] == 45 then n <= TWO63 else n < TWO63)
  {
    hide DigitsValue, SkipDigits, LexReal, PutBack;
    var q := if v[p] == 45 then p + 1 else p;
    SkipsFirst(v, q);
    if Digits(v, q) < |v| {
      RealKind(v, bad, Digits(v, q));
    }
  }

  /** Where the digits from `q` on end: a zero stands alone. */
  function Digits(v: seq<byte>, q: nat): nat
    requires q < |v|
  {
    if v[q] == 48 then q + 1 else SkipDigits(v, q)
  }

  ghost predicate Decimals(v: seq<byte>, q: nat)
    requires q < |v| && Digits(v, q) <= |v|
  {
    q < Digits(v, q) && forall i :: q <= i < Digits(v, q) ==> IsDigit(v[i])
  }

  lemma NumberOfLexed(v: seq<byte>, bad: bool, p: nat) returns (l: G.Leaf)
    requires p < |v| && (v[p] == 45 || IsDigit(v[p])) && LexNumber(v, bad, p).token.TInteger?
    ensures l.NumberLeaf? && G.GoodLeaf(l) && TokenOf(l) == LexNumber(v, bad, p).token && v[p..LexNumber(v, bad, p).at] == G.LeafText(l)
  {
    hide DigitsValue, G.NumberOf, LexNumber, SkipDigits;
    IntegerParts(v, bad, p);
    var negative := v[p] == 45;
    var q := if negative then p + 1 else p;
    var e := Digits(v, q);
    var ds := v[q..e];
    assert G.Decimal(ds) by { assert forall i :: 0 <= i < |ds| ==> ds[i] == v[q + i] && IsDigit(v[q + i]); }
    SameNumber(ds);
    var r := PutBack(v, e);
    l := G.NumberLeaf(negative, ds, r != e);
    NumberText(v, p, q, e, r);
  }

  lemma NumberText(v: seq<byte>, p: nat, q: nat, e: nat, r: nat)
    requires p <= q <= e <= r <= |v| && (q == p || (q == p + 1 && v[p] == 45)) && e <= |v| && r == PutBack(v, e)
    ensures v[p..r] == (if q == p + 1 then [45] else []) + v[q..e] + G.Nul(r != e)
  {
    assert v[p..r] == v[p..q] + v[q..e] + v[e..r];
  }

  predicate FirstDigit(v: seq<byte>, q: nat)
    requires q <= |v|
  {
    q < |v| && IsDigit(v[q]) ==> SkipDigits(v, q) > q
  }

  lemma SkipsFirst(v: seq<byte>, q: nat)
    requires q <= |v|
    ensures FirstDigit(v, q)
  {
  }

  lemma WordOfLexed(v: seq<byte>, p: nat) returns (l: G.Leaf)
    requires p < |v| && IsAlpha(v[p]) && !Word(v[p..SkipAlphas(v, p)]).TInvalid?
    ensures !l.StringLeaf? && !l.NumberLeaf? && G.GoodLeaf(l) && TokenOf(l) == Word(v[p..SkipAlphas(v, p)])
    ensures v[p..PutBack(v, SkipAlphas(v, p))] == G.LeafText(l)
  {
    hide SkipAlphas;
    var e := SkipAlphas(v, p);
    var r := PutBack(v, e);
    var s := v[p..e];
    assert v[p..r] == s + G.Nul(r != e);
    if Word(s) == TTrue {
      l := G.TrueLeaf(r != e);
    } else if Word(s) == TFalse {
      l := G.FalseLeaf(r != e);
    } else {
      l := G.NullLeaf(r != e);
    }
  }

  lemma StringOfLexed(v: seq<byte>, p: nat) returns (ps: seq<G.Piece>)
    requires p < |v| && v[p] == 34 && LexString(v, p + 1).token.TString?
    ensures G.GoodPieces(ps) && LexString(v, p + 1).token == TString(G.PiecesValue(ps))
    ensures v[p..LexString(v, p + 1).at] == [34] + G.PiecesText(ps) + [34]
  {
    hide StringEnd, Unescape, G.GoodPieces, G.PiecesValue, G.PiecesText;
    var q := StringEnd(v, p + 1).value;
    ps := PiecesOf(v, p + 1, q);
    assert v[p..q + 1] == [34] + v[p + 1..q] + [34];
  }

  /** Whatever is read as a leaf is one of the grammar, behind blanks. */
  lemma LeafOf(v: seq<byte>, bad: bool, p: nat) returns (ws: seq<byte>, l: G.Leaf)
    requires p <= |v| && IsLeaf(Lex(v, bad, p).token)
    ensures G.Blank(ws) && G.GoodLeaf(l) && TokenOf(l) == Lex(v, bad, p).token && v[p..Lex(v, bad, p).at] == ws + G.LeafText(l)
  {
    hide SkipBlanks, LexString, LexNumber, SkipAlphas, PutBack, G.Blank, G.LeafText, G.GoodLeaf, TokenOf, Word;
    var q := SkipBlanks(v, p);
    SkippedBlanks(v, p);
    Kinds(v, bad, p);
    ws := v[p..q];
    if v[q] == 34 {
      var ps := StringOfLexed(v, q);
      l := StringLeafOf(ps);
    } else if IsDigit(v[q]) || v[q] == 45 {
      l := NumberOfLexed(v, bad, q);
    } else {
      l := WordOfLexed(v, q);
    }
    assert v[p..Lex(v, bad, p).at] == ws + v[q..Lex(v, bad, p).at];
  }

  lemma StringLeafOf(ps: seq<G.Piece>) returns (l: G.Leaf)
    requires G.GoodPieces(ps)
    ensures l == G.StringLeaf(ps) && G.GoodLeaf(l) && TokenOf(l) == TString(G.PiecesValue(ps)) && G.LeafText(l) == [34] + G.PiecesText(ps) + [34]
  {
    l := G.StringLeaf(ps);
  }

  lemma PunctOf(v: seq<byte>, bad: bool, p: nat) returns (ws: seq<byte>)
    requires p <= |v| && Lex(v, bad, p).token.TPunct?
    ensures G.Blank(ws) && v[p..Lex(v, bad, p).at] == ws + [Lex(v, bad, p).token.c]
  {
    hide SkipBlanks, LexString, LexNumber, SkipAlphas, PutBack, G.Blank;
    var q := SkipBlanks(v, p);
    SkippedBlanks(v, p);
    Kinds(v, bad, p);
    ws := v[p..q];
    assert v[p..q + 1] == ws + [v[q]];
  }

  lemma ToTheEnd(v: seq<byte>, p: nat, q: nat)
    requires p <= q <= |v|
    ensures q == |v| ==> v[p..q] == v[p..]
  {
  }

  /** Nothing but blanks up to the end. */
  lemma EndOf(v: seq<byte>, bad: bool, p: nat)
    requires p <= |v|
    ensures Lex(v, bad, p).token.TEof? <==> !bad && G.Blank(v[p..])
  {
    hide LexString, LexNumber, SkipAlphas, PutBack;
    SkippedBlanks(v, p);
    Kinds(v, bad, p);
    if G.Blank(v[p..]) {
      assert AllBlank(v[p..]) by { SameBlank(v[p..]); }
      SkipBlanksOver(v, p, v[p..]);
    }
    ToTheEnd(v, p, SkipBlanks(v, p));
  }
}
