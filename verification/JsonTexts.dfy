/**
  The parser of jansson against the grammar, in both directions: a text is loaded as a value if and only if
  it is a document that stands for that value.
 */
module JsonTexts {
  import opened Bytes
  import opened JsonValues
  import opened JsonLoad
  import opened JsonRoundTrip
  import opened JsonTokens
  import G = JsonGrammar

  // ---------- documents are loaded ----------

  lemma LexBlankPunct(v: seq<byte>, bad: bool, p: nat, ws: seq<byte>, c: byte)
    requires G.Blank(ws) && IsPunct(c) && Here(v, p, ws + [c])
    ensures Lex(v, bad, p) == Lexed(TPunct(c), p + |ws| + 1) && Ends(v, p)
  {
    hide Lex, Here, Ends, IsPunct, G.Blank, AllBlank;
    SameBlank(ws);
    LexPunct(v, bad, p, ws, c);
    EndsBeforePunct(v, p, ws, c);
  }

  lemma AtomReads(v: seq<byte>, bad: bool, p: nat, n: G.Node)
    requires n.Atom? && G.GoodNode(n) && Here(v, p, G.NodeText(n)) && Ends(v, p + |G.NodeText(n)|)
    ensures Reads(v, bad, p, G.NodeValue(n), p + |G.NodeText(n)|)
  {
    hide Lex, Here, Ends, G.LeafText, G.Blank, G.PiecesValue, G.NumberOf, G.GoodPieces, G.Decimal;
    LexLeaf(v, bad, p, n.ws, n.leaf);
  }

  lemma {:induction false} NodeReads(v: seq<byte>, bad: bool, p: nat, n: G.Node)
    requires G.GoodNode(n) && Here(v, p, G.NodeText(n)) && Ends(v, p + |G.NodeText(n)|)
    ensures Reads(v, bad, p, G.NodeValue(n), p + |G.NodeText(n)|)
    decreases n, 1
  {
    match n
    case Atom(_, _) => AtomReads(v, bad, p, n);
    case Array(_, _, _) => ArrayReads(v, bad, p, n);
    case Object(_, _, _) => ObjectReads(v, bad, p, n);
  }

  /** The opening bracket, and what is to be read behind it. */
  lemma Opens(v: seq<byte>, bad: bool, p: nat, ws: seq<byte>, c: byte, rest: seq<byte>)
    requires G.Blank(ws) && IsPunct(c) && Here(v, p, ws + ([c] + rest))
    ensures Lex(v, bad, p) == Lexed(TPunct(c), p + |ws| + 1) && Here(v, p + |ws| + 1, rest)
  {
    hide Lex, Here, IsPunct, G.Blank, Ends;
    assert ws + ([c] + rest) == (ws + [c]) + rest;
    HereConcat(v, p, ws + [c], rest);
    LexBlankPunct(v, bad, p, ws, c);
  }

  lemma GoodArray(n: G.Node)
    requires n.Array? && G.GoodNode(n)
    ensures G.Blank(n.ws) && G.Blank(n.inside) && forall i :: 0 <= i < |n.items| ==> G.GoodItem(n.items[i])
    ensures G.NodeText(n) == n.ws + ([91] + ((if n.items == [] then n.inside else G.ItemsText(n.items)) + [93]))
    ensures G.NodeValue(n) == Arr(G.ItemsValue(n.items, []))
  {
    hide G.Blank, G.ItemsText, G.ItemsValue;
  }

  lemma NothingInside()
    ensures G.ItemsValue([], []) == [] && G.MembersValue([], []) == []
  {
  }

  lemma {:induction false} ArrayReads(v: seq<byte>, bad: bool, p: nat, n: G.Node)
    requires n.Array? && G.GoodNode(n) && Here(v, p, G.NodeText(n))
    ensures Reads(v, bad, p, G.NodeValue(n), p + |G.NodeText(n)|)
    decreases n, 0
  {
    hide Lex, Here, Ends, G.Blank, G.GoodItem, G.GoodNode, G.NodeText, G.NodeValue, G.ItemsText, G.ItemsValue, ParseItems;
    GoodArray(n);
    var q := p + |n.ws| + 1;
    if n.items == [] {
      Opens(v, bad, p, n.ws, 91, n.inside + [93]);
      LexBlankPunct(v, bad, q, n.inside, 93);
      NothingInside();
      assert ParseArray(v, bad, q) == Parsed(Arr([]), q + |n.inside| + 1);
    } else {
      Opens(v, bad, p, n.ws, 91, G.ItemsText(n.items) + [93]);
      ItemsRead(v, bad, q, n.items, []);
      assert ParseArray(v, bad, q) == Parsed(G.NodeValue(n), q + |G.ItemsText(n.items)| + 1);
    }
  }

  lemma ItemsParts(items: seq<G.Item>, done: seq<Json>)
    requires items != [] && forall i :: 0 <= i < |items| ==> G.GoodItem(items[i])
    ensures G.GoodNode(items[0].node) && G.Blank(items[0].after)
    ensures |items| == 1 ==> G.ItemsText(items) + [93] == G.NodeText(items[0].node) + (items[0].after + [93])
    ensures |items| > 1 ==>
      G.ItemsText(items) + [93] == G.NodeText(items[0].node) + (items[0].after + ([44] + (G.ItemsText(items[1..]) + [93])))
    ensures |items| == 1 ==> G.ItemsValue(items, done) == done + [G.NodeValue(items[0].node)]
    ensures G.ItemsValue(items, done) == G.ItemsValue(items[1..], done + [G.NodeValue(items[0].node)])
  {
    hide G.Blank, G.NodeText, G.NodeValue, G.GoodNode;
    assert G.GoodItem(items[0]);
  }

  lemma {:induction false} ItemsRead(v: seq<byte>, bad: bool, p: nat, items: seq<G.Item>, done: seq<Json>)
    requires items != [] && (forall i :: 0 <= i < |items| ==> G.GoodItem(items[i])) && Here(v, p, G.ItemsText(items) + [93])
    ensures var l := Lex(v, bad, p);
      && l.at <= |v| && !l.token.TInvalid? && !l.token.TEof? && l.token != TPunct(93)
      && ParseItems(v, bad, l.token, l.at, done) == Parsed(Arr(G.ItemsValue(items, done)), p + |G.ItemsText(items)| + 1)
    decreases items, 0
  {
    hide Lex, Here, Ends, G.Blank, G.GoodItem, G.GoodNode, G.NodeText, G.NodeValue, G.ItemsText, G.ItemsValue, ParseValue;
    ItemsParts(items, done);
    var first, after := G.NodeText(items[0].node), items[0].after;
    var q := p + |first|;
    if |items| == 1 {
      HereConcat(v, p, first, after + [93]);
      LexBlankPunct(v, bad, q, after, 93);
      NodeReads(v, bad, p, items[0].node);
    } else {
      var rest := G.ItemsText(items[1..]) + [93];
      HereConcat(v, p, first, after + ([44] + rest));
      Comma(v, bad, q, after, rest);
      NodeReads(v, bad, p, items[0].node);
      ItemsRead(v, bad, q + |after| + 1, items[1..], done + [G.NodeValue(items[0].node)]);
    }
  }

  lemma Comma(v: seq<byte>, bad: bool, q: nat, after: seq<byte>, rest: seq<byte>)
    requires G.Blank(after) && Here(v, q, after + ([44] + rest))
    ensures Ends(v, q) && Lex(v, bad, q) == Lexed(TPunct(44), q + |after| + 1) && Here(v, q + |after| + 1, rest)
  {
    hide Lex, Here, G.Blank, Ends;
    Opens(v, bad, q, after, 44, rest);
    assert after + ([44] + rest) == (after + [44]) + rest;
    HereConcat(v, q, after + [44], rest);
    LexBlankPunct(v, bad, q, after, 44);
  }

  lemma GoodObject(n: G.Node)
    requires n.Object? && G.GoodNode(n)
    ensures G.Blank(n.ws) && G.Blank(n.inside) && forall i :: 0 <= i < |n.members| ==> G.GoodMember(n.members[i])
    ensures G.NodeText(n) == n.ws + ([123] + ((if n.members == [] then n.inside else G.MembersText(n.members)) + [125]))
    ensures G.NodeValue(n) == Obj(G.MembersValue(n.members, []))
  {
    hide G.Blank, G.MembersText, G.MembersValue;
  }

  lemma {:induction false} ObjectReads(v: seq<byte>, bad: bool, p: nat, n: G.Node)
    requires n.Object? && G.GoodNode(n) && Here(v, p, G.NodeText(n))
    ensures Reads(v, bad, p, G.NodeValue(n), p + |G.NodeText(n)|)
    decreases n, 0
  {
    hide Lex, Here, Ends, G.Blank, G.GoodMember, G.GoodNode, G.NodeText, G.NodeValue, G.MembersText, G.MembersValue, ParseMembers;
    GoodObject(n);
    var q := p + |n.ws| + 1;
    if n.members == [] {
      Opens(v, bad, p, n.ws, 123, n.inside + [125]);
      LexBlankPunct(v, bad, q, n.inside, 125);
      NothingInside();
      assert ParseObject(v, bad, q) == Parsed(Obj([]), q + |n.inside| + 1);
    } else {
      Opens(v, bad, p, n.ws, 123, G.MembersText(n.members) + [125]);
      MembersRead(v, bad, q, n.members, []);
      assert ParseObject(v, bad, q) == Parsed(G.NodeValue(n), q + |G.MembersText(n.members)| + 1);
    }
  }

  /** The text of a member up to the end of its value. */
  function MemberHead(m: G.Member): seq<byte> {
    m.ws + (([34] + G.PiecesText(m.key) + [34]) + (m.colon + ([58] + G.NodeText(m.node))))
  }

  lemma MembersParts(ms: seq<G.Member>, done: seq<Entry>)
    requires ms != [] && forall i :: 0 <= i < |ms| ==> G.GoodMember(ms[i])
    ensures G.GoodMember(ms[0]) && G.GoodPieces(ms[0].key) && G.GoodNode(ms[0].node) && G.Blank(ms[0].after)
    ensures |ms| == 1 ==> G.MembersText(ms) + [125] == MemberHead(ms[0]) + (ms[0].after + [125])
    ensures |ms| > 1 ==> G.MembersText(ms) + [125] == MemberHead(ms[0]) + (ms[0].after + ([44] + (G.MembersText(ms[1..]) + [125])))
    ensures var done' := Put(done, G.PiecesValue(ms[0].key), G.NodeValue(ms[0].node));
      (|ms| == 1 ==> G.MembersValue(ms, done) == done') && G.MembersValue(ms, done) == G.MembersValue(ms[1..], done')
  {
    hide G.Blank, G.NodeText, G.NodeValue, G.GoodNode, G.PiecesText, G.PiecesValue, G.GoodPieces, Put;
    assert G.GoodMember(ms[0]);
    MemberSplit(ms[0]);
  }

  lemma MemberSplit(m: G.Member)
    ensures G.MemberText(m) == MemberHead(m) + m.after
  {
    hide G.PiecesText, G.NodeText;
    var x, k := G.NodeText(m.node), [34] + G.PiecesText(m.key) + [34];
    assert m.colon + ([58] + (x + m.after)) == (m.colon + ([58] + x)) + m.after;
    assert k + (m.colon + ([58] + (x + m.after))) == (k + (m.colon + ([58] + x))) + m.after;
  }

  /** One member: the key, the colon and the value. */
  lemma {:induction false} MemberReads(v: seq<byte>, bad: bool, p: nat, m: G.Member)
    requires G.GoodMember(m) && Here(v, p, MemberHead(m)) && Ends(v, p + |MemberHead(m)|)
    ensures var k := p + |m.ws| + |G.PiecesText(m.key)| + 2;
      && Lex(v, bad, p) == Lexed(TString(G.PiecesValue(m.key)), k)
      && k <= |v| && Lex(v, bad, k) == Lexed(TPunct(58), k + |m.colon| + 1)
      && Reads(v, bad, k + |m.colon| + 1, G.NodeValue(m.node), p + |MemberHead(m)|)
    decreases m, 0
  {
    hide Lex, Here, Ends, G.Blank, G.GoodNode, G.NodeText, G.NodeValue, G.PiecesText, G.PiecesValue, ParseValue, IsPunct, G.GoodPieces;
    var key, x := [34] + G.PiecesText(m.key) + [34], G.NodeText(m.node);
    var rest := m.colon + ([58] + x);
    assert m.ws + (key + rest) == (m.ws + key) + rest;
    HereConcat(v, p, m.ws + key, rest);
    KeyReads(v, bad, p, m.ws, m.key);
    var k := p + |m.ws| + |key|;
    assert IsPunct(58) by { ColonIsPunct(); }
    Opens(v, bad, k, m.colon, 58, x);
    NodeReads(v, bad, k + |m.colon| + 1, m.node);
  }

  lemma ColonIsPunct()
    ensures IsPunct(58)
  {
  }

  lemma KeyReads(v: seq<byte>, bad: bool, p: nat, ws: seq<byte>, ps: seq<G.Piece>)
    requires G.Blank(ws) && G.GoodPieces(ps) && Here(v, p, ws + ([34] + G.PiecesText(ps) + [34]))
    ensures Lex(v, bad, p) == Lexed(TString(G.PiecesValue(ps)), p + |ws| + |G.PiecesText(ps)| + 2)
  {
    hide Lex, Here, G.Blank, G.PiecesText, G.PiecesValue, G.GoodPieces;
    LexLeaf(v, bad, p, ws, G.StringLeaf(ps));
  }

  lemma {:induction false} MembersRead(v: seq<byte>, bad: bool, p: nat, ms: seq<G.Member>, done: seq<Entry>)
    requires ms != [] && (forall i :: 0 <= i < |ms| ==> G.GoodMember(ms[i])) && Here(v, p, G.MembersText(ms) + [125])
    ensures var l := Lex(v, bad, p);
      && l.at <= |v| && !l.token.TInvalid? && !l.token.TEof? && l.token != TPunct(125)
      && ParseMembers(v, bad, l.token, l.at, done) == Parsed(Obj(G.MembersValue(ms, done)), p + |G.MembersText(ms)| + 1)
    decreases ms, 1
  {
    hide Lex, Here, Ends, G.Blank, G.GoodMember, G.GoodNode, G.GoodPieces, G.NodeValue, G.PiecesValue, G.PiecesText, G.MembersText, G.MembersValue, ParseMembers,
      Put, MemberHead, Reads;
    MembersParts(ms, done);
    var head, after := MemberHead(ms[0]), ms[0].after;
    var q := p + |head|;
    if |ms| == 1 {
      HereConcat(v, p, head, after + [125]);
      LexBlankPunct(v, bad, q, after, 125);
      MemberReads(v, bad, p, ms[0]);
      MemberLoop(v, bad, p, ms[0], done);
    } else {
      var rest := G.MembersText(ms[1..]) + [125];
      HereConcat(v, p, head, after + ([44] + rest));
      Comma(v, bad, q, after, rest);
      MemberReads(v, bad, p, ms[0]);
      MembersRead(v, bad, q + |after| + 1, ms[1..], Put(done, G.PiecesValue(ms[0].key), G.NodeValue(ms[0].node)));
      MemberLoop(v, bad, p, ms[0], done);
    }
  }

  /** One turn of the loop over members. */
  lemma MemberLoop(v: seq<byte>, bad: bool, p: nat, m: G.Member, done: seq<Entry>)
    requires G.GoodPieces(m.key) && G.GoodNode(m.node) && p <= |v|
    requires var k := p + |m.ws| + |G.PiecesText(m.key)| + 2;
      && Lex(v, bad, p) == Lexed(TString(G.PiecesValue(m.key)), k)
      && k <= |v| && Lex(v, bad, k) == Lexed(TPunct(58), k + |m.colon| + 1)
      && Reads(v, bad, k + |m.colon| + 1, G.NodeValue(m.node), p + |MemberHead(m)|) && p + |MemberHead(m)| <= |v|
    ensures var l, e := Lex(v, bad, p), Lex(v, bad, p + |MemberHead(m)|);
      var es := Put(done, G.PiecesValue(m.key), G.NodeValue(m.node));
      && (e.token == TPunct(125) ==> ParseMembers(v, bad, l.token, l.at, done) == Parsed(Obj(es), e.at))
      && (e.token == TPunct(44) && e.at <= |v| ==>
            var n := Lex(v, bad, e.at);
            !n.token.TInvalid? && !n.token.TEof? && n.at <= |v| ==> ParseMembers(v, bad, l.token, l.at, done) == ParseMembers(v, bad, n.token, n.at, es))
  {
    hide Lex, ParseValue, Put, G.PiecesText, G.PiecesValue, G.NodeValue, MemberHead, G.GoodNode, G.GoodPieces;
  }

  // ---------- what is loaded is a document ----------

  /** Whatever is parsed as a value is a node of the grammar. */
  lemma {:induction false} NodeOf(v: seq<byte>, bad: bool, p: nat) returns (n: G.Node)
    requires p <= |v| && Lex(v, bad, p).at <= |v| && ParseValue(v, bad, Lex(v, bad, p).token, Lex(v, bad, p).at).Parsed?
    ensures var l := Lex(v, bad, p); var r := ParseValue(v, bad, l.token, l.at);
      && G.GoodNode(n) && p <= r.at && v[p..r.at] == G.NodeText(n) && G.NodeValue(n) == r.value && (l.token.TPunct? ==> !n.Atom?)
    decreases |v| - p, 1
  {
    hide Lex, ParseArray, ParseObject, G.Blank, G.LeafText, G.GoodLeaf, G.LeafValue, TokenOf;
    var l := Lex(v, bad, p);
    if IsLeaf(l.token) {
      var ws, x := LeafOf(v, bad, p);
      n := G.Atom(ws, x);
      LeafMeans(x, l.token, v, bad, l.at);
    } else if l.token == TPunct(91) {
      n := ArrayOf(v, bad, p);
    } else {
      n := ObjectOf(v, bad, p);
    }
  }

  lemma LeafMeans(x: G.Leaf, t: Token, v: seq<byte>, bad: bool, p: nat)
    requires G.GoodLeaf(x) && TokenOf(x) == t && p <= |v|
    ensures ParseValue(v, bad, t, p) == Parsed(G.LeafValue(x), p)
  {
    hide G.PiecesValue, G.NumberOf;
  }

  lemma {:induction false} ArrayOf(v: seq<byte>, bad: bool, p: nat) returns (n: G.Node)
    requires p <= |v| && Lex(v, bad, p).token == TPunct(91) && ParseArray(v, bad, Lex(v, bad, p).at).Parsed?
    ensures var r := ParseArray(v, bad, Lex(v, bad, p).at);
      G.GoodNode(n) && n.Array? && p <= r.at && v[p..r.at] == G.NodeText(n) && G.NodeValue(n) == r.value
    decreases |v| - p, 0
  {
    hide Lex, ParseItems, G.Blank, G.ItemsText, G.ItemsValue, G.GoodItem;
    var l := Lex(v, bad, p);
    var ws := PunctOf(v, bad, p);
    var m := Lex(v, bad, l.at);
    var r := ParseArray(v, bad, l.at);
    if m.token == TPunct(93) {
      var inside := PunctOf(v, bad, l.at);
      n := G.Array(ws, [], inside);
      NothingInside();
      BlankItems(ws, inside);
      assert v[p..r.at] == v[p..l.at] + v[l.at..r.at] == ws + ([91] + (inside + [93]));
    } else {
      var items := ItemsOf(v, bad, l.at, []);
      n := G.Array(ws, items, []);
      BlankItems(ws, []);
      assert v[p..r.at] == v[p..l.at] + v[l.at..r.at] == ws + ([91] + (G.ItemsText(items) + [93]));
    }
  }

  lemma BlankItems(ws: seq<byte>, inside: seq<byte>)
    ensures G.Blank([])
  {
  }

  lemma OneItem(node: G.Node, after: seq<byte>, done: seq<Json>)
    requires G.GoodNode(node) && G.Blank(after)
    ensures G.GoodItem(G.Item(node, after))
    ensures G.ItemsText([G.Item(node, after)]) == G.NodeText(node) + after
    ensures G.GoodItem([G.Item(node, after)][0]) && G.ItemsValue([G.Item(node, after)], done) == done + [G.NodeValue(node)]
  {
    hide G.GoodNode, G.NodeText, G.NodeValue, G.Blank;
  }

  lemma MoreItems(node: G.Node, after: seq<byte>, rest: seq<G.Item>, done: seq<Json>)
    requires G.GoodNode(node) && G.Blank(after) && rest != [] && forall i :: 0 <= i < |rest| ==> G.GoodItem(rest[i])
    ensures var items := [G.Item(node, after)] + rest;
      && (forall i :: 0 <= i < |items| ==> G.GoodItem(items[i]))
      && G.ItemsText(items) == G.NodeText(node) + after + ([44] + G.ItemsText(rest))
      && G.ItemsValue(items, done) == G.ItemsValue(rest, done + [G.NodeValue(node)])
  {
    hide G.GoodNode, G.NodeText, G.NodeValue, G.Blank;
    var items := [G.Item(node, after)] + rest;
    assert items[1..] == rest;
  }

  lemma {:induction false} ItemsOf(v: seq<byte>, bad: bool, p: nat, done: seq<Json>) returns (items: seq<G.Item>)
    requires p <= |v| && Lex(v, bad, p).at <= |v| && ParseItems(v, bad, Lex(v, bad, p).token, Lex(v, bad, p).at, done).Parsed?
    ensures items != [] && forall i :: 0 <= i < |items| ==> G.GoodItem(items[i])
    ensures var l := Lex(v, bad, p); var r := ParseItems(v, bad, l.token, l.at, done);
      p <= r.at && v[p..r.at] == G.ItemsText(items) + [93] && r.value == Arr(G.ItemsValue(items, done))
    decreases |v| - p, 2
  {
    hide Lex, ParseValue, G.Blank, G.ItemsText, G.ItemsValue, G.GoodItem, G.GoodNode, G.NodeText, G.NodeValue;
    var l := Lex(v, bad, p);
    var first := ParseValue(v, bad, l.token, l.at);
    ValueMoves(v, bad, p);
    var node := NodeOf(v, bad, p);
    var after := PunctOf(v, bad, first.at);
    var m := Lex(v, bad, first.at);
    Between(v, p, first.at, m.at);
    if m.token == TPunct(93) {
      items := [G.Item(node, after)];
      OneItem(node, after, done);
      Regroup(G.NodeText(node), after, [93]);
    } else {
      var rest := ItemsOf(v, bad, m.at, done + [first.value]);
      items := [G.Item(node, after)] + rest;
      MoreItems(node, after, rest, done);
      Between(v, p, m.at, ParseItems(v, bad, l.token, l.at, done).at);
      CommaText(G.NodeText(node), after, G.ItemsText(rest), [93]);
    }
  }

  lemma Between(v: seq<byte>, p: nat, q: nat, r: nat)
    requires p <= q <= r <= |v|
    ensures v[p..r] == v[p..q] + v[q..r]
  {
  }

  lemma Regroup(a: seq<byte>, b: seq<byte>, c: seq<byte>)
    ensures a + (b + c) == a + b + c
  {
  }

  lemma CommaText(a: seq<byte>, after: seq<byte>, rest: seq<byte>, close: seq<byte>)
    ensures a + (after + [44]) + (rest + close) == a + after + ([44] + rest) + close
  {
  }

  /** A value is at least one token long. */
  lemma ValueMoves(v: seq<byte>, bad: bool, p: nat)
    requires p <= |v| && Lex(v, bad, p).at <= |v| && ParseValue(v, bad, Lex(v, bad, p).token, Lex(v, bad, p).at).Parsed?
    ensures p < Lex(v, bad, p).at <= ParseValue(v, bad, Lex(v, bad, p).token, Lex(v, bad, p).at).at <= |v|
  {
    hide Lex, ParseArray, ParseObject;
  }

  lemma {:induction false} ObjectOf(v: seq<byte>, bad: bool, p: nat) returns (n: G.Node)
    requires p <= |v| && Lex(v, bad, p).token == TPunct(123) && ParseObject(v, bad, Lex(v, bad, p).at).Parsed?
    ensures var r := ParseObject(v, bad, Lex(v, bad, p).at);
      G.GoodNode(n) && n.Object? && p <= r.at && v[p..r.at] == G.NodeText(n) && G.NodeValue(n) == r.value
    decreases |v| - p, 0
  {
    hide Lex, ParseMembers, G.Blank, G.MembersText, G.MembersValue, G.GoodMember;
    var l := Lex(v, bad, p);
    var ws := PunctOf(v, bad, p);
    var m := Lex(v, bad, l.at);
    var r := ParseObject(v, bad, l.at);
    if m.token == TPunct(125) {
      var inside := PunctOf(v, bad, l.at);
      n := G.Object(ws, [], inside);
      NothingInside();
      BlankItems(ws, inside);
      assert v[p..r.at] == v[p..l.at] + v[l.at..r.at] == ws + ([123] + (inside + [125]));
    } else {
      var ms := MembersOf(v, bad, l.at, []);
      n := G.Object(ws, ms, []);
      BlankItems(ws, []);
      assert v[p..r.at] == v[p..l.at] + v[l.at..r.at] == ws + ([123] + (G.MembersText(ms) + [125]));
    }
  }

  lemma KeyOf(v: seq<byte>, bad: bool, p: nat) returns (ws: seq<byte>, ps: seq<G.Piece>)
    requires p <= |v| && Lex(v, bad, p).token.TString?
    ensures G.Blank(ws) && G.GoodPieces(ps) && Lex(v, bad, p).token == TString(G.PiecesValue(ps))
    ensures v[p..Lex(v, bad, p).at] == ws + ([34] + G.PiecesText(ps) + [34])
  {
    hide Lex, G.PiecesValue, G.PiecesText, G.GoodPieces, G.Blank;
    var l;
    ws, l := LeafOf(v, bad, p);
    ps := l.pieces;
  }

  lemma MoreMembers(m: G.Member, rest: seq<G.Member>, done: seq<Entry>)
    requires G.GoodMember(m) && forall i :: 0 <= i < |rest| ==> G.GoodMember(rest[i])
    ensures G.GoodPieces(m.key) && G.GoodNode(m.node)
    ensures var ms := [m] + rest; var done' := Put(done, G.PiecesValue(m.key), G.NodeValue(m.node));
      && (forall i :: 0 <= i < |ms| ==> G.GoodMember(ms[i]))
      && G.MembersText(ms) == (if rest == [] then G.MemberText(m) else G.MemberText(m) + ([44] + G.MembersText(rest)))
      && G.MembersValue(ms, done) == G.MembersValue(rest, done')
      && (rest == [] ==> G.MembersValue(ms, done) == done')
  {
    hide G.MemberText, G.NodeText, G.NodeValue, G.Blank, G.GoodNode, G.PiecesValue, G.GoodPieces, Put;
    var ms := [m] + rest;
    assert ms[1..] == rest;
  }

  /** One member, and the comma or bracket behind it. */
  lemma {:induction false} MemberOf(v: seq<byte>, bad: bool, p: nat) returns (m: G.Member)
    requires p <= |v| && Lex(v, bad, p).token.TString? && Lex(v, bad, Lex(v, bad, p).at).token == TPunct(58)
    requires var f := Lex(v, bad, Lex(v, bad, Lex(v, bad, p).at).at);
      && f.at <= |v| && ParseValue(v, bad, f.token, f.at).Parsed? && Lex(v, bad, ParseValue(v, bad, f.token, f.at).at).token.TPunct?
    ensures G.GoodMember(m) && G.GoodPieces(m.key) && G.GoodNode(m.node) && G.PiecesValue(m.key) == Lex(v, bad, p).token.text
    ensures var f := Lex(v, bad, Lex(v, bad, Lex(v, bad, p).at).at); var r := ParseValue(v, bad, f.token, f.at);
      && G.NodeValue(m.node) == r.value && p < Lex(v, bad, r.at).at && v[p..Lex(v, bad, r.at).at] == G.MemberText(m) + [Lex(v, bad, r.at).token.c]
    decreases |v| - p, 0
  {
    hide Lex, ParseValue, G.Blank, G.GoodNode, G.NodeText, G.NodeValue, G.PiecesValue, G.PiecesText, G.GoodPieces;
    var l := Lex(v, bad, p);
    var c := Lex(v, bad, l.at);
    var f := Lex(v, bad, c.at);
    ValueMoves(v, bad, c.at);
    var r := ParseValue(v, bad, f.token, f.at);
    var e := Lex(v, bad, r.at);
    var ws, key := KeyOf(v, bad, p);
    var colon := PunctOf(v, bad, l.at);
    var node := NodeOf(v, bad, c.at);
    var after := PunctOf(v, bad, r.at);
    m := G.Member(ws, key, colon, node, after);
    Between(v, p, l.at, e.at);
    Between(v, l.at, c.at, e.at);
    Between(v, c.at, r.at, e.at);
    MemberGrouped(ws + ([34] + G.PiecesText(key) + [34]), colon, G.NodeText(node), after, e.token.c);
    Regroup(ws, [34] + G.PiecesText(key) + [34], colon + ([58] + (G.NodeText(node) + after)));
  }

  lemma MemberGrouped(k: seq<byte>, colon: seq<byte>, x: seq<byte>, after: seq<byte>, c: byte)
    ensures k + (colon + [58] + (x + (after + [c]))) == k + (colon + ([58] + (x + after))) + [c]
  {
    assert colon + [58] + (x + (after + [c])) == (colon + ([58] + (x + after))) + [c];
  }

  lemma {:induction false} MembersOf(v: seq<byte>, bad: bool, p: nat, done: seq<Entry>) returns (ms: seq<G.Member>)
    requires p <= |v| && Lex(v, bad, p).at <= |v| && ParseMembers(v, bad, Lex(v, bad, p).token, Lex(v, bad, p).at, done).Parsed?
    ensures ms != [] && forall i :: 0 <= i < |ms| ==> G.GoodMember(ms[i])
    ensures var l := Lex(v, bad, p); var r := ParseMembers(v, bad, l.token, l.at, done);
      p <= r.at && v[p..r.at] == G.MembersText(ms) + [125] && r.value == Obj(G.MembersValue(ms, done))
    decreases |v| - p, 2
  {
    hide Lex, ParseValue, G.Blank, G.MembersText, G.MembersValue, G.GoodMember, G.GoodNode, G.NodeText, G.NodeValue, G.PiecesValue, G.PiecesText, G.GoodPieces,
      Put, G.MemberText;
    var l := Lex(v, bad, p);
    var f := Lex(v, bad, Lex(v, bad, l.at).at);
    var x := ParseValue(v, bad, f.token, f.at);
    var e := Lex(v, bad, x.at);
    var m := MemberOf(v, bad, p);
    if e.token == TPunct(125) {
      ms := [m] + [];
      MoreMembers(m, [], done);
    } else {
      var rest := MembersOf(v, bad, e.at, Put(done, l.token.text, x.value));
      ms := [m] + rest;
      MoreMembers(m, rest, done);
      Between(v, p, e.at, ParseMembers(v, bad, l.token, l.at, done).at);
      MembersGrouped(G.MemberText(m), G.MembersText(rest));
    }
  }

  lemma MembersGrouped(a: seq<byte>, rest: seq<byte>)
    ensures a + [44] + (rest + [125]) == a + ([44] + rest) + [125]
  {
  }

  // ---------- whole texts ----------

  /** A text is loaded as a value if and only if it is a document that stands for it. */
  lemma LoadIff(s: seq<byte>, x: Json)
    ensures Load(s) == Some(x) <==> G.Document(s, x)
  {
    if Load(s) == Some(x) {
      LoadedIsDocument(s, x);
    }
    if G.Document(s, x) {
      var n, end :| G.Spells(n, end, s, x);
      DocumentLoads(n, end, s, x);
    }
  }

  lemma DocumentLoads(n: G.Node, end: seq<byte>, s: seq<byte>, x: Json)
    requires G.Spells(n, end, s, x)
    ensures Load(s) == Some(x)
  {
    hide Lex, G.GoodNode, G.NodeText, G.NodeValue, G.Blank, ParseValue, Ends, Clean;
    assert Clean(s) == |s| && s[..|s|] == s;
    var q := |G.NodeText(n)|;
    assert s[0..q] == G.NodeText(n) && s[q..] == end;
    assert Ends(s, q) by { EndsInBlank(s, q, end); }
    NodeReads(s, false, 0, n);
    EndOf(s, false, q);
    assert Lex(s, false, 0).token == TPunct(91) || Lex(s, false, 0).token == TPunct(123) by { FirstToken(s, n); }
  }

  lemma EndsInBlank(s: seq<byte>, q: nat, end: seq<byte>)
    requires q <= |s| && s[q..] == end && G.Blank(end)
    ensures Ends(s, q)
  {
    assert q < |s| ==> s[q] == end[0];
  }

  lemma FirstToken(s: seq<byte>, n: G.Node)
    requires G.GoodNode(n) && !n.Atom? && Here(s, 0, G.NodeText(n))
    ensures Lex(s, false, 0).token == TPunct(91) || Lex(s, false, 0).token == TPunct(123)
  {
    hide Lex, G.GoodNode, G.NodeText, G.Blank, Here, G.ItemsText, G.MembersText, G.ItemsValue, G.MembersValue, G.NodeValue;
    if n.Array? {
      GoodArray(n);
      Opens(s, false, 0, n.ws, 91, (if n.items == [] then n.inside else G.ItemsText(n.items)) + [93]);
    } else {
      GoodObject(n);
      Opens(s, false, 0, n.ws, 123, (if n.members == [] then n.inside else G.MembersText(n.members)) + [125]);
    }
  }

  lemma LoadedIsDocument(s: seq<byte>, x: Json)
    requires Load(s) == Some(x)
    ensures G.Document(s, x)
  {
    hide Lex, ParseValue, G.GoodNode, G.NodeText, G.NodeValue, G.Blank, Clean;
    var v, bad := s[..Clean(s)], Clean(s) < |s|;
    var l := Lex(v, bad, 0);
    var r := ParseValue(v, bad, l.token, l.at);
    ValueMoves(v, bad, 0);
    EndOf(v, bad, r.at);
    assert v == s;
    var n := NodeOf(v, bad, 0);
    Between(v, 0, r.at, |v|);
    assert v[0..|v|] == v && v[r.at..|v|] == v[r.at..];
    assert G.Spells(n, v[r.at..], s, x);
  }
}
