/**
  The grammar of section 2 of RFC 4627 as a datatype: a document is a tree whose leaves are the very
  bytes of its text. `NodeText` spells it out and `NodeValue` says what it stands for. Two things are as
  jansson has them: a number must be an integer of 64 bits, and one NUL behind a number or a word is
  passed over.
 */
module JsonGrammar {
  import opened Bytes
  import opened JsonValues
  import Utf8

  /** A piece of a string: a byte, a short escape, \uXXXX, or a surrogate pair of these. */
  datatype Piece = Raw(b: byte) | Short(c: byte) | Unit(hex: seq<byte>) | Pair(high: seq<byte>, low: seq<byte>)

  /** A token other than punctuation. */
  datatype Leaf =
    | StringLeaf(pieces: seq<Piece>)
    | NumberLeaf(negative: bool, digits: seq<byte>, nul: bool)
    | TrueLeaf(nul: bool)
    | FalseLeaf(nul: bool)
    | NullLeaf(nul: bool)

  /** Every token has the blanks before it; `inside` are those of an empty array or object. */
  datatype Node =
    | Atom(ws: seq<byte>, leaf: Leaf)
    | Array(ws: seq<byte>, items: seq<Item>, inside: seq<byte>)
    | Object(ws: seq<byte>, members: seq<Member>, inside: seq<byte>)

  /** An element, and the blanks before the comma or bracket behind it. */
  datatype Item = Item(node: Node, after: seq<byte>)

  datatype Member = Member(ws: seq<byte>, key: seq<Piece>, colon: seq<byte>, node: Node, after: seq<byte>)

  // ---------- bytes ----------

  predicate Blank(s: seq<byte>) {
    forall i :: 0 <= i < |s| ==> s[i] == 32 || s[i] == 9 || s[i] == 10 || s[i] == 13
  }

  predicate Decimal(s: seq<byte>) {
    forall i :: 0 <= i < |s| ==> 48 <= s[i] <= 57
  }

  predicate Hexadecimal(b: byte) { 48 <= b <= 57 || 65 <= b <= 70 || 97 <= b <= 102 }

  predicate FourHex(s: seq<byte>) {
    |s| == 4 && forall i :: 0 <= i < 4 ==> Hexadecimal(s[i])
  }

  function HexOf(b: byte): (n: nat)
    requires Hexadecimal(b)
    ensures n < 16
  {
    if b <= 57 then b - 48 else if b <= 70 then b - 55 else b - 87
  }

  function UnitOf(s: seq<byte>): (n: nat)
    requires FourHex(s)
    ensures n < 0x1_0000
  {
    ((HexOf(s[0]) * 16 + HexOf(s[1])) * 16 + HexOf(s[2])) * 16 + HexOf(s[3])
  }

  function NumberOf(s: seq<byte>): nat
    requires Decimal(s)
  {
    if s == [] then 0 else NumberOf(s[..|s| - 1]) * 10 + (s[|s| - 1] - 48)
  }

  // ---------- strings ----------

  predicate GoodPiece(p: Piece) {
    match p
    case Raw(b) => b >= 0x20 && b != 34 && b != 92
    case Short(c) => c == 34 || c == 92 || c == 47 || c == 98 || c == 102 || c == 110 || c == 114 || c == 116
    case Unit(h) => FourHex(h) && UnitOf(h) != 0 && !(0xD800 <= UnitOf(h) <= 0xDFFF)
    case Pair(h, l) => FourHex(h) && FourHex(l) && 0xD800 <= UnitOf(h) <= 0xDBFF && 0xDC00 <= UnitOf(l) <= 0xDFFF
  }

  predicate GoodPieces(ps: seq<Piece>) {
    forall i :: 0 <= i < |ps| ==> GoodPiece(ps[i])
  }

  function PieceText(p: Piece): seq<byte> {
    match p
    case Raw(b) => [b]
    case Short(c) => [92, c]
    case Unit(h) => [92, 117] + h
    case Pair(h, l) => [92, 117] + h + ([92, 117] + l)
  }

  function PiecesText(ps: seq<Piece>): seq<byte> {
    if ps == [] then [] else PieceText(ps[0]) + PiecesText(ps[1..])
  }

  function PieceValue(p: Piece): seq<byte>
    requires GoodPiece(p)
  {
    match p
    case Raw(b) => [b]
    case Short(c) =>
      if c == 98 then [8] else if c == 102 then [12] else if c == 110 then [10] else if c == 114 then [13] else if c == 116 then [9] else [c]
    case Unit(h) => Utf8.EncodeCodePoint(UnitOf(h)).value
    case Pair(h, l) => Utf8.EncodeCodePoint(0x1_0000 + (UnitOf(h) - 0xD800) * 0x400 + (UnitOf(l) - 0xDC00)).value
  }

  function PiecesValue(ps: seq<Piece>): Text
    requires GoodPieces(ps)
  {
    if ps == [] then [] else PieceValue(ps[0]) + PiecesValue(ps[1..])
  }

  // ---------- leaves ----------

  function Nul(nul: bool): seq<byte> { if nul then [0] else [] }

  predicate GoodLeaf(l: Leaf) {
    match l
    case StringLeaf(ps) => GoodPieces(ps)
    case NumberLeaf(negative, ds, _) =>
      && ds != [] && Decimal(ds) && (ds[0] == 48 ==> |ds| == 1)
      && (if negative then NumberOf(ds) <= TWO63 else NumberOf(ds) < TWO63)
    case _ => true
  }

  function LeafText(l: Leaf): seq<byte> {
    match l
    case StringLeaf(ps) => [34] + PiecesText(ps) + [34]
    case NumberLeaf(negative, ds, nul) => (if negative then [45] else []) + ds + Nul(nul)
    case TrueLeaf(nul) => [116, 114, 117, 101] + Nul(nul)
    case FalseLeaf(nul) => [102, 97, 108, 115, 101] + Nul(nul)
    case NullLeaf(nul) => [110, 117, 108, 108] + Nul(nul)
  }

  function LeafValue(l: Leaf): Json
    requires GoodLeaf(l)
  {
    match l
    case StringLeaf(ps) => Str(PiecesValue(ps))
    case NumberLeaf(negative, ds, _) => Int(if negative then 0 - NumberOf(ds) else NumberOf(ds))
    case TrueLeaf(_) => True
    case FalseLeaf(_) => False
    case NullLeaf(_) => Null
  }

  // ---------- trees ----------

  predicate GoodNode(n: Node)
    decreases n, 0
  {
    match n
    case Atom(ws, l) => Blank(ws) && GoodLeaf(l)
    case Array(ws, items, inside) => Blank(ws) && Blank(inside) && forall i :: 0 <= i < |items| ==> GoodItem(items[i])
    case Object(ws, ms, inside) => Blank(ws) && Blank(inside) && forall i :: 0 <= i < |ms| ==> GoodMember(ms[i])
  }

  predicate GoodItem(i: Item)
    decreases i, 0
  {
    GoodNode(i.node) && Blank(i.after)
  }

  predicate GoodMember(m: Member)
    decreases m, 0
  {
    Blank(m.ws) && GoodPieces(m.key) && Blank(m.colon) && GoodNode(m.node) && Blank(m.after)
  }

  function NodeText(n: Node): seq<byte>
    decreases n, 0
  {
    match n
    case Atom(ws, l) => ws + LeafText(l)
    case Array(ws, items, inside) => ws + ([91] + ((if items == [] then inside else ItemsText(items)) + [93]))
    case Object(ws, ms, inside) => ws + ([123] + ((if ms == [] then inside else MembersText(ms)) + [125]))
  }

  function ItemsText(items: seq<Item>): seq<byte>
    requires items != []
    decreases items, 0
  {
    var first := NodeText(items[0].node) + items[0].after;
    if |items| == 1 then first else first + ([44] + ItemsText(items[1..]))
  }

  function MemberText(m: Member): seq<byte>
    decreases m, 1
  {
    m.ws + (([34] + PiecesText(m.key) + [34]) + (m.colon + ([58] + (NodeText(m.node) + m.after))))
  }

  function MembersText(ms: seq<Member>): seq<byte>
    requires ms != []
    decreases ms, 0
  {
    if |ms| == 1 then MemberText(ms[0]) else MemberText(ms[0]) + ([44] + MembersText(ms[1..]))
  }

  function NodeValue(n: Node): Json
    requires GoodNode(n)
    decreases n, 0
  {
    match n
    case Atom(_, l) => LeafValue(l)
    case Array(_, items, _) => Arr(ItemsValue(items, []))
    case Object(_, ms, _) => Obj(MembersValue(ms, []))
  }

  function ItemsValue(items: seq<Item>, done: seq<Json>): seq<Json>
    requires forall i :: 0 <= i < |items| ==> GoodItem(items[i])
    decreases items, 0
  {
    if items == [] then done
    else
      assert GoodItem(items[0]);
      ItemsValue(items[1..], done + [NodeValue(items[0].node)])
  }

  /** A key that comes again takes the last value. */
  function MembersValue(ms: seq<Member>, done: seq<Entry>): seq<Entry>
    requires forall i :: 0 <= i < |ms| ==> GoodMember(ms[i])
    decreases ms, 0
  {
    if ms == [] then done
    else
      assert GoodMember(ms[0]);
      MembersValue(ms[1..], Put(done, PiecesValue(ms[0].key), NodeValue(ms[0].node)))
  }

  /** A document: an array or object, and blanks behind it. */
  ghost predicate Document(s: seq<byte>, x: Json) {
    exists n: Node, end: seq<byte> :: Spells(n, end, s, x)
  }

  ghost predicate Spells(n: Node, end: seq<byte>, s: seq<byte>, x: Json) {
    GoodNode(n) && !n.Atom? && Blank(end) && s == NodeText(n) + end && NodeValue(n) == x && Utf8.IsUtf8(s)
  }
}
