/**
  Red-black trees as values, and places in them (deps/uv/include/uv-private/tree.h). A place is a
  subtree with its surroundings, and the fix-up loops move from place to place; what they do to the
  tree at one turn of a loop is a function here.
 */
module RbTrees {
  /** Nodes are numbers; 0 is the null pointer. */
  datatype Tree = Leaf | Node(left: Tree, id: nat, red: bool, right: Tree)

  /** What surrounds a subtree: the left, or the right, child of a node in a context. */
  datatype Ctx =
    | Top
    | InLeft(up: Ctx, id: nat, red: bool, right: Tree)
    | InRight(up: Ctx, id: nat, red: bool, left: Tree)

  datatype Place = Place(ctx: Ctx, tree: Tree)

  function Root(t: Tree): nat { if t.Leaf? then 0 else t.id }

  function ParentId(c: Ctx): nat { if c.Top? then 0 else c.id }

  predicate IsRed(t: Tree) { t.Node? && t.red }

  function Painted(t: Tree, red: bool): Tree { if t.Leaf? then Leaf else t.(red := red) }

  function Sibling(c: Ctx): Tree
    requires !c.Top?
  {
    if c.InLeft? then c.right else c.left
  }

  /** The subtree of the parent. */
  function Outer(c: Ctx, t: Tree): Tree
    requires !c.Top?
  {
    if c.InLeft? then Node(t, c.id, c.red, c.right) else Node(c.left, c.id, c.red, t)
  }

  function Plug(c: Ctx, t: Tree): Tree {
    if c.Top? then t else Plug(c.up, Outer(c, t))
  }

  function Depth(c: Ctx): nat {
    if c.Top? then 0 else Depth(c.up) + 1
  }

  function Ids(t: Tree): set<nat> {
    if t.Leaf? then {} else Ids(t.left) + {t.id} + Ids(t.right)
  }

  function CtxIds(c: Ctx): set<nat> {
    if c.Top? then {} else CtxIds(c.up) + {c.id} + Ids(Sibling(c))
  }

  /** No node occurs twice, and none is null. */
  ghost predicate Tidy(t: Tree) {
    t.Node? ==>
      && t.id != 0 && Tidy(t.left) && Tidy(t.right)
      && t.id !in Ids(t.left) && t.id !in Ids(t.right) && Ids(t.left) !! Ids(t.right)
  }

  ghost predicate TidyCtx(c: Ctx) {
    !c.Top? ==>
      && c.id != 0 && TidyCtx(c.up) && Tidy(Sibling(c))
      && c.id !in CtxIds(c.up) && c.id !in Ids(Sibling(c)) && CtxIds(c.up) !! Ids(Sibling(c))
  }

  ghost predicate TidyPlace(c: Ctx, t: Tree) {
    Tidy(t) && TidyCtx(c) && Ids(t) !! CtxIds(c)
  }

  // ---------- order ----------

  function InOrder(t: Tree): seq<nat> {
    if t.Leaf? then [] else InOrder(t.left) + [t.id] + InOrder(t.right)
  }

  /** The nodes before, and after, those of the subtree. */
  function Before(c: Ctx): seq<nat> {
    match c
    case Top => []
    case InLeft(up, _, _, _) => Before(up)
    case InRight(up, y, _, l) => Before(up) + InOrder(l) + [y]
  }

  function After(c: Ctx): seq<nat> {
    match c
    case Top => []
    case InLeft(up, y, _, r) => [y] + InOrder(r) + After(up)
    case InRight(up, _, _, _) => After(up)
  }

  function Elems(c: Ctx, t: Tree): seq<nat> {
    Before(c) + InOrder(t) + After(c)
  }

  lemma UpElems(c: Ctx, t: Tree)
    requires !c.Top?
    ensures Elems(c.up, Outer(c, t)) == Elems(c, t)
  {
    if c.InLeft? {
      assert InOrder(Outer(c, t)) == InOrder(t) + [c.id] + InOrder(c.right);
      assert After(c) == [c.id] + InOrder(c.right) + After(c.up);
    } else {
      assert InOrder(Outer(c, t)) == InOrder(c.left) + [c.id] + InOrder(t);
    }
  }

  lemma {:induction false} PlugElems(c: Ctx, t: Tree)
    ensures InOrder(Plug(c, t)) == Elems(c, t)
  {
    if !c.Top? {
      PlugElems(c.up, Outer(c, t));
      UpElems(c, t);
    } else {
      assert Elems(c, t) == InOrder(t);
    }
  }

  // ---------- colour and height ----------

  /** The number of black nodes on the leftmost path. */
  function BlackHeight(t: Tree): nat {
    if t.Leaf? then 0 else BlackHeight(t.left) + if t.red then 0 else 1
  }

  ghost predicate Balanced(t: Tree) {
    t.Node? ==> Balanced(t.left) && Balanced(t.right) && BlackHeight(t.left) == BlackHeight(t.right)
  }

  ghost predicate NoRedRed(t: Tree) {
    t.Node? ==> NoRedRed(t.left) && NoRedRed(t.right) && (t.red ==> !IsRed(t.left) && !IsRed(t.right))
  }

  /** A red-black tree: a black root, no red node with a red child, the same number of black nodes on every path. */
  ghost predicate RedBlack(t: Tree) {
    Balanced(t) && NoRedRed(t) && !IsRed(t)
  }

  /** The context is balanced around a subtree of black height `h`. */
  ghost predicate BalancedAround(c: Ctx, h: int) {
    !c.Top? ==> Balanced(Sibling(c)) && BlackHeight(Sibling(c)) == h && BalancedAround(c.up, h + if c.red then 0 else 1)
  }

  /** No red node of the context has a red child, were the root of the subtree as `red` says. */
  ghost predicate NoRedRedAround(c: Ctx, red: bool) {
    !c.Top? ==>
      && NoRedRed(Sibling(c)) && (c.red ==> !red && !IsRed(Sibling(c)))
      && NoRedRedAround(c.up, c.red)
  }

  ghost predicate TopBlack(c: Ctx) {
    !c.Top? ==> (if c.up.Top? then !c.red else TopBlack(c.up))
  }

  lemma {:induction false} PlugRedBlack(c: Ctx, t: Tree)
    requires Balanced(t) && NoRedRed(t) && BalancedAround(c, BlackHeight(t)) && NoRedRedAround(c, IsRed(t)) && TopBlack(c)
    requires c.Top? ==> !IsRed(t)
    ensures RedBlack(Plug(c, t))
  {
    if !c.Top? {
      assert BlackHeight(Outer(c, t)) == BlackHeight(t) + if c.red then 0 else 1;
      PlugRedBlack(c.up, Outer(c, t));
    }
  }

  lemma {:induction false} PlaceOfRedBlack(c: Ctx, t: Tree)
    requires RedBlack(Plug(c, t))
    ensures Balanced(t) && NoRedRed(t) && BalancedAround(c, BlackHeight(t)) && NoRedRedAround(c, IsRed(t)) && TopBlack(c)
    ensures c.Top? ==> !IsRed(t)
  {
    if !c.Top? {
      PlaceOfRedBlack(c.up, Outer(c, t));
    }
  }

  // ---------- insertion ----------

  /** A red node was put in place of a subtree: only it and its parent may both be red. */
  ghost predicate Raised(c: Ctx, t: Tree) {
    && IsRed(t) && Balanced(t) && NoRedRed(t)
    && BalancedAround(c, BlackHeight(t)) && NoRedRedAround(c, false) && TopBlack(c)
  }

  predicate RedParent(c: Ctx) { !c.Top? && c.red }

  /** An inner grandchild is first rotated to the outside; the former parent is then the one to look at. */
  function TurnOut(c: Ctx, t: Tree): Place
    requires !c.Top? && !c.up.Top? && t.Node?
  {
    if c.up.InLeft? && c.InRight? then
      Place(InLeft(c.up, t.id, t.red, t.right), Node(c.left, c.id, c.red, t.left))
    else if c.up.InRight? && c.InLeft? then
      Place(InRight(c.up, t.id, t.red, t.left), Node(t.right, c.id, c.red, c.right))
    else Place(c, t)
  }

  /** The parent is painted black and rotated above the grandparent, which is painted red. */
  function TurnOver(c: Ctx, t: Tree): Place
    requires !c.Top? && !c.up.Top? && c.InLeft? == c.up.InLeft?
  {
    var g := c.up;
    if c.InLeft? then Place(InLeft(g.up, c.id, false, Node(c.right, g.id, true, g.right)), t)
    else Place(InRight(g.up, c.id, false, Node(g.left, g.id, true, c.left)), t)
  }

  /** The parent and its sibling are painted black, the grandparent red. */
  function Repaint(c: Ctx, t: Tree): Place
    requires !c.Top? && !c.up.Top?
  {
    var g := c.up;
    var p := Painted(Outer(c, t), false);
    if g.InLeft? then Place(g.up, Node(p, g.id, true, Painted(g.right, false)))
    else Place(g.up, Node(Painted(g.left, false), g.id, true, p))
  }

  /** One turn of the loop of RB_INSERT_COLOR. */
  function InsertTurn(c: Ctx, t: Tree): Place
    requires !c.Top? && !c.up.Top? && t.Node?
  {
    if IsRed(Sibling(c.up)) then Repaint(c, t)
    else
      var q := TurnOut(c, t);
      TurnOver(q.ctx, q.tree)
  }

  /** A red parent has a parent. */
  lemma RedHasParent(c: Ctx)
    requires TopBlack(c) && RedParent(c)
    ensures !c.up.Top?
  {
  }

  lemma RepaintKeeps(c: Ctx, t: Tree)
    requires Raised(c, t) && RedParent(c) && !c.up.Top? && IsRed(Sibling(c.up))
    ensures var q := Repaint(c, t); Raised(q.ctx, q.tree)
  {
    var g, u := c.up, Sibling(c.up);
    assert BalancedAround(g, BlackHeight(t)) && NoRedRedAround(g, true) && TopBlack(g);
    assert Balanced(u) && NoRedRed(u);
    assert Balanced(Painted(u, false)) && NoRedRed(Painted(u, false)) && BlackHeight(Painted(u, false)) == BlackHeight(t) + 1;
    var p := Painted(Outer(c, t), false);
    assert Balanced(p) && NoRedRed(p) && BlackHeight(p) == BlackHeight(t) + 1;
  }

  lemma TurnOutKeeps(c: Ctx, t: Tree)
    requires Raised(c, t) && RedParent(c) && !c.up.Top? && !IsRed(Sibling(c.up))
    ensures var q := TurnOut(c, t);
      && Raised(q.ctx, q.tree) && RedParent(q.ctx) && q.ctx.up == c.up && q.ctx.InLeft? == c.up.InLeft?
  {
  }

  lemma TurnOverKeeps(c: Ctx, t: Tree)
    requires Raised(c, t) && RedParent(c) && !c.up.Top? && !IsRed(Sibling(c.up)) && c.InLeft? == c.up.InLeft?
    ensures var q := TurnOver(c, t); Raised(q.ctx, q.tree)
  {
    var g, q := c.up, TurnOver(c, t);
    assert BalancedAround(g, BlackHeight(t)) && NoRedRedAround(g, true) && TopBlack(g);
    assert Balanced(Sibling(c)) && NoRedRed(Sibling(c)) && Balanced(Sibling(g)) && NoRedRed(Sibling(g));
    assert Balanced(Sibling(q.ctx)) && NoRedRed(Sibling(q.ctx)) && BlackHeight(Sibling(q.ctx)) == BlackHeight(t);
  }

  lemma RepaintElems(c: Ctx, t: Tree)
    requires !c.Top? && !c.up.Top?
    ensures var q := Repaint(c, t); Elems(q.ctx, q.tree) == Elems(c, t)
  {
    UpElems(c, t);
    UpElems(c.up, Outer(c, t));
    assert InOrder(Repaint(c, t).tree) == InOrder(Outer(c.up, Outer(c, t)));
  }

  lemma TurnOutElems(c: Ctx, t: Tree)
    requires !c.Top? && !c.up.Top? && t.Node?
    ensures var q := TurnOut(c, t); Elems(q.ctx, q.tree) == Elems(c, t)
  {
    var q := TurnOut(c, t);
    UpElems(c, t);
    UpElems(q.ctx, q.tree);
    if c.up.InLeft? && c.InRight? {
      RotationElems(c.left, c.id, c.red, t.left, t.id, t.red, t.right);
    } else if c.up.InRight? && c.InLeft? {
      RotationElems(t.left, t.id, t.red, t.right, c.id, c.red, c.right);
    }
  }

  /** A rotation does not change the order, whatever the colours. */
  lemma RotationElems(a: Tree, x: nat, rx: bool, b: Tree, y: nat, ry: bool, d: Tree)
    ensures InOrder(Node(a, x, rx, Node(b, y, ry, d))) == InOrder(Node(Node(a, x, rx, b), y, ry, d))
  {
    assert InOrder(Node(Node(a, x, rx, b), y, ry, d)) == InOrder(a) + [x] + InOrder(b) + [y] + InOrder(d);
  }

  lemma ColoursDoNotMatter(t: Tree, red: bool)
    ensures InOrder(Painted(t, red)) == InOrder(t) && Ids(Painted(t, red)) == Ids(t)
  {
  }

  lemma TurnOverElems(c: Ctx, t: Tree)
    requires !c.Top? && !c.up.Top? && c.InLeft? == c.up.InLeft?
    ensures var q := TurnOver(c, t); Elems(q.ctx, q.tree) == Elems(c, t)
  {
    var q, g := TurnOver(c, t), c.up;
    UpElems(c, t);
    UpElems(g, Outer(c, t));
    UpElems(q.ctx, q.tree);
    if c.InLeft? {
      RotationElems(t, c.id, false, c.right, g.id, true, g.right);
      ColoursDoNotMatter(Outer(c, t), false);
      assert InOrder(Outer(g, Outer(c, t))) == InOrder(Node(Node(t, c.id, false, c.right), g.id, true, g.right));
    } else {
      RotationElems(g.left, g.id, true, c.left, c.id, false, t);
      assert InOrder(Outer(g, Outer(c, t))) == InOrder(Node(g.left, g.id, true, Node(c.left, c.id, false, t)));
    }
  }

  /** One turn keeps the order of all nodes and what is known of colours and heights, and moves up. */
  lemma InsertTurnKeeps(c: Ctx, t: Tree)
    requires Raised(c, t) && RedParent(c)
    ensures !c.up.Top?
    ensures var q := InsertTurn(c, t); Raised(q.ctx, q.tree) && Elems(q.ctx, q.tree) == Elems(c, t) && Depth(q.ctx) < Depth(c)
  {
    RedHasParent(c);
    if IsRed(Sibling(c.up)) {
      RepaintKeeps(c, t);
      RepaintElems(c, t);
    } else {
      TurnOutKeeps(c, t);
      TurnOutElems(c, t);
      var q := TurnOut(c, t);
      TurnOverKeeps(q.ctx, q.tree);
      TurnOverElems(q.ctx, q.tree);
    }
  }

  // ---------- removal ----------

  /** A subtree lacks one black node on every path; its root, when red, is to become black. */
  ghost predicate Lacking(c: Ctx, t: Tree) {
    && Balanced(t) && NoRedRed(Painted(t, false))
    && BalancedAround(c, BlackHeight(t) + 1) && NoRedRedAround(c, false) && TopBlack(c)
  }

  /** A red sibling is painted black and rotated above the parent, which is painted red. */
  function LiftSibling(c: Ctx): Ctx
    requires !c.Top? && Sibling(c).Node?
  {
    var s := Sibling(c);
    if !s.red then c
    else if c.InLeft? then InLeft(InLeft(c.up, s.id, false, s.right), c.id, true, s.left)
    else InRight(InRight(c.up, s.id, false, s.left), c.id, true, s.right)
  }

  predicate BlackChildren(s: Tree)
    requires s.Node?
  {
    !IsRed(s.left) && !IsRed(s.right)
  }

  /** The sibling is painted red, and the parent is the next to look at. */
  function PassUp(c: Ctx, t: Tree): Place
    requires !c.Top?
  {
    Place(c.up, if c.InLeft? then Node(t, c.id, c.red, Painted(c.right, true)) else Node(Painted(c.left, true), c.id, c.red, t))
  }

  /** When the sibling's far child is black, its near child is painted black and rotated above it. */
  function TurnNear(c: Ctx): Ctx
    requires !c.Top? && Sibling(c).Node? && !BlackChildren(Sibling(c))
  {
    var s := Sibling(c);
    if c.InLeft? then
      if IsRed(s.right) then c
      else c.(right := Node(s.left.left, s.left.id, false, Node(s.left.right, s.id, true, s.right)))
    else
      if IsRed(s.left) then c
      else c.(left := Node(Node(s.left, s.id, true, s.right.left), s.right.id, false, s.right.right))
  }

  /** The sibling takes the place and the colour of the parent; its far child and the parent become black. */
  function TurnFar(c: Ctx, t: Tree): Place
    requires !c.Top? && Sibling(c).Node?
  {
    var s := Sibling(c);
    if c.InLeft? then Place(c.up, Node(Node(t, c.id, false, s.left), s.id, c.red, Painted(s.right, false)))
    else Place(c.up, Node(Painted(s.left, false), s.id, c.red, Node(s.right, c.id, false, t)))
  }

  /** The sibling of a subtree that lacks a black node is there. */
  lemma LackingHasSibling(c: Ctx, t: Tree)
    requires Lacking(c, t) && !c.Top?
    ensures Sibling(c).Node?
  {
  }

  lemma LiftKeeps(c: Ctx, t: Tree)
    requires Lacking(c, t) && !c.Top? && Sibling(c).Node?
    ensures var d := LiftSibling(c);
      && Lacking(d, t) && !d.Top? && Sibling(d).Node? && !Sibling(d).red && d.InLeft? == c.InLeft?
      && Elems(d, t) == Elems(c, t)
      && (if Sibling(c).red then Depth(d.up) == Depth(c) && d.red else d == c)
  {
    var d := LiftSibling(c);
    if Sibling(c).red {
      LiftElems(c, t);
      assert Sibling(d).Node? by { if c.InLeft? { assert BlackHeight(c.right.left) == BlackHeight(t) + 1; } }
    }
  }

  lemma LiftElems(c: Ctx, t: Tree)
    requires !c.Top? && Sibling(c).Node? && Sibling(c).red
    ensures Elems(LiftSibling(c), t) == Elems(c, t)
  {
    var s, d := Sibling(c), LiftSibling(c);
    UpElems(c, t);
    UpElems(d, t);
    UpElems(d.up, Outer(d, t));
    if c.InLeft? {
      RotationElems(t, c.id, true, s.left, s.id, false, s.right);
      assert InOrder(Outer(c, t)) == InOrder(Node(t, c.id, true, Node(s.left, s.id, false, s.right)));
    } else {
      RotationElems(s.left, s.id, false, s.right, c.id, true, t);
      assert InOrder(Outer(c, t)) == InOrder(Node(Node(s.left, s.id, false, s.right), c.id, true, t));
    }
  }

  lemma PassUpKeeps(c: Ctx, t: Tree)
    requires Lacking(c, t) && !IsRed(t) && !c.Top? && Sibling(c).Node? && !Sibling(c).red && BlackChildren(Sibling(c))
    ensures var q := PassUp(c, t); Lacking(q.ctx, q.tree) && Elems(q.ctx, q.tree) == Elems(c, t)
  {
    UpElems(c, t);
    ColoursDoNotMatter(Sibling(c), true);
    assert Painted(t, false) == t;
    assert NoRedRedAround(c.up, c.red) && Balanced(Sibling(c)) && NoRedRed(Sibling(c));
    assert Balanced(Painted(Sibling(c), true)) && NoRedRed(Painted(Sibling(c), true));
    assert InOrder(PassUp(c, t).tree) == InOrder(Outer(c, t));
  }

  lemma TurnNearKeeps(c: Ctx, t: Tree)
    requires Lacking(c, t) && !c.Top? && Sibling(c).Node? && !Sibling(c).red && !BlackChildren(Sibling(c))
    ensures var d := TurnNear(c); var s := Sibling(d);
      && Lacking(d, t) && d.up == c.up && d.InLeft? == c.InLeft?
      && s.Node? && !s.red && (if d.InLeft? then IsRed(s.right) else IsRed(s.left))
      && Elems(d, t) == Elems(c, t)
  {
    var d, s := TurnNear(c), Sibling(c);
    UpElems(c, t);
    UpElems(d, t);
    if c.InLeft? && !IsRed(s.right) {
      NearLeft(s);
    } else if c.InRight? && !IsRed(s.left) {
      NearRight(s);
    }
  }

  lemma NearLeft(s: Tree)
    requires Balanced(s) && NoRedRed(s) && s.Node? && !s.red && IsRed(s.left) && !IsRed(s.right)
    ensures var u := Node(s.left.left, s.left.id, false, Node(s.left.right, s.id, true, s.right));
      Balanced(u) && NoRedRed(u) && BlackHeight(u) == BlackHeight(s) && InOrder(u) == InOrder(s)
  {
    var l := s.left;
    assert Balanced(l) && NoRedRed(l);
    var r := Node(l.right, s.id, true, s.right);
    assert Balanced(r) && NoRedRed(r) && BlackHeight(r) == BlackHeight(l);
    RotationElems(l.left, l.id, l.red, l.right, s.id, s.red, s.right);
    RotationElems(l.left, l.id, false, l.right, s.id, true, s.right);
  }

  lemma NearRight(s: Tree)
    requires Balanced(s) && NoRedRed(s) && s.Node? && !s.red && IsRed(s.right) && !IsRed(s.left)
    ensures var u := Node(Node(s.left, s.id, true, s.right.left), s.right.id, false, s.right.right);
      Balanced(u) && NoRedRed(u) && BlackHeight(u) == BlackHeight(s) && InOrder(u) == InOrder(s)
  {
    var r := s.right;
    assert Balanced(r) && NoRedRed(r);
    var l := Node(s.left, s.id, true, r.left);
    assert Balanced(l) && NoRedRed(l) && BlackHeight(l) == BlackHeight(r);
    RotationElems(s.left, s.id, s.red, r.left, r.id, r.red, r.right);
    RotationElems(s.left, s.id, true, r.left, r.id, false, r.right);
  }

  /** Nothing is lacking any more. */
  lemma TurnFarMends(c: Ctx, t: Tree)
    requires Lacking(c, t) && !IsRed(t) && !c.Top? && Sibling(c).Node? && !Sibling(c).red
    requires if c.InLeft? then IsRed(c.right.right) else IsRed(c.left.left)
    ensures var q := TurnFar(c, t); RedBlack(Plug(q.ctx, q.tree)) && Elems(q.ctx, q.tree) == Elems(c, t)
  {
    var q, s := TurnFar(c, t), Sibling(c);
    UpElems(c, t);
    TurnFarHeights(c, t);
    PlugRedBlack(q.ctx, q.tree);
    if c.InLeft? {
      RotationElems(t, c.id, false, s.left, s.id, c.red, s.right);
      ColoursDoNotMatter(s.right, false);
      assert InOrder(Outer(c, t)) == InOrder(Node(t, c.id, false, Node(s.left, s.id, c.red, s.right)));
      assert InOrder(q.tree) == InOrder(Node(Node(t, c.id, false, s.left), s.id, c.red, s.right));
    } else {
      RotationElems(s.left, s.id, c.red, s.right, c.id, false, t);
      ColoursDoNotMatter(s.left, false);
      assert InOrder(Outer(c, t)) == InOrder(Node(Node(s.left, s.id, c.red, s.right), c.id, false, t));
      assert InOrder(q.tree) == InOrder(Node(s.left, s.id, c.red, Node(s.right, c.id, false, t)));
    }
  }

  lemma TurnFarHeights(c: Ctx, t: Tree)
    requires Lacking(c, t) && !IsRed(t) && !c.Top? && Sibling(c).Node? && !Sibling(c).red
    requires if c.InLeft? then IsRed(c.right.right) else IsRed(c.left.left)
    ensures var q := TurnFar(c, t);
      && Balanced(q.tree) && NoRedRed(q.tree) && BalancedAround(q.ctx, BlackHeight(q.tree)) && NoRedRedAround(q.ctx, IsRed(q.tree))
      && TopBlack(q.ctx) && (q.ctx.Top? ==> !IsRed(q.tree))
  {
    var s, h := Sibling(c), BlackHeight(t);
    assert Painted(t, false) == t;
    assert Balanced(s.left) && Balanced(s.right) && NoRedRed(s.left) && NoRedRed(s.right) && BlackHeight(s.left) == h == BlackHeight(s.right);
    var far := if c.InLeft? then s.right else s.left;
    var f := Painted(far, false);
    assert Balanced(far) && NoRedRed(far);
    assert Balanced(f) && NoRedRed(f) && BlackHeight(f) == h + 1;
    var near := if c.InLeft? then Node(t, c.id, false, s.left) else Node(s.right, c.id, false, t);
    assert Balanced(near) && NoRedRed(near) && BlackHeight(near) == h + 1;
  }

  /** A red root, or the root of all, painted black makes up for what is lacking. */
  lemma BlackenMends(c: Ctx, t: Tree)
    requires Lacking(c, t) && (IsRed(t) || c.Top?)
    ensures RedBlack(Plug(c, Painted(t, false))) && Elems(c, Painted(t, false)) == Elems(c, t)
  {
    ColoursDoNotMatter(t, false);
    if !c.Top? {
      PlugRedBlack(c, Painted(t, false));
    }
  }

  // ---------- the place of a removed node ----------

  /** A node with at most one child is replaced by the child. */
  lemma UnlinkColours(c: Ctx, t: Tree, child: Tree)
    requires RedBlack(Plug(c, t)) && t.Node?
    requires child == (if t.left.Leaf? then t.right else t.left) && (t.left.Leaf? || t.right.Leaf?)
    ensures if t.red then RedBlack(Plug(c, child)) else Lacking(c, child)
    ensures Elems(c, t) == Before(c) + (if t.left.Leaf? then [t.id] + InOrder(child) else InOrder(child) + [t.id]) + After(c)
  {
    hide Plug, Elems, Before, After, InOrder, Balanced, NoRedRed, BlackHeight, BalancedAround, NoRedRedAround, TopBlack;
    PlaceOfRedBlack(c, t);
    UnlinkBalance(t, child);
    BlackFitsAnywhere(c, t.red);
    if t.red {
      PlugRedBlack(c, child);
    } else {
      assert NoRedRed(Painted(child, false)) by { PaintedBlack(child); }
    }
    UnlinkElems(c, t, child);
  }

  lemma PaintedBlack(t: Tree)
    requires NoRedRed(t)
    ensures NoRedRed(Painted(t, false))
  {
  }

  lemma UnlinkBalance(t: Tree, child: Tree)
    requires Balanced(t) && NoRedRed(t) && t.Node?
    requires child == (if t.left.Leaf? then t.right else t.left) && (t.left.Leaf? || t.right.Leaf?)
    ensures Balanced(child) && NoRedRed(child) && BlackHeight(t) == BlackHeight(child) + (if t.red then 0 else 1)
    ensures t.red ==> !IsRed(child) && child.Leaf?
  {
  }

  lemma BlackFitsAnywhere(c: Ctx, red: bool)
    requires NoRedRedAround(c, red)
    ensures NoRedRedAround(c, false)
  {
  }

  lemma UnlinkElems(c: Ctx, t: Tree, child: Tree)
    requires t.Node? && child == (if t.left.Leaf? then t.right else t.left) && (t.left.Leaf? || t.right.Leaf?)
    ensures Elems(c, t) == Before(c) + (if t.left.Leaf? then [t.id] + InOrder(child) else InOrder(child) + [t.id]) + After(c)
  {
    hide Before, After;
    assert t.left.Leaf? ==> InOrder(t) == [t.id] + InOrder(t.right);
    assert t.right.Leaf? ==> InOrder(t) == InOrder(t.left) + [t.id];
  }

  /** The place from which one came down left branches only. */
  function Base(c: Ctx): Ctx {
    if c.InLeft? then Base(c.up) else c
  }

  function Rebased(c: Ctx, b: Ctx): Ctx {
    if c.InLeft? then InLeft(Rebased(c.up, b), c.id, c.red, c.right) else b
  }

  function Renamed(b: Ctx, x: nat): (r: Ctx)
    requires b.InRight?
    ensures r.InRight? && r.up == b.up && r.left == b.left && r.red == b.red && r.id == x
  {
    InRight(b.up, x, b.red, b.left)
  }

  /** The subtree at the base. */
  function Inner(c: Ctx, t: Tree): Tree {
    if c.InLeft? then Inner(c.up, Outer(c, t)) else t
  }

  lemma {:induction false} RebasedColours(c: Ctx, x: nat, h: int, red: bool)
    requires Base(c).InRight?
    ensures var c' := Rebased(c, Renamed(Base(c), x));
      && (BalancedAround(c', h) <==> BalancedAround(c, h))
      && (NoRedRedAround(c', red) <==> NoRedRedAround(c, red))
      && (TopBlack(c') <==> TopBlack(c)) && c'.Top? == c.Top?
  {
    if c.InLeft? {
      RebasedColours(c.up, x, h + if c.red then 0 else 1, c.red);
    }
  }

  /** The node at the base, and the first one after it, which are next to each other. */
  lemma {:induction false} RebasedOrder(c: Ctx, x: nat)
    requires Base(c).InRight?
    ensures var b := Base(c); var c' := Rebased(c, Renamed(b, x));
      && Before(c) == Before(b.up) + InOrder(b.left) + [b.id] && Before(c') == Before(b.up) + InOrder(b.left) + [x]
      && After(c') == After(c)
  {
    if c.InLeft? {
      RebasedOrder(c.up, x);
    }
  }

  lemma {:induction false} RebasedInner(c: Ctx, b: Ctx, t: Tree)
    requires Base(c).InRight? && b.InRight?
    ensures Inner(Rebased(c, b), t) == Inner(c, t) && Base(Rebased(c, b)) == b
    ensures ParentId(Rebased(c, b)) == if c.InLeft? then c.id else b.id
  {
    if c.InLeft? {
      RebasedInner(c.up, b, Outer(c, t));
    }
  }

  lemma {:induction false} InnerIds(c: Ctx, t: Tree)
    ensures Ids(Inner(c, t)) + CtxIds(Base(c)) == Ids(t) + CtxIds(c)
  {
    if c.InLeft? {
      InnerIds(c.up, Outer(c, t));
    }
  }

  lemma {:induction false} InnerPlug(c: Ctx, t: Tree)
    ensures Plug(Base(c), Inner(c, t)) == Plug(c, t)
  {
    if c.InLeft? {
      InnerPlug(c.up, Outer(c, t));
    }
  }

  // ---------- finding ----------

  /** The place of a node. */
  ghost function Find(c: Ctx, t: Tree, x: nat): (q: Place)
    requires x in Ids(t)
    ensures q.tree.Node? && q.tree.id == x && Plug(q.ctx, q.tree) == Plug(c, t)
    decreases t
  {
    if t.id == x then Place(c, t)
    else if x in Ids(t.left) then Find(InLeft(c, t.id, t.red, t.right), t.left, x)
    else Find(InRight(c, t.id, t.red, t.left), t.right, x)
  }

  lemma {:induction false} IdsAreElems(t: Tree, x: nat)
    ensures x in Ids(t) <==> x in InOrder(t)
  {
    if t.Node? {
      IdsAreElems(t.left, x);
      IdsAreElems(t.right, x);
    }
  }

  lemma {:induction false} CtxIdsAreElems(c: Ctx, x: nat)
    ensures x in CtxIds(c) <==> x in Before(c) || x in After(c)
  {
    if !c.Top? {
      IdsAreElems(Sibling(c), x);
      CtxIdsAreElems(c.up, x);
    }
  }
}
