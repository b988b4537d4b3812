/**
  The red-black tree in memory: cells with left, right and parent pointers and a colour
  (deps/uv/include/uv-private/tree.h:323-448, 451-626). The methods write one pointer at a time.
 */
module RbHeap {
  import opened RbTrees

  datatype Cell = Cell(left: nat, right: nat, parent: nat, red: bool)

  type Heap = map<nat, Cell>

  /** The cells at `Root(t)` and below make up `t`, hanging from `p`. */
  ghost predicate Rep(h: Heap, t: Tree, p: nat) {
    t.Node? ==>
      && t.id in h && h[t.id] == Cell(Root(t.left), Root(t.right), p, t.red)
      && Rep(h, t.left, t.id) && Rep(h, t.right, t.id)
  }

  /** The cells around a subtree with root `x` make up `c`. */
  ghost predicate RepCtx(h: Heap, root: nat, c: Ctx, x: nat) {
    if c.Top? then root == x
    else
      && c.id in h
      && h[c.id] == (if c.InLeft? then Cell(x, Root(c.right), ParentId(c.up), c.red) else Cell(Root(c.left), x, ParentId(c.up), c.red))
      && Rep(h, Sibling(c), c.id) && RepCtx(h, root, c.up, c.id)
  }

  /** Memory holds the tree that has `t` at the place `c`, with all pointers in order. */
  ghost predicate Shape(h: Heap, root: nat, c: Ctx, t: Tree) {
    TidyPlace(c, t) && Rep(h, t, ParentId(c)) && RepCtx(h, root, c, Root(t))
  }

  lemma {:induction false} Frame(h: Heap, h': Heap, t: Tree, p: nat)
    requires Rep(h, t, p) && forall x :: x in Ids(t) && x in h ==> x in h' && h'[x] == h[x]
    ensures Rep(h', t, p)
  {
    if t.Node? {
      Frame(h, h', t.left, t.id);
      Frame(h, h', t.right, t.id);
    }
  }

  lemma {:induction false} FrameCtx(h: Heap, h': Heap, root: nat, c: Ctx, x: nat)
    requires RepCtx(h, root, c, x) && forall y :: y in CtxIds(c) && y in h ==> y in h' && h'[y] == h[y]
    ensures RepCtx(h', root, c, x)
  {
    if !c.Top? {
      Frame(h, h', Sibling(c), c.id);
      FrameCtx(h, h', root, c.up, c.id);
    }
  }

  /** All cells but those of `changed` are as they were. */
  ghost predicate Unless(h: Heap, h': Heap, changed: set<nat>) {
    forall x :: x in h && x !in changed ==> x in h' && h'[x] == h[x]
  }

  lemma FrameUnless(h: Heap, h': Heap, changed: set<nat>, t: Tree, p: nat)
    requires Rep(h, t, p) && Unless(h, h', changed) && Ids(t) !! changed
    ensures Rep(h', t, p)
  {
    hide Rep, Ids;
    Frame(h, h', t, p);
  }

  /** The root of a subtree gets another parent. */
  lemma Reparent(h: Heap, h': Heap, changed: set<nat>, t: Tree, p: nat, q: nat)
    requires Rep(h, t, p) && Tidy(t)
    requires Unless(h, h', changed) && Ids(t) - {Root(t)} !! changed
    requires t.Node? ==> t.id in h && t.id in h' && h'[t.id] == h[t.id].(parent := q)
    ensures Rep(h', t, q)
  {
    if t.Node? {
      Frame(h, h', t.left, t.id);
      Frame(h, h', t.right, t.id);
    }
  }

  /** The surroundings get another child. */
  ghost predicate Relinked(h: Heap, root: nat, h': Heap, root': nat, c: Ctx, y: nat) {
    if c.Top? then root' == y
    else
      && root' == root && c.id in h && c.id in h'
      && h'[c.id] == if c.InLeft? then h[c.id].(left := y) else h[c.id].(right := y)
  }

  lemma RelinkCtx(h: Heap, root: nat, h': Heap, root': nat, changed: set<nat>, c: Ctx, x: nat, y: nat)
    requires RepCtx(h, root, c, x) && TidyCtx(c) && Relinked(h, root, h', root', c, y)
    requires Unless(h, h', changed) && CtxIds(c) - {ParentId(c)} !! changed
    ensures RepCtx(h', root', c, y)
  {
    if !c.Top? {
      Frame(h, h', Sibling(c), c.id);
      FrameCtx(h, h', root, c.up, c.id);
    }
  }

  /** One may look at the parent instead, or back at a child. */
  lemma Up(h: Heap, root: nat, c: Ctx, t: Tree)
    requires !c.Top?
    ensures Shape(h, root, c, t) <==> Shape(h, root, c.up, Outer(c, t))
  {
  }

  lemma {:induction false} UpAll(h: Heap, root: nat, c: Ctx, t: Tree)
    ensures Shape(h, root, c, t) <==> Shape(h, root, Top, Plug(c, t))
  {
    hide Shape;
    if !c.Top? {
      Up(h, root, c, t);
      UpAll(h, root, c.up, Outer(c, t));
    }
  }

  /** What the cells at a place hold. */
  lemma Reads(h: Heap, root: nat, c: Ctx, t: Tree)
    requires Shape(h, root, c, t)
    ensures t.Node? ==> t.id != 0 && t.id in h && h[t.id] == Cell(Root(t.left), Root(t.right), ParentId(c), t.red)
    ensures !c.Top? ==> c.id != 0 && c.id in h && c.id != Root(t) && (t.Node? || Sibling(c).Node? ==> Root(Sibling(c)) != Root(t))
    ensures !c.Top? ==> h[c.id] == (if c.InLeft? then Cell(Root(t), Root(c.right), ParentId(c.up), c.red) else Cell(Root(c.left), Root(t), ParentId(c.up), c.red))
    ensures root == Root(t) <==> c.Top?
  {
    RootIsTop(h, root, c, Root(t));
    if t.Node? { assert t.id in Ids(t); }
    if !c.Top? && Sibling(c).Node? { assert Sibling(c).id in Ids(Sibling(c)); }
  }

  lemma {:induction false} RootIsTop(h: Heap, root: nat, c: Ctx, x: nat)
    requires RepCtx(h, root, c, x) && TidyCtx(c)
    ensures if c.Top? then root == x else root in CtxIds(c) && root != 0
  {
    if !c.Top? {
      RootIsTop(h, root, c.up, c.id);
    }
  }

  function TurnedLeft(t: Tree): Tree
    requires t.Node? && t.right.Node?
  {
    Node(Node(t.left, t.id, t.red, t.right.left), t.right.id, t.right.red, t.right.right)
  }

  function TurnedRight(t: Tree): Tree
    requires t.Node? && t.left.Node?
  {
    Node(t.left.left, t.left.id, t.left.red, Node(t.left.right, t.id, t.red, t.right))
  }

  lemma LeftRotation(h: Heap, root: nat, h': Heap, root': nat, c: Ctx, t: Tree)
    requires Shape(h, root, c, t) && t.Node? && t.right.Node?
    requires var b := t.right.left;
      && Unless(h, h', {t.id, t.right.id, Root(b), ParentId(c)})
      && t.id in h' && h'[t.id] == Cell(Root(t.left), Root(b), t.right.id, t.red)
      && t.right.id in h' && h'[t.right.id] == Cell(t.id, Root(t.right.right), ParentId(c), t.right.red)
      && (b.Node? ==> b.id in h && b.id in h' && h'[b.id] == h[b.id].(parent := t.id))
    requires Relinked(h, root, h', root', c, t.right.id)
    ensures Shape(h', root', c, TurnedLeft(t))
  {
    var r := t.right;
    assert Rep(h, r, t.id);
    LeftApart(c, t);
    TurnedLeftTidy(c, t);
    hide Ids, CtxIds, Tidy, TidyCtx, TidyPlace;
    var changed := {t.id, r.id, Root(r.left), ParentId(c)};
    RelinkCtx(h, root, h', root', changed, c, t.id, r.id);
    FrameUnless(h, h', changed, t.left, t.id);
    FrameUnless(h, h', changed, r.right, r.id);
    Reparent(h, h', changed, r.left, r.id, t.id);
    assert Rep(h', Node(t.left, t.id, t.red, r.left), r.id);
  }

  lemma RightRotation(h: Heap, root: nat, h': Heap, root': nat, c: Ctx, t: Tree)
    requires Shape(h, root, c, t) && t.Node? && t.left.Node?
    requires var b := t.left.right;
      && Unless(h, h', {t.id, t.left.id, Root(b), ParentId(c)})
      && t.id in h' && h'[t.id] == Cell(Root(b), Root(t.right), t.left.id, t.red)
      && t.left.id in h' && h'[t.left.id] == Cell(Root(t.left.left), t.id, ParentId(c), t.left.red)
      && (b.Node? ==> b.id in h && b.id in h' && h'[b.id] == h[b.id].(parent := t.id))
    requires Relinked(h, root, h', root', c, t.left.id)
    ensures Shape(h', root', c, TurnedRight(t))
  {
    var l := t.left;
    assert Rep(h, l, t.id);
    RightApart(c, t);
    TurnedRightTidy(c, t);
    hide Ids, CtxIds, Tidy, TidyCtx, TidyPlace;
    var changed := {t.id, l.id, Root(l.right), ParentId(c)};
    RelinkCtx(h, root, h', root', changed, c, t.id, l.id);
    FrameUnless(h, h', changed, t.right, t.id);
    FrameUnless(h, h', changed, l.left, l.id);
    Reparent(h, h', changed, l.right, l.id, t.id);
    assert Rep(h', Node(l.right, t.id, t.red, t.right), l.id);
  }

  lemma LeftApart(c: Ctx, t: Tree)
    requires TidyPlace(c, t) && t.Node? && t.right.Node?
    ensures var changed := {t.id, t.right.id, Root(t.right.left), ParentId(c)}; var b := t.right.left;
      && Ids(t.left) !! changed && Ids(t.right.right) !! changed && Ids(b) - {Root(b)} !! changed
      && CtxIds(c) - {ParentId(c)} !! changed && TidyCtx(c) && Tidy(b)
  {
    var r := t.right;
    assert Tidy(r) && Tidy(r.left);
    PlacesApart(c, t);
    PlacesApart(InRight(c, t.id, t.red, t.left), r);
    RotationApart(c, t.left, t.id, r.left, r.id, r.right);
  }

  lemma RightApart(c: Ctx, t: Tree)
    requires TidyPlace(c, t) && t.Node? && t.left.Node?
    ensures var changed := {t.id, t.left.id, Root(t.left.right), ParentId(c)}; var b := t.left.right;
      && Ids(t.right) !! changed && Ids(t.left.left) !! changed && Ids(b) - {Root(b)} !! changed
      && CtxIds(c) - {ParentId(c)} !! changed && TidyCtx(c) && Tidy(b)
  {
    var l := t.left;
    assert Tidy(l) && Tidy(l.right);
    PlacesApart(c, t);
    PlacesApart(InLeft(c, t.id, t.red, t.right), l);
    RotationApart(c, t.right, t.id, l.right, l.id, l.left);
  }

  /** The parts of a rotation have no node in common. */
  lemma RotationApart(c: Ctx, a: Tree, x: nat, b: Tree, y: nat, d: Tree)
    requires TidyCtx(c) && Tidy(b)
    requires x != y && {x, y} !! CtxIds(c) && {x, y} !! Ids(a) && {x, y} !! Ids(b) && {x, y} !! Ids(d)
    requires Ids(a) !! Ids(b) && Ids(a) !! Ids(d) && Ids(b) !! Ids(d)
    requires Ids(a) !! CtxIds(c) && Ids(b) !! CtxIds(c) && Ids(d) !! CtxIds(c)
    requires 0 !in Ids(a) && 0 !in Ids(b) && 0 !in Ids(d) && 0 !in CtxIds(c)
    ensures Ids(a) !! {x, y, Root(b), ParentId(c)} && Ids(d) !! {x, y, Root(b), ParentId(c)}
    ensures Ids(b) - {Root(b)} !! {x, y, Root(b), ParentId(c)}
    ensures CtxIds(c) - {ParentId(c)} !! {x, y, Root(b), ParentId(c)}
  {
    hide Ids, CtxIds, Tidy, TidyCtx;
    RootIsIn(b);
    ParentIsIn(c);
  }

  lemma RootIsIn(t: Tree)
    ensures if t.Node? then Root(t) in Ids(t) else Root(t) == 0
  {
  }

  lemma ParentIsIn(c: Ctx)
    ensures if c.Top? then ParentId(c) == 0 else ParentId(c) in CtxIds(c)
  {
  }

  lemma TurnedLeftTidy(c: Ctx, t: Tree)
    requires TidyPlace(c, t) && t.Node? && t.right.Node?
    ensures TidyPlace(c, TurnedLeft(t)) && Ids(TurnedLeft(t)) == Ids(t)
  {
    var u := Node(t.left, t.id, t.red, t.right.left);
    assert Tidy(t.right) && Tidy(u);
    assert Ids(u) == Ids(t.left) + {t.id} + Ids(t.right.left);
  }

  lemma TurnedRightTidy(c: Ctx, t: Tree)
    requires TidyPlace(c, t) && t.Node? && t.left.Node?
    ensures TidyPlace(c, TurnedRight(t)) && Ids(TurnedRight(t)) == Ids(t)
  {
    var u := Node(t.left.right, t.id, t.red, t.right);
    assert Tidy(t.left) && Tidy(u);
    assert Ids(u) == Ids(t.left.right) + {t.id} + Ids(t.right);
  }

  /** What is known to be different at a place. */
  lemma PlacesApart(c: Ctx, t: Tree)
    requires TidyPlace(c, t) && t.Node?
    ensures ParentId(c) !in Ids(t) && t.id !in CtxIds(c) && Ids(t.left) !! CtxIds(c) && Ids(t.right) !! CtxIds(c)
    ensures Root(t.left) == 0 || Root(t.left) in Ids(t.left)
    ensures Root(t.right) == 0 || Root(t.right) in Ids(t.right)
    ensures 0 !in Ids(t) && 0 !in CtxIds(c)
  {
    NoNull(t);
    NoNullCtx(c);
    assert ParentId(c) == 0 || ParentId(c) in CtxIds(c);
  }

  lemma {:induction false} NoNull(t: Tree)
    requires Tidy(t)
    ensures 0 !in Ids(t)
  {
    if t.Node? {
      NoNull(t.left);
      NoNull(t.right);
    }
  }

  lemma {:induction false} NoNullCtx(c: Ctx)
    requires TidyCtx(c)
    ensures 0 !in CtxIds(c)
  {
    if !c.Top? {
      NoNull(Sibling(c));
      NoNullCtx(c.up);
    }
  }

  lemma Painting(h: Heap, root: nat, h': Heap, c: Ctx, t: Tree, red: bool)
    requires Shape(h, root, c, t) && t.Node? && t.id in h && h' == h[t.id := h[t.id].(red := red)]
    ensures Shape(h', root, c, Painted(t, red))
  {
    PlacesApart(c, t);
    FrameUnless(h, h', {t.id}, t.left, t.id);
    FrameUnless(h, h', {t.id}, t.right, t.id);
    FrameCtx(h, h', root, c, t.id);
  }

  /** A new red node takes the place of a leaf. */
  lemma Hanging(h: Heap, root: nat, h': Heap, root': nat, c: Ctx, x: nat)
    requires Shape(h, root, c, Leaf) && x != 0 && x !in CtxIds(c)
    requires Unless(h, h', {x, ParentId(c)}) && x in h' && h'[x] == Cell(0, 0, ParentId(c), true)
    requires Relinked(h, root, h', root', c, x)
    ensures Shape(h', root', c, Node(Leaf, x, true, Leaf))
  {
    RelinkCtx(h, root, h', root', {x, ParentId(c)}, c, 0, x);
  }

  /** A node with at most one child is replaced by that child. */
  lemma Unlinking(h: Heap, root: nat, h': Heap, root': nat, c: Ctx, t: Tree, child: Tree)
    requires Shape(h, root, c, t) && t.Node?
    requires child == (if t.left.Leaf? then t.right else t.left) && (t.left.Leaf? || t.right.Leaf?)
    requires Unless(h, h', {Root(child), ParentId(c)})
    requires child.Node? ==> child.id in h && child.id in h' && h'[child.id] == h[child.id].(parent := ParentId(c))
    requires Relinked(h, root, h', root', c, Root(child))
    ensures Shape(h', root', c, child)
  {
    PlacesApart(c, t);
    RootIsIn(child);
    ParentIsIn(c);
    assert Ids(child) !! CtxIds(c) && Tidy(child) && Rep(h, child, t.id);
    hide Ids, CtxIds, Tidy, TidyCtx;
    var changed := {Root(child), ParentId(c)};
    RelinkCtx(h, root, h', root', changed, c, t.id, Root(child));
    Reparent(h, h', changed, child, t.id, ParentId(c));
  }

  /** Another node takes over the cell of a node. */
  lemma Replacing(h: Heap, root: nat, h': Heap, root': nat, c: Ctx, t: Tree, x: nat)
    requires Shape(h, root, c, t) && t.Node? && x != 0 && x !in Ids(t) && x !in CtxIds(c)
    requires Unless(h, h', {x, Root(t.left), Root(t.right), ParentId(c)})
    requires x in h' && h'[x] == Cell(Root(t.left), Root(t.right), ParentId(c), t.red)
    requires t.left.Node? ==> t.left.id in h && t.left.id in h' && h'[t.left.id] == h[t.left.id].(parent := x)
    requires t.right.Node? ==> t.right.id in h && t.right.id in h' && h'[t.right.id] == h[t.right.id].(parent := x)
    requires Relinked(h, root, h', root', c, x)
    ensures Shape(h', root', c, t.(id := x))
  {
    PlacesApart(c, t);
    RootIsIn(t.left);
    RootIsIn(t.right);
    ParentIsIn(c);
    assert TidyPlace(c, t.(id := x));
    var changed := {x, Root(t.left), Root(t.right), ParentId(c)};
    assert Ids(t.left) - {Root(t.left)} !! changed && Ids(t.right) - {Root(t.right)} !! changed && CtxIds(c) - {ParentId(c)} !! changed;
    hide Ids, CtxIds, Tidy, TidyCtx;
    RelinkCtx(h, root, h', root', changed, c, t.id, x);
    Reparent(h, h', changed, t.left, t.id, x);
    Reparent(h, h', changed, t.right, t.id, x);
  }

  /** What a left rotation reads, and which of it is different. */
  lemma LeftReads(h: Heap, root: nat, c: Ctx, t: Tree)
    requires Shape(h, root, c, t) && t.Node? && t.right.Node?
    ensures var x, y, b, p := t.id, t.right.id, Root(t.right.left), ParentId(c);
      && x in h && h[x] == Cell(Root(t.left), y, p, t.red) && y in h && h[y] == Cell(b, Root(t.right.right), x, t.right.red)
      && (if t.right.left.Leaf? then b == 0 else b != 0 && b in h && b != x && b != y && b != p) && x != y && x != p && y != p && x != 0 && y != 0
      && LinkReads(h, c, x)
  {
    var c1 := InRight(c, t.id, t.red, t.left);
    Up(h, root, c1, t.right);
    PlacesApart(c, t);
    PlacesApart(c1, t.right);
    Reads(h, root, c, t);
    Reads(h, root, c1, t.right);
    ParentIsIn(c);
    if t.right.left.Node? {
      Up(h, root, InLeft(c1, t.right.id, t.right.red, t.right.right), t.right.left);
      Reads(h, root, InLeft(c1, t.right.id, t.right.red, t.right.right), t.right.left);
    }
  }

  lemma RightReads(h: Heap, root: nat, c: Ctx, t: Tree)
    requires Shape(h, root, c, t) && t.Node? && t.left.Node?
    ensures var x, y, b, p := t.id, t.left.id, Root(t.left.right), ParentId(c);
      && x in h && h[x] == Cell(y, Root(t.right), p, t.red) && y in h && h[y] == Cell(Root(t.left.left), b, x, t.left.red)
      && (if t.left.right.Leaf? then b == 0 else b != 0 && b in h && b != x && b != y && b != p) && x != y && x != p && y != p && x != 0 && y != 0
      && LinkReads(h, c, x)
  {
    var c1 := InLeft(c, t.id, t.red, t.right);
    Up(h, root, c1, t.left);
    PlacesApart(c, t);
    PlacesApart(c1, t.left);
    Reads(h, root, c, t);
    Reads(h, root, c1, t.left);
    ParentIsIn(c);
    if t.left.right.Node? {
      Up(h, root, InRight(c1, t.left.id, t.left.red, t.left.left), t.left.right);
      Reads(h, root, InRight(c1, t.left.id, t.left.red, t.left.left), t.left.right);
    }
  }

  /** The pointer from the parent tells on which side `x` hangs. */
  ghost predicate LinkReads(h: Heap, c: Ctx, x: nat) {
    !c.Top? ==> c.id != 0 && c.id in h && (c.InLeft? <==> h[c.id].left == x)
  }

  /** Which cells a rotation changes, from what its three parts change. */
  lemma RotationFrame(h: Heap, root: nat, h1: Heap, h2: Heap, root2: nat, h3: Heap, c: Ctx, x: nat, y: nat, b: nat)
    requires Unless(h, h1, {x, y, b}) && Unless(h1, h2, {ParentId(c)}) && Unless(h2, h3, {x, y})
    requires Relinked(h1, root, h2, root2, c, y) && (c.Top? || (c.id !in {x, y, b} && c.id in h))
    ensures Unless(h, h3, {x, y, b, ParentId(c)}) && Relinked(h, root, h3, root2, c, y)
  {
  }
}
