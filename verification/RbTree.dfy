/**
  The red-black tree of timers: RB_INSERT, RB_REMOVE, RB_MINMAX and RB_NEXT with their fix-up loops,
  over cells written one pointer at a time (deps/uv/include/uv-private/tree.h:323-724, generated for
  uv__timer_cmp, deps/uv/src/unix/timer.c:27-45).
 */
module RbTree {
  import opened RbTrees
  import opened RbHeap

  datatype Key = Key(timeout: nat, start: nat)

  /** uv__timer_cmp. */
  function Cmp(a: Key, b: Key): int {
    if a.timeout < b.timeout then -1
    else if a.timeout > b.timeout then 1
    else if a.start < b.start then -1
    else if a.start > b.start then 1
    else 0
  }

  /** The nodes have keys, in strictly increasing order. */
  ghost predicate Sorted(keys: map<nat, Key>, s: seq<nat>) {
    && (forall i :: 0 <= i < |s| ==> s[i] in keys)
    && (forall i, j :: 0 <= i < j < |s| ==> Cmp(keys[s[i]], keys[s[j]]) < 0)
  }

  /** `t` is `s` with `x` put in somewhere. */
  ghost predicate Inserted(s: seq<nat>, x: nat, t: seq<nat>) {
    exists i :: 0 <= i <= |s| && t == s[..i] + [x] + s[i..]
  }

  class TimerTree {
    var root: nat
    var cells: map<nat, Cell>
    var keys: map<nat, Key>
    ghost var tree: Tree

    ghost predicate Valid()
      reads this
    {
      Shape(cells, root, Top, tree) && RedBlack(tree) && Sorted(keys, InOrder(tree))
    }

    /** The nodes of the tree, in order. */
    ghost function Order(): seq<nat>
      reads this
    {
      InOrder(tree)
    }

    constructor ()
      ensures Valid() && Order() == [] && keys == map[]
    {
      root, cells, keys, tree := 0, map[], map[], Leaf;
    }

    /** The pointer to `x` from its parent, or that to the root, is set to `y`. */
    method Relink(p: nat, x: nat, y: nat, ghost c: Ctx)
      requires p == ParentId(c) && LinkReads(cells, c, x)
      modifies this`cells, this`root
      ensures cells.Keys == old(cells).Keys && Unless(old(cells), cells, {p}) && Relinked(old(cells), old(root), cells, root, c, y)
      ensures p == 0 ==> cells == old(cells)
    {
      if p != 0 {
        if x == cells[p].left {
          cells := cells[p := cells[p].(left := y)];
        } else {
          cells := cells[p := cells[p].(right := y)];
        }
      } else {
        root := y;
      }
    }

    method RotateLeft(x: nat, ghost c: Ctx, ghost t: Tree)
      requires Shape(cells, root, c, t) && t.Node? && t.right.Node? && x == t.id
      modifies this`cells, this`root
      ensures Shape(cells, root, c, TurnedLeft(t))
    {
      LeftReads(cells, root, c, t);
      hide Shape;
      var tmp := cells[x].right;
      var b := cells[tmp].left;
      cells := cells[x := cells[x].(right := b)];
      if b != 0 {
        cells := cells[b := cells[b].(parent := x)];
      }
      var p := cells[x].parent;
      cells := cells[tmp := cells[tmp].(parent := p)];
      ghost var h1 := cells;
      Relink(p, x, tmp, c);
      ghost var h2, root2 := cells, root;
      cells := cells[tmp := cells[tmp].(left := x)];
      cells := cells[x := cells[x].(parent := tmp)];
      RotationFrame(old(cells), old(root), h1, h2, root2, cells, c, x, tmp, b);
      hide Unless, Relinked;
      LeftRotation(old(cells), old(root), cells, root, c, t);
    }

    method RotateRight(x: nat, ghost c: Ctx, ghost t: Tree)
      requires Shape(cells, root, c, t) && t.Node? && t.left.Node? && x == t.id
      modifies this`cells, this`root
      ensures Shape(cells, root, c, TurnedRight(t))
    {
      RightReads(cells, root, c, t);
      hide Shape;
      var tmp := cells[x].left;
      var b := cells[tmp].right;
      cells := cells[x := cells[x].(left := b)];
      if b != 0 {
        cells := cells[b := cells[b].(parent := x)];
      }
      var p := cells[x].parent;
      cells := cells[tmp := cells[tmp].(parent := p)];
      ghost var h1 := cells;
      Relink(p, x, tmp, c);
      ghost var h2, root2 := cells, root;
      cells := cells[tmp := cells[tmp].(right := x)];
      cells := cells[x := cells[x].(parent := tmp)];
      RotationFrame(old(cells), old(root), h1, h2, root2, cells, c, x, tmp, b);
      hide Unless, Relinked;
      RightRotation(old(cells), old(root), cells, root, c, t);
    }

    method Paint(x: nat, red: bool, ghost c: Ctx, ghost t: Tree)
      requires Shape(cells, root, c, t) && t.Node? && x == t.id
      modifies this`cells
      ensures Shape(cells, root, c, Painted(t, red))
    {
      Reads(cells, root, c, t);
      hide Shape;
      cells := cells[x := cells[x].(red := red)];
      Painting(old(cells), root, cells, c, t, red);
    }
  
    /** The parent and its sibling become black, the grandparent red. */
    method RepaintFamily(parent: nat, gparent: nat, uncle: nat, ghost c: Ctx, ghost t: Tree)
      requires Shape(cells, root, c, t) && !c.Top? && !c.up.Top? && Sibling(c.up).Node?
      requires parent == c.id && gparent == c.up.id && uncle == Root(Sibling(c.up))
      modifies this`cells
      ensures var q := Repaint(c, t); Shape(cells, root, q.ctx, q.tree)
    {
      hide Shape;
      ghost var g, u, p := c.up, Sibling(c.up), Outer(c, t);
      ghost var gu := if g.InLeft? then InRight(g.up, g.id, g.red, p) else InLeft(g.up, g.id, g.red, p);
      Up(cells, root, c, t);
      Up(cells, root, g, p);
      Up(cells, root, gu, u);
      Paint(uncle, false, gu, u);
      Up(cells, root, gu, Painted(u, false));
      ghost var g1 := if g.InLeft? then g.(right := Painted(u, false)) else g.(left := Painted(u, false));
      Up(cells, root, g1, p);
      Paint(parent, false, g1, p);
      Up(cells, root, g1, Painted(p, false));
      Paint(gparent, true, g.up, Outer(g1, Painted(p, false)));
    }

    /** An inner grandchild is rotated to the outside. */
    method RotateOut(elm: nat, parent: nat, toLeft: bool, ghost c: Ctx, ghost t: Tree)
      requires Shape(cells, root, c, t) && !c.Top? && !c.up.Top? && t.Node? && c.InLeft? != c.up.InLeft?
      requires elm == t.id && parent == c.id && toLeft == c.InRight?
      modifies this`cells, this`root
      ensures var q := TurnOut(c, t); Shape(cells, root, q.ctx, q.tree)
    {
      hide Shape;
      Up(cells, root, c, t);
      if toLeft {
        RotateLeft(parent, c.up, Outer(c, t));
      } else {
        RotateRight(parent, c.up, Outer(c, t));
      }
      ghost var q := TurnOut(c, t);
      Up(cells, root, q.ctx, q.tree);
    }

    /** The parent becomes black and is rotated above the grandparent, which becomes red. */
    method RotateOver(parent: nat, gparent: nat, toLeft: bool, ghost c: Ctx, ghost t: Tree)
      requires Shape(cells, root, c, t) && !c.Top? && !c.up.Top? && c.InLeft? == c.up.InLeft?
      requires parent == c.id && gparent == c.up.id && toLeft == c.InRight?
      modifies this`cells, this`root
      ensures var q := TurnOver(c, t); Shape(cells, root, q.ctx, q.tree)
    {
      hide Shape;
      ghost var g, p := c.up, Outer(c, t);
      Up(cells, root, c, t);
      Paint(parent, false, g, p);
      ghost var p1 := Painted(p, false);
      Up(cells, root, g, p1);
      Paint(gparent, true, g.up, Outer(g, p1));
      if toLeft {
        RotateLeft(gparent, g.up, Painted(Outer(g, p1), true));
      } else {
        RotateRight(gparent, g.up, Painted(Outer(g, p1), true));
      }
      ghost var q := TurnOver(c, t);
      Up(cells, root, q.ctx, q.tree);
    }

    /** RB_INSERT_COLOR. */
    method InsertColor(elm0: nat, ghost c0: Ctx, ghost t0: Tree)
      requires Shape(cells, root, c0, t0) && Raised(c0, t0) && elm0 == t0.id
      modifies this`cells, this`root, this`tree
      ensures Shape(cells, root, Top, tree) && RedBlack(tree) && InOrder(tree) == Elems(c0, t0)
    {
      hide Shape, Elems;
      var elm := elm0;
      ghost var c, t := c0, t0;
      Reads(cells, root, c, t);
      while cells[elm].parent != 0 && cells[cells[elm].parent].red
        invariant Shape(cells, root, c, t) && Raised(c, t) && elm == t.id && Elems(c, t) == Elems(c0, t0)
        invariant elm in cells && cells[elm].parent == ParentId(c) && (!c.Top? ==> c.id != 0 && c.id in cells && cells[c.id].red == c.red)
        decreases Depth(c)
      {
        var parent := cells[elm].parent;
        InsertTurnKeeps(c, t);
        Up(cells, root, c, t);
        Reads(cells, root, c, t);
        Reads(cells, root, c.up, Outer(c, t));
        var gparent := cells[parent].parent;
        elm := InsertTurnAt(elm, parent, gparent, c, t);
        ghost var q := InsertTurn(c, t);
        c, t := q.ctx, q.tree;
        Reads(cells, root, c, t);
      }
      FinishInsert(c, t);
    }

    /** One turn of RB_INSERT_COLOR. */
    method InsertTurnAt(elm0: nat, parent0: nat, gparent: nat, ghost c: Ctx, ghost t: Tree) returns (elm: nat)
      requires Shape(cells, root, c, t) && !c.Top? && !c.up.Top? && t.Node?
      requires elm0 == t.id && parent0 == c.id && gparent == c.up.id
      modifies this`cells, this`root
      ensures var q := InsertTurn(c, t); Shape(cells, root, q.ctx, q.tree) && elm == Root(q.tree)
    {
      hide Shape;
      elm := elm0;
      var parent := parent0;
      TurnReads(cells, root, c, t);
      if parent == cells[gparent].left {
        var tmp := cells[gparent].right;
        if tmp != 0 && cells[tmp].red {
          RepaintFamily(parent, gparent, tmp, c, t);
          elm := gparent;
          return;
        }
        ghost var q := TurnOut(c, t);
        if cells[parent].right == elm {
          RotateOut(elm, parent, true, c, t);
          elm, parent := parent, elm;
        }
        RotateOver(parent, gparent, false, q.ctx, q.tree);
      } else {
        var tmp := cells[gparent].left;
        if tmp != 0 && cells[tmp].red {
          RepaintFamily(parent, gparent, tmp, c, t);
          elm := gparent;
          return;
        }
        ghost var q := TurnOut(c, t);
        if cells[parent].left == elm {
          RotateOut(elm, parent, false, c, t);
          elm, parent := parent, elm;
        }
        RotateOver(parent, gparent, true, q.ctx, q.tree);
      }
    }

    /** The root becomes black. */
    method FinishInsert(ghost c: Ctx, ghost t: Tree)
      requires Shape(cells, root, c, t) && Raised(c, t) && !RedParent(c)
      modifies this`cells, this`tree
      ensures Shape(cells, root, Top, tree) && RedBlack(tree) && InOrder(tree) == Elems(c, t)
    {
      hide Shape;
      UpAll(cells, root, c, t);
      PlugElems(c, t);
      ghost var all := Plug(c, t);
      PlugIsNode(c, t);
      Reads(cells, root, Top, all);
      Paint(root, false, Top, all);
      ColoursDoNotMatter(all, false);
      tree := Painted(all, false);
      if c.Top? {
        assert RedBlack(Painted(t, false));
      } else {
        PlugRedBlack(c, t);
        assert Painted(all, false) == all;
      }
    }

    // ---------- insertion ----------

    /** RB_INSERT: the node is put at its place in the order, unless there is one with an equal key. */
    method Insert(elm: nat) returns (found: nat)
      requires Valid() && elm != 0 && elm in keys
      modifies this`cells, this`root, this`tree
      ensures Valid()
      ensures found != 0 ==> found in old(Order()) && Cmp(keys[elm], keys[found]) == 0
      ensures found != 0 ==> cells == old(cells) && root == old(root) && tree == old(tree)
      ensures found == 0 ==> Inserted(old(Order()), elm, Order())
    {
      assert Sorted(keys, InOrder(tree)) && RedBlack(tree);
      hide Shape, RedBlack, Sorted;
      var tmp, parent, comp := root, 0, 0;
      ghost var c, t := Top, tree;
      Reads(cells, root, c, t);
      NullRoot(t);
      while tmp != 0
        invariant cells == old(cells) && root == old(root) && tree == old(tree)
        invariant Shape(cells, root, c, t) && Plug(c, t) == tree
        invariant tmp == Root(t) && parent == ParentId(c) && (t.Leaf? <==> tmp == 0)
        invariant Between(keys, c, elm)
        invariant c.InLeft? ==> comp < 0
        invariant c.InRight? ==> comp > 0
        decreases t
      {
        parent := tmp;
        PlugElems(c, t);
        Reads(cells, root, c, t);
        NodeHasKey(keys, c, t);
        comp := Cmp(keys[elm], keys[parent]);
        if comp < 0 {
          tmp := cells[tmp].left;
          GoLeft(keys, c, t, elm);
          c, t := InLeft(c, t.id, t.red, t.right), t.left;
        } else if comp > 0 {
          tmp := cells[tmp].right;
          GoRight(keys, c, t, elm);
          c, t := InRight(c, t.id, t.red, t.left), t.right;
        } else {
          return tmp;
        }
        Up(cells, root, c, t);
        Reads(cells, root, c, t);
      }
      Hang(elm, parent, comp, c);
      return 0;
    }

    /** The node is hung below its parent and the colours are put right. */
    method Hang(elm: nat, parent: nat, comp: int, ghost c: Ctx)
      requires Shape(cells, root, c, Leaf) && RedBlack(Plug(c, Leaf)) && Plug(c, Leaf) == tree
      requires Sorted(keys, InOrder(tree)) && elm != 0 && elm in keys && Between(keys, c, elm)
      requires parent == ParentId(c) && (c.InLeft? ==> comp < 0) && (c.InRight? ==> comp > 0)
      modifies this`cells, this`root, this`tree
      ensures Valid()
      ensures Inserted(old(Order()), elm, Order())
    {
      hide Shape, RedBlack, Sorted, Between, Raised, Plug;
      ElmIsNew(keys, c, elm);
      PlugElems(c, Leaf);
      Attach(elm, parent, comp, c);
      ghost var t := Node(Leaf, elm, true, Leaf);
      NewIsRaised(c, elm);
      ghost var was := InOrder(tree);
      InsertColor(elm, c, t);
      assert InOrder(t) == [elm];
      assert was == Before(c) + After(c);
      assert was[..|Before(c)|] == Before(c) && was[|Before(c)|..] == After(c);
      StillSorted(keys, Before(c), elm, After(c)) by { BetweenMeans(keys, c, elm); }
    }

    method Attach(elm: nat, parent: nat, comp: int, ghost c: Ctx)
      requires Shape(cells, root, c, Leaf) && elm != 0 && elm !in CtxIds(c)
      requires parent == ParentId(c) && (c.InLeft? ==> comp < 0) && (c.InRight? ==> comp > 0)
      modifies this`cells, this`root
      ensures Shape(cells, root, c, Node(Leaf, elm, true, Leaf))
    {
      hide Shape;
      Reads(cells, root, c, Leaf);
      cells := cells[elm := Cell(0, 0, parent, true)];
      if parent != 0 {
        ParentIsIn(c);
        if comp < 0 {
          cells := cells[parent := cells[parent].(left := elm)];
        } else {
          cells := cells[parent := cells[parent].(right := elm)];
        }
      } else {
        root := elm;
      }
      Hanging(old(cells), old(root), cells, root, c, elm);
    }

    // ---------- removal ----------

    /** A red sibling becomes black, the parent red, and the sibling is rotated above it. */
    method LiftUp(parent: nat, sib: nat, toLeft: bool, ghost c: Ctx, ghost t: Tree)
      requires Shape(cells, root, c, t) && !c.Top? && IsRed(Sibling(c))
      requires parent == c.id && sib == Sibling(c).id && toLeft == c.InLeft?
      modifies this`cells, this`root
      ensures Shape(cells, root, LiftSibling(c), t)
    {
      hide Shape;
      ghost var s, cs := Sibling(c), Across(c, t);
      Up(cells, root, c, t);
      Up(cells, root, cs, s);
      Paint(sib, false, cs, s);
      Up(cells, root, cs, Painted(s, false));
      ghost var o := Outer(cs, Painted(s, false));
      Paint(parent, true, c.up, o);
      if toLeft {
        RotateLeft(parent, c.up, Painted(o, true));
      } else {
        RotateRight(parent, c.up, Painted(o, true));
      }
      ghost var d := LiftSibling(c);
      Up(cells, root, d.up, Outer(d, t));
      Up(cells, root, d, t);
    }

    /** The sibling becomes red. */
    method PassOn(sib: nat, ghost c: Ctx, ghost t: Tree)
      requires Shape(cells, root, c, t) && !c.Top? && Sibling(c).Node? && sib == Sibling(c).id
      modifies this`cells
      ensures var q := PassUp(c, t); Shape(cells, root, q.ctx, q.tree)
    {
      hide Shape;
      ghost var s, cs := Sibling(c), Across(c, t);
      Up(cells, root, c, t);
      Up(cells, root, cs, s);
      Paint(sib, true, cs, s);
      Up(cells, root, cs, Painted(s, true));
    }

    /** The sibling's near child becomes black, the sibling red, and the child is rotated above it. */
    method TurnNearChild(sib: nat, near: nat, toLeft: bool, ghost c: Ctx, ghost t: Tree)
      requires Shape(cells, root, c, t) && !c.Top? && Sibling(c).Node? && !BlackChildren(Sibling(c))
      requires var s := Sibling(c);
        && sib == s.id && toLeft == c.InRight?
        && (if toLeft then !IsRed(s.left) && near == Root(s.right) else !IsRed(s.right) && near == Root(s.left))
      modifies this`cells, this`root
      ensures Shape(cells, root, TurnNear(c), t)
    {
      hide Shape;
      ghost var s, cs := Sibling(c), Across(c, t);
      Up(cells, root, c, t);
      Up(cells, root, cs, s);
      ghost var n := if toLeft then s.right else s.left;
      ghost var cn := if toLeft then InRight(cs, s.id, s.red, s.left) else InLeft(cs, s.id, s.red, s.right);
      Up(cells, root, cn, n);
      Paint(near, false, cn, n);
      Up(cells, root, cn, Painted(n, false));
      ghost var o := Outer(cn, Painted(n, false));
      Paint(sib, true, cs, o);
      if toLeft {
        RotateLeft(sib, cs, Painted(o, true));
      } else {
        RotateRight(sib, cs, Painted(o, true));
      }
      ghost var d := TurnNear(c);
      Up(cells, root, cs, Sibling(d));
      Up(cells, root, d, t);
    }

    /** The sibling takes the colour of the parent, which becomes black like the far child, and is rotated above it. */
    method TurnFarChild(parent: nat, sib: nat, toLeft: bool, ghost c: Ctx, ghost t: Tree)
      requires Shape(cells, root, c, t) && !c.Top? && Sibling(c).Node?
      requires parent == c.id && sib == Sibling(c).id && toLeft == c.InLeft?
      modifies this`cells, this`root
      ensures var q := TurnFar(c, t); Shape(cells, root, q.ctx, q.tree)
    {
      hide Shape;
      ghost var s, cs := Sibling(c), Across(c, t);
      Up(cells, root, c, t);
      Up(cells, root, cs, s);
      Reads(cells, root, c, t);
      Paint(sib, cells[parent].red, cs, s);
      ghost var s1 := Painted(s, c.red);
      Up(cells, root, cs, s1);
      ghost var o := Outer(cs, s1);
      Paint(parent, false, c.up, o);
      ghost var cs1 := if c.InLeft? then InRight(c.up, c.id, false, t) else InLeft(c.up, c.id, false, t);
      Up(cells, root, cs1, s1);
      ghost var cf := if c.InLeft? then InRight(cs1, s.id, c.red, s.left) else InLeft(cs1, s.id, c.red, s.right);
      ghost var f := if c.InLeft? then s.right else s.left;
      Up(cells, root, cf, f);
      Reads(cells, root, cs1, s1);
      Reads(cells, root, cf, f);
      var far := if toLeft then cells[sib].right else cells[sib].left;
      if far != 0 {
        NullRoot(f);
        Paint(far, false, cf, f);
      }
      assert Shape(cells, root, cf, Painted(f, false)) by { NullRoot(f); }
      Up(cells, root, cf, Painted(f, false));
      Up(cells, root, cs1, Outer(cf, Painted(f, false)));
      ghost var all := Outer(cs1, Outer(cf, Painted(f, false)));
      if toLeft {
        RotateLeft(parent, c.up, all);
      } else {
        RotateRight(parent, c.up, all);
      }
    }

    /** One turn of RB_REMOVE_COLOR. */
    method RemoveTurn(parent0: nat, elm0: nat, ghost c: Ctx, ghost t: Tree)
      returns (parent: nat, elm: nat, mended: bool, ghost c': Ctx, ghost t': Tree)
      requires Shape(cells, root, c, t) && Lacking(c, t) && !c.Top? && !IsRed(t) && parent0 == c.id && elm0 == Root(t)
      modifies this`cells, this`root
      ensures Shape(cells, root, c', t') && Elems(c', t') == Elems(c, t)
      ensures if mended then RedBlack(Plug(c', t'))
              else Lacking(c', t') && elm == Root(t') && parent == ParentId(c') && (Depth(c') < Depth(c) || (Depth(c') == Depth(c) && IsRed(t')))
    {
      hide Shape, Lacking, Elems, RedBlack;
      LackingHasSibling(c, t);
      LiftKeeps(c, t);
      parent, elm, mended, c', t' := parent0, elm0, false, LiftSibling(c), t;
      ghost var d := c';
      SiblingReads(cells, root, c, t);
      var isLeft := cells[parent].left == elm;
      var tmp := if isLeft then cells[parent].right else cells[parent].left;
      if cells[tmp].red {
        LiftUp(parent, tmp, isLeft, c, t);
        SiblingReads(cells, root, d, t);
        tmp := if isLeft then cells[parent].right else cells[parent].left;
      }
      SiblingReads(cells, root, d, t);
      if  (cells[tmp].left == 0 || !cells[cells[tmp].left].red) && (cells[tmp].right == 0 || !cells[cells[tmp].right].red) {
        PassUpKeeps(d, t);
        PassOn(tmp, d, t);
        c', t' := PassUp(d, t).ctx, PassUp(d, t).tree;
        elm := parent;
        Reads(cells, root, c', t');
        parent := cells[elm].parent;
        return;
      }
      TurnNearKeeps(d, t);
      var far := if isLeft then cells[tmp].right else cells[tmp].left;
      var near := if isLeft then cells[tmp].left else cells[tmp].right;
      if far == 0 || !cells[far].red {
        TurnNearChild(tmp, near, !isLeft, d, t);
        SiblingReads(cells, root, TurnNear(d), t);
        tmp := if isLeft then cells[parent].right else cells[parent].left;
      }
      d := TurnNear(d);
      TurnFarMends(d, t);
      TurnFarChild(parent, tmp, isLeft, d, t);
      c', t' := TurnFar(d, t).ctx, TurnFar(d, t).tree;
      mended := true;
    }

    /** RB_REMOVE_COLOR. */
    method RemoveColor(parent0: nat, elm0: nat, ghost c0: Ctx, ghost t0: Tree)
      requires Shape(cells, root, c0, t0) && Lacking(c0, t0) && parent0 == ParentId(c0) && elm0 == Root(t0)
      modifies this`cells, this`root, this`tree
      ensures Shape(cells, root, Top, tree) && RedBlack(tree) && InOrder(tree) == Elems(c0, t0)
    {
      hide Shape, Lacking, Elems, RedBlack;
      var parent, elm := parent0, elm0;
      ghost var c, t := c0, t0;
      Reads(cells, root, c, t);
      while (elm == 0 || !cells[elm].red) && elm != root
        invariant Shape(cells, root, c, t) && Lacking(c, t) && Elems(c, t) == Elems(c0, t0)
        invariant parent == ParentId(c) && elm == Root(t)
        invariant (elm == 0 <==> t.Leaf?) && (elm != 0 ==> elm in cells && cells[elm].red == t.red) && (elm == root <==> c.Top?)
        decreases Depth(c), if IsRed(t) then 0 else 1
      {
        var mended;
        parent, elm, mended, c, t := RemoveTurn(parent, elm, c, t);
        if mended {
          FinishRemove(c, t);
          return;
        }
        Reads(cells, root, c, t);
        NullRoot(t);
      }
      BlackenMends(c, t);
      if elm != 0 {
        Paint(elm, false, c, t);
      }
      t := Painted(t, false);
      UpAll(cells, root, c, t);
      PlugElems(c, t);
      tree := Plug(c, t);
    }

    /** Nothing is lacking: the root is made black, which it is already. */
    method FinishRemove(ghost c: Ctx, ghost t: Tree)
      requires Shape(cells, root, c, t) && RedBlack(Plug(c, t))
      modifies this`cells, this`tree
      ensures Shape(cells, root, Top, tree) && RedBlack(tree) && InOrder(tree) == Elems(c, t)
    {
      hide Shape;
      UpAll(cells, root, c, t);
      PlugElems(c, t);
      tree := Plug(c, t);
      Reads(cells, root, Top, tree);
      NullRoot(tree);
      var elm := root;
      if elm != 0 {
        Paint(elm, false, Top, tree);
        assert Painted(tree, false) == tree;
      }
    }

    /** A node with at most one child is taken out, its child in its place. */
    method Unlink(elm: nat, child: nat, ghost c: Ctx, ghost t: Tree)
      requires Shape(cells, root, c, t) && t.Node? && elm == t.id && (t.left.Leaf? || t.right.Leaf?)
      requires child == Root(OnlyChild(t))
      modifies this`cells, this`root
      ensures Shape(cells, root, c, OnlyChild(t)) && Unless(old(cells), cells, {child, ParentId(c)})
      ensures elm in old(cells) && elm in cells && cells[elm] == old(cells)[elm]
    {
      hide Shape;
      UnlinkReads(cells, root, c, t);
      var parent := cells[elm].parent;
      if child != 0 {
        cells := cells[child := cells[child].(parent := parent)];
      }
      Relink(parent, elm, child, c);
      Unlinking(old(cells), old(root), cells, root, c, t, OnlyChild(t));
    }

    /** Another node takes over the place, the children and the colour of a node. */
    method Replace(old_: nat, elm: nat, ghost c: Ctx, ghost t: Tree)
      requires Shape(cells, root, c, t) && t.Node? && t.left.Node? && old_ == t.id
      requires elm != 0 && elm !in Ids(t) && elm !in CtxIds(c) && elm in cells
      modifies this`cells, this`root
      ensures Shape(cells, root, c, t.(id := elm))
    {
      ReplaceReads(cells, root, c, t, elm);
      hide Shape;
      cells := cells[elm := cells[old_]];
      Relink(cells[old_].parent, old_, elm, c);
      var l, r := cells[old_].left, cells[old_].right;
      cells := cells[l := cells[l].(parent := elm)];
      if r != 0 {
        cells := cells[r := cells[r].(parent := elm)];
      }
      Replacing(old(cells), old(root), cells, root, c, t, elm);
    }

    /** RB_REMOVE: exactly the given node is taken out. */
    method Remove(elm: nat)
      requires Valid() && elm in Order()
      modifies this`cells, this`root, this`tree
      ensures Valid() && Inserted(Order(), elm, old(Order()))
    {
      assert Sorted(keys, InOrder(tree)) && RedBlack(tree);
      hide Shape, RedBlack, Sorted, Elems, Inserted;
      IdsAreElems(tree, elm);
      ghost var q := Find(Top, tree, elm);
      ghost var c, t := q.ctx, q.tree;
      UpAll(cells, root, c, t);
      PlugElems(c, t);
      ChildrenRead(cells, root, c, t);
      if cells[elm].left == 0 {
        RemoveSimple(elm, cells[elm].right, c, t);
      } else if cells[elm].right == 0 {
        RemoveSimple(elm, cells[elm].left, c, t);
      } else {
        RemoveInner(elm, c, t);
      }
      SortedWithout(keys, Order(), elm, old(Order()));
    }

    /** The node has at most one child. */
    method RemoveSimple(elm: nat, child: nat, ghost c: Ctx, ghost t: Tree)
      requires Shape(cells, root, c, t) && t.Node? && elm == t.id && (t.left.Leaf? || t.right.Leaf?) && child == Root(OnlyChild(t))
      requires Plug(c, t) == tree && RedBlack(tree)
      modifies this`cells, this`root, this`tree
      ensures Shape(cells, root, Top, tree) && RedBlack(tree) && Inserted(InOrder(tree), elm, old(InOrder(tree)))
    {
      hide Shape, RedBlack, Plug, Lacking, Elems;
      ghost var was := InOrder(tree);
      Reads(cells, root, c, t);
      var parent, red := cells[elm].parent, cells[elm].red;
      PlugElems(c, t);
      UnlinkColours(c, t, OnlyChild(t));
      UnlinkOrder(c, t);
      Unlink(elm, child, c, t);
      if !red {
        RemoveColor(parent, child, c, OnlyChild(t));
      } else {
        UpAll(cells, root, c, OnlyChild(t));
        PlugElems(c, OnlyChild(t));
        tree := Plug(c, OnlyChild(t));
      }
    }

    /** The node has two children: the next node in order takes its place. */
    method RemoveInner(old_: nat, ghost c: Ctx, ghost t: Tree)
      requires Shape(cells, root, c, t) && t.Node? && old_ == t.id && t.left.Node? && t.right.Node?
      requires Plug(c, t) == tree && RedBlack(tree)
      modifies this`cells, this`root, this`tree
      ensures Shape(cells, root, Top, tree) && RedBlack(tree) && Inserted(InOrder(tree), old_, old(InOrder(tree)))
    {
      hide Shape, RedBlack, Plug, Lacking, Elems, Inserted;
      ghost var base := InRight(c, t.id, t.red, t.left);
      ChildrenRead(cells, root, c, t);
      PlugUp(base, t.right);
      Up(cells, root, base, t.right);
      var elm := cells[old_].right;
      ghost var d, sub;
      elm, d, sub := Leftmost(elm, base, t.right);
      ChildrenRead(cells, root, d, sub);
      var child, parent, red := cells[elm].right, cells[elm].parent, cells[elm].red;
      ghost var only := OnlyChild(sub);
      RemoveInnerFacts(cells, root, c, t, d, sub);
      UnlinkColours(d, sub, only);
      Unlink(elm, child, d, sub);
      if cells[elm].parent == old_ {
        parent := elm;
      }
      InnerShape(cells, root, d, only);
      Up(cells, root, base, Inner(d, only));
      Replace(old_, elm, c, Outer(base, Inner(d, only)));
      ghost var base' := Renamed(base, elm);
      ghost var d' := Rebased(d, base');
      RebasedInner(d, base', only);
      assert Outer(base', Inner(d', only)) == Outer(base, Inner(d, only)).(id := elm);
      Up(cells, root, base', Inner(d', only));
      InnerShape(cells, root, d', only);
      RemoveInnerEnd(c, t, d, sub);
      if !red {
        RemoveColor(parent, child, d', only);
      } else {
        UpAll(cells, root, d', only);
        PlugElems(d', only);
        tree := Plug(d', only);
      }
    }

    /** Down the left branches. */
    method Leftmost(start: nat, ghost base: Ctx, ghost t: Tree) returns (elm: nat, ghost d: Ctx, ghost sub: Tree)
      requires Shape(cells, root, base, t) && t.Node? && start == t.id && base.InRight?
      ensures Shape(cells, root, d, sub) && sub.Node? && elm == sub.id && sub.left.Leaf?
      ensures Base(d) == base && Inner(d, sub) == t
    {
      hide Shape;
      elm, d, sub := start, base, t;
      ChildrenRead(cells, root, d, sub);
      while cells[elm].left != 0
        invariant Shape(cells, root, d, sub) && sub.Node? && elm == sub.id
        invariant Base(d) == base && Inner(d, sub) == t
        invariant elm in cells && (cells[elm].left == 0 <==> sub.left.Leaf?)
        decreases sub
      {
        ChildrenRead(cells, root, d, sub);
        elm := cells[elm].left;
        d, sub := InLeft(d, sub.id, sub.red, sub.right), sub.left;
        Up(cells, root, d, sub);
        ChildrenRead(cells, root, d, sub);
      }
    }

    // ---------- search ----------

    /** RB_MINMAX: the first node, or the last one. */
    method MinMax(val: int) returns (r: nat)
      requires Valid()
      ensures Order() == [] ==> r == 0
      ensures Order() != [] ==> r == (if val < 0 then Order()[0] else Order()[|Order()| - 1]) && r != 0
    {
      hide Shape, RedBlack, Sorted;
      var tmp, parent := root, 0;
      ghost var c, t := Top, tree;
      Reads(cells, root, c, t);
      NullRoot(t);
      while tmp != 0
        invariant Shape(cells, root, c, t) && Elems(c, t) == InOrder(tree)
        invariant tmp == Root(t) && parent == ParentId(c) && (t.Leaf? <==> tmp == 0)
        invariant if val < 0 then Before(c) == [] && (c.Top? || (c.InLeft? && After(c) != [] && After(c)[0] == c.id && c.id != 0))
                  else After(c) == [] && (c.Top? || (c.InRight? && Before(c) != [] && Before(c)[|Before(c)| - 1] == c.id && c.id != 0))
        decreases t
      {
        parent := tmp;
        Reads(cells, root, c, t);
        if val < 0 {
          tmp := cells[tmp].left;
          c, t := InLeft(c, t.id, t.red, t.right), t.left;
        } else {
          tmp := cells[tmp].right;
          c, t := InRight(c, t.id, t.red, t.left), t.right;
        }
        UpElems(c, t);
        Up(cells, root, c, t);
        Reads(cells, root, c, t);
        NullRoot(t);
      }
      r := parent;
    }

    /** RB_NEXT: the node that follows in order, or null after the last one. */
    method Next(x: nat) returns (r: nat)
      requires Valid() && x in Order()
      ensures Follows(Order(), x, r)
    {
      hide Shape, RedBlack, Sorted, Follows;
      IdsAreElems(tree, x);
      ghost var q := Find(Top, tree, x);
      ghost var c, t := q.ctx, q.tree;
      UpAll(cells, root, c, t);
      PlugElems(c, t);
      ChildrenRead(cells, root, c, t);
      if cells[x].right != 0 {
        ghost var base := InRight(c, t.id, t.red, t.left);
        Up(cells, root, base, t.right);
        ghost var d, sub;
        r, d, sub := Leftmost(cells[x].right, base, t.right);
        FollowsInside(c, t, d, sub);
        return;
      }
      var elm := x;
      ghost var u := t;
      Reads(cells, root, c, t);
      while cells[elm].parent != 0 && elm == cells[cells[elm].parent].right
        invariant Shape(cells, root, c, u) && u.Node? && elm == u.id && After(c) == After(q.ctx)
        invariant elm in cells && cells[elm].parent == ParentId(c)
        invariant if c.Top? then ParentId(c) == 0 else c.id != 0 && c.id in cells && (c.InRight? <==> cells[c.id].right == elm)
        decreases Depth(c)
      {
        elm := cells[elm].parent;
        Up(cells, root, c, u);
        c, u := c.up, Outer(c, u);
        Reads(cells, root, c, u);
      }
      FollowsAbove(q.ctx, t);
      return cells[elm].parent;
    }
  }

  lemma {:induction false} PlugIsNode(c: Ctx, t: Tree)
    requires t.Node?
    ensures Plug(c, t).Node?
  {
    if !c.Top? {
      PlugIsNode(c.up, Outer(c, t));
    }
  }

  /** What one turn of RB_INSERT_COLOR reads. */
  lemma TurnReads(h: Heap, root: nat, c: Ctx, t: Tree)
    requires Shape(h, root, c, t) && !c.Top? && !c.up.Top? && t.Node?
    ensures var g, u := c.up, Sibling(c.up);
      && g.id in h && (g.InLeft? <==> h[g.id].left == c.id) && (if g.InLeft? then h[g.id].right else h[g.id].left) == Root(u)
      && (Root(u) != 0 ==> Root(u) in h && h[Root(u)].red == u.red) && (Root(u) == 0 <==> u.Leaf?)
      && c.id in h && (c.InLeft? <==> h[c.id].left == t.id) && (c.InRight? <==> h[c.id].right == t.id)
  {
    hide Shape;
    var g, u, p := c.up, Sibling(c.up), Outer(c, t);
    var gu := if g.InLeft? then InRight(g.up, g.id, g.red, p) else InLeft(g.up, g.id, g.red, p);
    Up(h, root, c, t);
    Up(h, root, g, p);
    Up(h, root, gu, u);
    Reads(h, root, c, t);
    Reads(h, root, g, p);
    Reads(h, root, gu, u);
  }

  lemma NullRoot(t: Tree)
    ensures t.Leaf? ==> Root(t) == 0
  {
  }

  /** The new key lies between those before and those after the place. */
  ghost predicate Between(keys: map<nat, Key>, c: Ctx, elm: nat) {
    && elm in keys
    && (forall x :: x in Before(c) ==> x in keys && Cmp(keys[x], keys[elm]) < 0)
    && (forall x :: x in After(c) ==> x in keys && Cmp(keys[elm], keys[x]) < 0)
  }

  lemma BetweenMeans(keys: map<nat, Key>, c: Ctx, elm: nat)
    requires Between(keys, c, elm)
    ensures elm in keys
    ensures forall x :: x in Before(c) ==> x in keys && Cmp(keys[x], keys[elm]) < 0
    ensures forall x :: x in After(c) ==> x in keys && Cmp(keys[elm], keys[x]) < 0
  {
  }

  lemma NodeHasKey(keys: map<nat, Key>, c: Ctx, t: Tree)
    requires Sorted(keys, InOrder(Plug(c, t))) && t.Node?
    ensures t.id in keys && t.id in InOrder(Plug(c, t))
    ensures forall x :: x in InOrder(t.left) ==> x in keys && Cmp(keys[x], keys[t.id]) < 0
    ensures forall x :: x in InOrder(t.right) ==> x in keys && Cmp(keys[t.id], keys[x]) < 0
  {
    hide Sorted, Cmp, Plug, Before, After;
    PlugElems(c, t);
    assert InOrder(Plug(c, t)) == Before(c) + InOrder(t.left) + [t.id] + InOrder(t.right) + After(c);
    MiddleKey(keys, Before(c), InOrder(t.left), t.id, InOrder(t.right), After(c));
  }

  lemma MiddleKey(keys: map<nat, Key>, a: seq<nat>, l: seq<nat>, m: nat, r: seq<nat>, b: seq<nat>)
    requires Sorted(keys, a + l + [m] + r + b)
    ensures m in keys && m in a + l + [m] + r + b
    ensures forall x :: x in l ==> x in keys && Cmp(keys[x], keys[m]) < 0
    ensures forall x :: x in r ==> x in keys && Cmp(keys[m], keys[x]) < 0
  {
    var s, k := a + l + [m] + r + b, |a| + |l|;
    assert s[k] == m;
    forall x | x in l
      ensures x in keys && Cmp(keys[x], keys[m]) < 0
    {
      var i :| 0 <= i < |l| && l[i] == x;
      assert s[|a| + i] == x;
    }
    forall x | x in r
      ensures x in keys && Cmp(keys[m], keys[x]) < 0
    {
      var i :| 0 <= i < |r| && r[i] == x;
      assert s[k + 1 + i] == x;
    }
  }

  lemma GoLeft(keys: map<nat, Key>, c: Ctx, t: Tree, elm: nat)
    requires Sorted(keys, InOrder(Plug(c, t))) && t.Node? && Between(keys, c, elm) && t.id in keys && Cmp(keys[elm], keys[t.id]) < 0
    ensures Between(keys, InLeft(c, t.id, t.red, t.right), elm)
  {
    NodeHasKey(keys, c, t);
  }

  lemma GoRight(keys: map<nat, Key>, c: Ctx, t: Tree, elm: nat)
    requires Sorted(keys, InOrder(Plug(c, t))) && t.Node? && Between(keys, c, elm) && t.id in keys && Cmp(keys[elm], keys[t.id]) > 0
    ensures Between(keys, InRight(c, t.id, t.red, t.left), elm)
  {
    NodeHasKey(keys, c, t);
  }

  lemma NewIsRaised(c: Ctx, elm: nat)
    requires RedBlack(Plug(c, Leaf))
    ensures Raised(c, Node(Leaf, elm, true, Leaf))
  {
    PlaceOfRedBlack(c, Leaf);
  }

  lemma ElmIsNew(keys: map<nat, Key>, c: Ctx, elm: nat)
    requires Between(keys, c, elm)
    ensures elm !in CtxIds(c)
  {
    CtxIdsAreElems(c, elm);
  }

  lemma StillSorted(keys: map<nat, Key>, a: seq<nat>, elm: nat, b: seq<nat>)
    requires Sorted(keys, a + b) && elm in keys
    requires forall x :: x in a ==> x in keys && Cmp(keys[x], keys[elm]) < 0
    requires forall x :: x in b ==> x in keys && Cmp(keys[elm], keys[x]) < 0
    ensures Sorted(keys, a + [elm] + b)
  {
    var s, s' := a + b, a + [elm] + b;
    forall i | 0 <= i < |s'|
      ensures s'[i] in keys
    {
      assert s'[i] == if i < |a| then s[i] else if i == |a| then elm else s[i - 1];
    }
    forall i, j | 0 <= i < j < |s'|
      ensures Cmp(keys[s'[i]], keys[s'[j]]) < 0
    {
      assert s'[i] == if i < |a| then s[i] else if i == |a| then elm else s[i - 1];
      assert s'[j] == if j < |a| then s[j] else if j == |a| then elm else s[j - 1];
      if i == |a| {
        assert s'[j] in b;
      } else if j == |a| {
        assert s'[i] in a;
      }
    }
  }

  lemma SortedWithout(keys: map<nat, Key>, s: seq<nat>, x: nat, s': seq<nat>)
    requires Inserted(s, x, s') && Sorted(keys, s')
    ensures Sorted(keys, s)
  {
    var i :| 0 <= i <= |s| && s' == s[..i] + [x] + s[i..];
    assert forall k :: 0 <= k < |s| ==> s[k] == s'[if k < i then k else k + 1];
    hide Inserted, Cmp;
    forall a, b | 0 <= a < b < |s|
      ensures s[a] in keys && s[b] in keys && Cmp(keys[s[a]], keys[s[b]]) < 0
    {
      var a', b' := if a < i then a else a + 1, if b < i then b else b + 1;
      assert s[a] == s'[a'] && s[b] == s'[b'];
    }
  }

  /** The surroundings of the sibling. */
  function Across(c: Ctx, t: Tree): (d: Ctx)
    requires !c.Top?
    ensures !d.Top? && d.up == c.up && d.id == c.id && Outer(d, Sibling(c)) == Outer(c, t)
  {
    if c.InLeft? then InRight(c.up, c.id, c.red, t) else InLeft(c.up, c.id, c.red, t)
  }

  /** What one turn of RB_REMOVE_COLOR reads. */
  lemma SiblingReads(h: Heap, root: nat, c: Ctx, t: Tree)
    requires Shape(h, root, c, t) && !c.Top? && Sibling(c).Node?
    ensures var s := Sibling(c);
      && c.id in h && (c.InLeft? <==> h[c.id].left == Root(t)) && (if c.InLeft? then h[c.id].right else h[c.id].left) == s.id
      && s.id in h && h[s.id].red == s.red && h[s.id].left == Root(s.left) && h[s.id].right == Root(s.right)
      && ChildReads(h, s.left) && ChildReads(h, s.right)
  {
    hide Shape;
    var s, cs := Sibling(c), Across(c, t);
    Up(h, root, c, t);
    Up(h, root, cs, s);
    Reads(h, root, c, t);
    Reads(h, root, cs, s);
    var cl, cr := InLeft(cs, s.id, s.red, s.right), InRight(cs, s.id, s.red, s.left);
    Up(h, root, cl, s.left);
    Reads(h, root, cl, s.left);
    Up(h, root, cr, s.right);
    Reads(h, root, cr, s.right);
    NullRoot(s.left);
    NullRoot(s.right);
  }

  ghost predicate ChildReads(h: Heap, t: Tree) {
    if t.Leaf? then Root(t) == 0 else t.id != 0 && t.id in h && h[t.id].red == t.red
  }

  function OnlyChild(t: Tree): Tree
    requires t.Node?
  {
    if t.left.Leaf? then t.right else t.left
  }

  lemma ChildrenRead(h: Heap, root: nat, c: Ctx, t: Tree)
    requires Shape(h, root, c, t) && t.Node?
    ensures t.id in h && t.id != 0 && h[t.id] == Cell(Root(t.left), Root(t.right), ParentId(c), t.red)
    ensures ChildReads(h, t.left) && ChildReads(h, t.right)
  {
    hide Shape;
    var cl, cr := InLeft(c, t.id, t.red, t.right), InRight(c, t.id, t.red, t.left);
    Reads(h, root, c, t);
    Up(h, root, cl, t.left);
    Reads(h, root, cl, t.left);
    Up(h, root, cr, t.right);
    Reads(h, root, cr, t.right);
    NullRoot(t.left);
    NullRoot(t.right);
  }

  lemma UnlinkReads(h: Heap, root: nat, c: Ctx, t: Tree)
    requires Shape(h, root, c, t) && t.Node?
    ensures t.id in h && t.id != 0 && h[t.id].parent == ParentId(c) && t.id != ParentId(c) && LinkReads(h, c, t.id)
    ensures var k := OnlyChild(t); ChildReads(h, k) && Root(k) != t.id && (k.Node? ==> k.id != ParentId(c))
  {
    ChildrenRead(h, root, c, t);
    Reads(h, root, c, t);
    PlacesApart(c, t);
    ParentIsIn(c);
    RootIsIn(OnlyChild(t));
  }

  lemma ReplaceReads(h: Heap, root: nat, c: Ctx, t: Tree, x: nat)
    requires Shape(h, root, c, t) && t.Node? && t.left.Node? && x !in Ids(t) && x !in CtxIds(c)
    ensures t.id in h && t.id != 0 && h[t.id] == Cell(Root(t.left), Root(t.right), ParentId(c), t.red) && LinkReads(h, c, t.id)
    ensures ChildReads(h, t.left) && ChildReads(h, t.right) && x != t.id && x != Root(t.left)
    ensures t.id != ParentId(c) && t.id != Root(t.left) && t.id != Root(t.right) && Root(t.left) != Root(t.right)
    ensures Root(t.left) != ParentId(c) && (t.right.Node? ==> x != t.right.id && t.right.id != ParentId(c)) && (!c.Top? ==> x != c.id)
  {
    ChildrenRead(h, root, c, t);
    Reads(h, root, c, t);
    PlacesApart(c, t);
    ParentIsIn(c);
    RootIsIn(t.left);
    RootIsIn(t.right);
  }

  lemma {:induction false} InnerShape(h: Heap, root: nat, d: Ctx, t: Tree)
    ensures Shape(h, root, d, t) <==> Shape(h, root, Base(d), Inner(d, t))
  {
    hide Shape;
    if d.InLeft? {
      Up(h, root, d, t);
      InnerShape(h, root, d.up, Outer(d, t));
    }
  }

  lemma UnlinkOrder(c: Ctx, t: Tree)
    requires t.Node? && (t.left.Leaf? || t.right.Leaf?)
    ensures Inserted(Elems(c, OnlyChild(t)), t.id, Elems(c, t))
  {
    hide Before, After;
    var k := OnlyChild(t);
    UnlinkElems(c, t, k);
    var s := Elems(c, k);
    var i := if t.left.Leaf? then |Before(c)| else |Before(c)| + |InOrder(k)|;
    assert s[..i] + [t.id] + s[i..] == Elems(c, t);
  }

  lemma PlugUp(c: Ctx, t: Tree)
    requires !c.Top?
    ensures Plug(c, t) == Plug(c.up, Outer(c, t))
  {
  }

  /** The next node in order, `sub` at `d` below the right child, is not part of what remains. */
  lemma RemoveInnerFacts(h: Heap, root: nat, c: Ctx, t: Tree, d: Ctx, sub: Tree)
    requires Shape(h, root, d, sub) && sub.Node? && t.Node?
    requires Base(d) == InRight(c, t.id, t.red, t.left) && Inner(d, sub) == t.right
    ensures Plug(d, sub) == Plug(c, t)
    ensures var rest := Outer(Base(d), Inner(d, OnlyChild(sub)));
      sub.id !in Ids(rest) && sub.id !in CtxIds(c)
    ensures ParentId(d) == t.id <==> !d.InLeft?
  {
    InnerPlug(d, sub);
    PlugUp(Base(d), t.right);
    var k := OnlyChild(sub);
    InnerIds(d, k);
    PlacesApart(d, sub);
    assert sub.id !in Ids(k) + CtxIds(d);
    BaseIsApart(d);
  }

  lemma {:induction false} BaseIsApart(d: Ctx)
    requires TidyCtx(d) && Base(d).InRight?
    ensures Base(d).id in CtxIds(d) && (d.InLeft? ==> Base(d).id in CtxIds(d.up) && d.id != Base(d).id)
  {
    if d.InLeft? {
      BaseIsApart(d.up);
    }
  }

  /** The colours do not depend on which node is where. */
  lemma RebasedPlace(d: Ctx, x: nat, k: Tree)
    requires Base(d).InRight?
    ensures var d' := Rebased(d, Renamed(Base(d), x));
      && (RedBlack(Plug(d, k)) ==> RedBlack(Plug(d', k))) && (Lacking(d, k) ==> Lacking(d', k))
  {
    hide Plug, Balanced, NoRedRed, BalancedAround, NoRedRedAround, TopBlack, BlackHeight;
    RebasedColours(d, x, BlackHeight(k), IsRed(k));
    RebasedColours(d, x, BlackHeight(k) + 1, false);
    var d' := Rebased(d, Renamed(Base(d), x));
    if RedBlack(Plug(d, k)) {
      PlaceOfRedBlack(d, k);
      PlugRedBlack(d', k);
    }
  }

  /** What remains is in order, without the node removed. */
  lemma RemoveInnerEnd(c: Ctx, t: Tree, d: Ctx, sub: Tree)
    requires sub.Node? && sub.left.Leaf? && t.Node?
    requires Base(d) == InRight(c, t.id, t.red, t.left) && Inner(d, sub) == t.right
    ensures var k := OnlyChild(sub); var d' := Rebased(d, Renamed(Base(d), sub.id));
      && (RedBlack(Plug(d, k)) ==> RedBlack(Plug(d', k))) && (Lacking(d, k) ==> Lacking(d', k))
      && Inserted(Elems(d', k), t.id, InOrder(Plug(c, t)))
  {
    hide RedBlack, Lacking;
    var k := OnlyChild(sub);
    var d' := Rebased(d, Renamed(Base(d), sub.id));
    RebasedPlace(d, sub.id, k);
    hide Plug, Inner;
    RemoveInnerOrder(c, t, d, sub);
  }

  lemma RemoveInnerOrder(c: Ctx, t: Tree, d: Ctx, sub: Tree)
    requires sub.Node? && sub.left.Leaf? && t.Node?
    requires Base(d) == InRight(c, t.id, t.red, t.left) && Inner(d, sub) == t.right
    ensures Inserted(Elems(Rebased(d, Renamed(Base(d), sub.id)), OnlyChild(sub)), t.id, InOrder(Plug(c, t)))
  {
    InnerPlug(d, sub);
    PlugUp(Base(d), t.right);
    PlugElems(d, sub);
    assert InOrder(Plug(c, t)) == Elems(d, sub);
    RebasedOrder(d, sub.id);
    var a, k := Before(c) + InOrder(t.left), OnlyChild(sub);
    assert InOrder(sub) == [sub.id] + InOrder(k);
    hide Before, After, Plug, Base, Rebased, Inner, InOrder, Inserted;
    assert Elems(d, sub) == a + [t.id] + ([sub.id] + InOrder(k)) + After(d);
    SwapOrder(a, t.id, sub.id, InOrder(k), After(d));
  }

  lemma SwapOrder(a: seq<nat>, x: nat, y: nat, b: seq<nat>, e: seq<nat>)
    ensures Inserted(a + [y] + b + e, x, a + [x] + ([y] + b) + e)
  {
    var s := a + [y] + b + e;
    assert s[..|a|] == a && s[|a|..] == [y] + b + e;
    assert a + [x] + ([y] + b) + e == a + [x] + ([y] + b + e);
  }

  /** `r` comes right after `x`, or is null when `x` is the last. */
  ghost predicate Follows(s: seq<nat>, x: nat, r: nat) {
    exists i :: 0 <= i < |s| && s[i] == x && r == if i + 1 < |s| then s[i + 1] else 0
  }

  lemma FollowsInside(c: Ctx, t: Tree, d: Ctx, sub: Tree)
    requires t.Node? && sub.Node? && sub.left.Leaf?
    requires Base(d) == InRight(c, t.id, t.red, t.left) && Inner(d, sub) == t.right
    ensures Follows(InOrder(Plug(c, t)), t.id, sub.id)
  {
    hide Follows, Rebased, Before, After;
    InsideOrder(c, t, d, sub);
    FollowsAt(Before(c) + InOrder(t.left), t.id, [sub.id] + InOrder(sub.right) + After(d));
  }

  lemma InsideOrder(c: Ctx, t: Tree, d: Ctx, sub: Tree)
    requires t.Node? && sub.Node? && sub.left.Leaf?
    requires Base(d) == InRight(c, t.id, t.red, t.left) && Inner(d, sub) == t.right
    ensures InOrder(Plug(c, t)) == Before(c) + InOrder(t.left) + [t.id] + ([sub.id] + InOrder(sub.right) + After(d))
  {
    InnerPlug(d, sub);
    PlugUp(Base(d), t.right);
    PlugElems(d, sub);
    RebasedOrder(d, sub.id);
    SpineOrder(Before(c) + InOrder(t.left), t.id, d, sub);
    hide Before, After, Plug, Base, Rebased, Inner;
  }

  lemma SpineOrder(a: seq<nat>, x: nat, d: Ctx, sub: Tree)
    requires sub.Node? && sub.left.Leaf? && Before(d) == a + [x]
    ensures Elems(d, sub) == a + [x] + ([sub.id] + InOrder(sub.right) + After(d))
  {
    hide Before, After;
    assert InOrder(sub) == [sub.id] + InOrder(sub.right);
  }

  /** A node without a right child is followed by the first of those after its place. */
  lemma FollowsAbove(c: Ctx, t: Tree)
    requires t.Node? && t.right.Leaf?
    ensures Follows(InOrder(Plug(c, t)), t.id, if After(c) == [] then 0 else After(c)[0])
  {
    PlugElems(c, t);
    var a := Before(c) + InOrder(t.left);
    assert InOrder(t) == InOrder(t.left) + [t.id];
    var s := InOrder(Plug(c, t));
    hide Before, After, Plug, InOrder;
    assert s == a + [t.id] + After(c);
    FollowsAt(a, t.id, After(c));
  }

  lemma FollowsAt(a: seq<nat>, x: nat, b: seq<nat>)
    ensures Follows(a + [x] + b, x, if b == [] then 0 else b[0])
  {
    var s := a + [x] + b;
    assert s[|a|] == x;
    assert b != [] ==> s[|a| + 1] == b[0];
  }
}
