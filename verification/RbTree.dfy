// rbtree.c: a mutable red-black tree with parent links and no nil sentinel.
module RbTree {
  import opened Common
  import opened Compare
  import opened RbShape
  import opened RbTheory

  // Null-safe accessors.
  function ParentLink(n: Node?): Node?
    reads n
  {
    if n == null then null else n.p
  }

  function LeftLink(n: Node?): Node?
    reads n
  {
    if n == null then null else n.l
  }

  function RightLink(n: Node?): Node?
    reads n
  {
    if n == null then null else n.r
  }

  function ColorAt(n: Node?): Color
    reads n
  {
    if n == null then Black else n.c
  }

  // Insertion fix-up: t's root is red, and that is all that can be wrong.
  ghost predicate InsertFix(z: Ctx, t: Tree, h: int) {
    t.Bin? && t.c == Red && BlackHeight(t, h) && NoRedRed(t) && Balanced(z, h)
  }

  // Deletion fix-up: t is one black node short of what its surroundings need;
  // its root may be red under a red parent or over a red child.
  ghost predicate DeleteFix(z: Ctx, t: Tree, h: int) {
    && !t.Leaf? && BlackHeight(Painted(t, Black), if ColorOf(t) == Red then h + 1 else h)
    && NoRedRed(Painted(t, Black)) && Balanced(z, h + 1)
  }

  class RbTree {
    var root: Node?
    const cmp: Comparator

    ghost var nodes: set<Node>
    ghost var tree: Tree

    // The heap is exactly the tree Plug(z, t).
    ghost predicate At(z: Ctx, t: Tree)
      reads this, nodes
    {
      Focus(Snapshot(nodes), root, z, t)
    }

    ghost predicate Valid()
      reads this, nodes
    {
      && TotalPreorder(cmp)
      && At(Top, tree)
      && RedBlack(tree)
      && Hollows(tree) == {}
      && Sorted(cmp, Elems(tree))
    }

    // The bindings in key order.
    ghost function Contents(): seq<Binding>
      reads this
    {
      Elems(tree)
    }

    constructor (cmp: Comparator)
      requires TotalPreorder(cmp)
      ensures Valid() && Contents() == [] && this.cmp == cmp && nodes == {}
    {
      root := null;
      this.cmp := cmp;
      nodes := {};
      tree := Leaf;
      new;
      assert BlackHeight(tree, 0);
    }

    lemma Reads(z: Ctx, t: Tree)
      requires At(z, t)
      ensures z.Top? <==> Root(t) == root
      ensures !z.Top? ==> root in nodes && z.n in nodes && z.n.p == ParentOf(z.up) && z.n.c == z.c
      ensures z.InLeft? ==> z.n.l == Root(t) && z.n.r == Root(z.r)
      ensures z.InRight? ==> z.n.r == Root(t) && z.n.l == Root(z.l)
      ensures !z.Top? && Root(Side(z)) != null ==> Root(Side(z)) in nodes && Root(Side(z)) != Root(t)
      ensures !z.Top? ==> ColorAt(Root(Side(z))) == ColorOf(Side(z))
      ensures !z.Top? ==> z.n != Root(t) && z.n != Root(Side(z))
      ensures t.Bin? ==> t.n in nodes && t.n.k == t.k && t.n.v == t.v && t.n.c == t.c
      ensures t.Bin? ==> t.n.l == Root(t.l) && t.n.r == Root(t.r) && t.n.p == ParentOf(z)
      ensures t.Bin? && Root(t.l) != null ==> Root(t.l) in nodes && Root(t.l) != t.n && Root(t.l) != Root(t.r)
      ensures t.Bin? && Root(t.r) != null ==> Root(t.r) in nodes && Root(t.r) != t.n
      ensures t.Bin? ==> ColorAt(t.n.l) == ColorOf(t.l) && ColorAt(t.n.r) == ColorOf(t.r)
      ensures t.Bin? && !z.Top? ==> z.n != Root(t.l) && z.n != Root(t.r)
      ensures t.Hollow? ==> t.n in nodes && t.n.c == Black && t.n.l == t.n.r == null && t.n.p == ParentOf(z)
    {
      hide Holds, CtxHolds, Nodes, CtxNodes, Sep, CtxSep;
      FocusReads(Snapshot(nodes), root, z, t);
    }

    lemma Up(z: Ctx, t: Tree)
      requires At(z, t) && !z.Top?
      ensures At(z.up, UpTree(z, t)) && Whole(z.up, UpTree(z, t)) == Whole(z, t)
    {
      FocusUp(Snapshot(nodes), root, z, t);
      WholeUp(z, t);
    }

    lemma Down(z: Ctx, t: Tree)
      requires At(z, t) && t.Bin?
      ensures At(DownLeft(z, t), t.l) && Whole(DownLeft(z, t), t.l) == Whole(z, t)
      ensures At(DownRight(z, t), t.r) && Whole(DownRight(z, t), t.r) == Whole(z, t)
    {
      FocusDown(Snapshot(nodes), root, z, t);
      WholeDown(z, t);
    }

    lemma ToTop(z: Ctx, t: Tree)
      requires At(z, t)
      ensures At(Top, Plug(z, t)) && Elems(Plug(z, t)) == Whole(z, t)
    {
      FocusTop(Snapshot(nodes), root, z, t);
      WholePlug(z, t);
    }

    // What lies below the sibling.
    lemma ReadsSide(z: Ctx, t: Tree)
      requires At(z, t) && !z.Top? && Side(z).Bin?
      ensures var s := Side(z);
        && s.n in nodes && s.n.l == Root(s.l) && s.n.r == Root(s.r)
        && ColorAt(s.n.l) == ColorOf(s.l) && ColorAt(s.n.r) == ColorOf(s.r)
    {
      hide Focus;
      Up(z, t);
      Down(z.up, UpTree(z, t));
      if z.InLeft? {
        Reads(DownRight(z.up, UpTree(z, t)), z.r);
      } else {
        Reads(DownLeft(z.up, UpTree(z, t)), z.l);
      }
    }

    // ---------------------------------------------------------------- primitives

    method SetColor(n: Node?, c: Color)
      modifies (if n == null then {} else {n})`c
      ensures n != null ==> n.c == c
    {
      if n != null {
        n.c := c;
      }
    }

    method RotateLeft(x: Node, ghost z: Ctx, ghost t: Tree)
      requires At(z, t) && t.Bin? && t.r.Bin? && t.n == x
      modifies `root, nodes
      ensures At(z, RotL(t))
    {
      ghost var m, rt := Snapshot(nodes), root;
      RotLCells(m, root, z, t);
      RotateLeftLinks(x);
      RotLStore(m, Snapshot(nodes), rt, root, z, t);
    }

    method RotateLeftLinks(x: Node)
      requires x in nodes && x.r != null && x.r in nodes && x != x.r
      requires x.r.l != null ==> x.r.l in nodes && x.r.l != x && x.r.l != x.r
      requires x.p != null ==> x.p in nodes && x.p != x && x.p != x.r && x.p != x.r.l
      modifies `root, nodes
      ensures forall n | n in nodes && n != x && n != old(x.r) && n != old(x.r.l) && n != old(x.p) ::
                Snapshot(nodes)[n] == old(Snapshot(nodes))[n]
      ensures Snapshot(nodes)[x] == old(Snapshot(nodes)[x].(r := x.r.l, p := x.r))
      ensures Snapshot(nodes)[old(x.r)] == old(Snapshot(nodes)[x.r].(l := x, p := x.p))
      ensures old(x.r.l) != null ==> Snapshot(nodes)[old(x.r.l)] == old(Snapshot(nodes)[x.r.l].(p := x))
      ensures root == if old(x.p) == null then old(x.r) else old(root)
      ensures old(x.p) != null ==>
                Snapshot(nodes)[old(x.p)] ==
                old(if x.p.l == x then Snapshot(nodes)[x.p].(l := x.r) else Snapshot(nodes)[x.p].(r := x.r))
    {
      var r := x.r;
      var rl := r.l;
      x.r := rl;
      if rl != null {
        rl.p := x;
      }
      var xp := x.p;
      r.p := xp;
      if xp == null {
        root := r;
      } else if xp.l == x {
        xp.l := r;
      } else {
        xp.r := r;
      }
      r.l := x;
      x.p := r;
    }

    method RotateRight(x: Node, ghost z: Ctx, ghost t: Tree)
      requires At(z, t) && t.Bin? && t.l.Bin? && t.n == x
      modifies `root, nodes
      ensures At(z, RotR(t))
    {
      ghost var m, rt := Snapshot(nodes), root;
      RotRCells(m, root, z, t);
      RotateRightLinks(x);
      RotRStore(m, Snapshot(nodes), rt, root, z, t);
    }

    method RotateRightLinks(x: Node)
      requires x in nodes && x.l != null && x.l in nodes && x != x.l
      requires x.l.r != null ==> x.l.r in nodes && x.l.r != x && x.l.r != x.l
      requires x.p != null ==> x.p in nodes && x.p != x && x.p != x.l && x.p != x.l.r
      modifies `root, nodes
      ensures forall n | n in nodes && n != x && n != old(x.l) && n != old(x.l.r) && n != old(x.p) ::
                Snapshot(nodes)[n] == old(Snapshot(nodes))[n]
      ensures Snapshot(nodes)[x] == old(Snapshot(nodes)[x].(l := x.l.r, p := x.l))
      ensures Snapshot(nodes)[old(x.l)] == old(Snapshot(nodes)[x.l].(r := x, p := x.p))
      ensures old(x.l.r) != null ==> Snapshot(nodes)[old(x.l.r)] == old(Snapshot(nodes)[x.l.r].(p := x))
      ensures root == if old(x.p) == null then old(x.l) else old(root)
      ensures old(x.p) != null ==>
                Snapshot(nodes)[old(x.p)] ==
                old(if x.p.r == x then Snapshot(nodes)[x.p].(r := x.l) else Snapshot(nodes)[x.p].(l := x.l))
    {
      var l := x.l;
      var lr := l.r;
      x.l := lr;
      if lr != null {
        lr.p := x;
      }
      var xp := x.p;
      l.p := xp;
      if xp == null {
        root := l;
      } else if xp.r == x {
        xp.r := l;
      } else {
        xp.l := l;
      }
      l.r := x;
      x.p := l;
    }

    // ---------------------------------------------------------------- insertion fix-up

    method FixAfterInsertion(n: Node, ghost zn: Ctx, ghost tn: Tree) returns (ghost u: Tree)
      requires At(zn, tn) && tn.Bin? && tn.n == n && tn.l == tn.r == Leaf
      requires Balanced(zn, 0) && CtxHollows(zn) == {}
      modifies `root, nodes
      ensures At(Top, u) && RedBlack(u)
      ensures Elems(u) == Whole(zn, tn) && Hollows(u) == {}
    {
      hide Focus, Whole, Balanced, Depth, RedBlack;
      var x: Node? := n;
      ghost var z, t, h := zn, tn, 0;
      PaintRoot(x, Red, z, t);
      t := t.(c := Red);
      PaintFacts(zn, tn);
      Reads(z, t);
      while x != null && x != root
        invariant At(z, t) && InsertFix(z, t, h) && x == t.n
        invariant Whole(z, t) == Whole(zn, tn)
        invariant CtxHollows(z) + Hollows(t) == {}
        decreases if Above(z) == Black then 0 else 1 + Depth(z)
      {
        Reads(z, t);
        var xp := x.p;
        if xp.c != Red {
          break;
        }
        GrandparentExists(z, t, h);
        Up(z, t);
        Reads(z.up, UpTree(z, t));
        if ParentLink(x) == LeftLink(ParentLink(ParentLink(x))) {
          x, z, t, h := FixInsertLeft(x, z, t, h);
        } else {
          x, z, t, h := FixInsertRight(x, z, t, h);
        }
      }
      Reads(z, t);
      ToTop(z, t);
      u := Plug(z, t);
      InsertFixed(z, t, h);
      var ro := root;
      Reads(Top, u);
      if ro.c != Black {
        PaintRoot(ro, Black, Top, u);
        u := u.(c := Black);
      }
    }

    // One round of the loop: the parent is a red left child.
    method FixInsertLeft(x: Node, ghost z: Ctx, ghost t: Tree, ghost h: int)
      returns (x': Node, ghost z': Ctx, ghost t': Tree, ghost h': int)
      requires At(z, t) && InsertFix(z, t, h) && x == t.n
      requires !z.Top? && z.c == Red && z.up.InLeft?
      modifies `root, nodes
      ensures At(z', t') && InsertFix(z', t', h') && x' == t'.n
      ensures Whole(z', t') == Whole(z, t)
      ensures CtxHollows(z') + Hollows(t') == CtxHollows(z) + Hollows(t)
      ensures Above(z') == Black || Depth(z') < Depth(z)
    {
      hide Focus, Whole, Balanced, Depth;
      x' := x;
      ghost var tp := UpTree(z, t);
      Reads(z, t);
      Up(z, t);
      Reads(z.up, tp);
      Up(z.up, tp);
      Reads(z.up.up, UpTree(z.up, tp));
      var y := RightLink(ParentLink(ParentLink(x)));
      if ColorAt(y) == Red {
        x' := RecolorUncle(x, y, z.up.up, UpTree(z.up, tp));
        z', t', h' := z.up.up, UncleRecolored(z, t), h + 1;
        RecolorUncleFacts(z, t, h);
      } else {
        if x' == RightLink(ParentLink(x')) {
          x' := ParentLink(x');
          RotateLeft(x', z.up, tp);
          tp := RotL(tp);
        }
        ghost var u := TurnedRight(z.up, tp);
        PaintAndTurnRight(x', z.up, tp);
        z', t', h' := DownLeft(z.up.up, u), u.l, h;
        Down(z.up.up, u);
        StraightenFacts(z, t, h);
        TurnRightFacts(z.up, tp, h);
      }
    }

    method PaintAndTurnRight(x: Node, ghost z: Ctx, ghost t: Tree)
      requires At(z, t) && z.InLeft? && t.Bin? && t.l.Bin? && x == t.l.n
      modifies `root, nodes
      ensures At(z.up, TurnedRight(z, t))
    {
      hide Focus, Nodes, CtxNodes, Whole;
      ghost var m := Snapshot(nodes);
      Down(z, t);
      Reads(DownLeft(z, t), t.l);
      Reads(z, t);
      Up(z, t);
      SetColor(ParentLink(x), Black);
      SetColor(ParentLink(ParentLink(x)), Red);
      RecolorStore(m, Snapshot(nodes), root, z.up, UpTree(z, t), Red, Black, ColorOf(z.r));
      if ParentLink(ParentLink(x)) != null {
        RotateRight(ParentLink(ParentLink(x)), z.up, Recolored(UpTree(z, t), Red, Black, ColorOf(z.r)));
      }
    }

    // One round of the loop: the parent is a red right child.
    method FixInsertRight(x: Node, ghost z: Ctx, ghost t: Tree, ghost h: int)
      returns (x': Node, ghost z': Ctx, ghost t': Tree, ghost h': int)
      requires At(z, t) && InsertFix(z, t, h) && x == t.n
      requires !z.Top? && z.c == Red && z.up.InRight?
      modifies `root, nodes
      ensures At(z', t') && InsertFix(z', t', h') && x' == t'.n
      ensures Whole(z', t') == Whole(z, t)
      ensures CtxHollows(z') + Hollows(t') == CtxHollows(z) + Hollows(t)
      ensures Above(z') == Black || Depth(z') < Depth(z)
    {
      hide Focus, Whole, Balanced, Depth;
      x' := x;
      ghost var tp := UpTree(z, t);
      Reads(z, t);
      Up(z, t);
      Reads(z.up, tp);
      Up(z.up, tp);
      Reads(z.up.up, UpTree(z.up, tp));
      var y := LeftLink(ParentLink(ParentLink(x)));
      if ColorAt(y) == Red {
        x' := RecolorUncle(x, y, z.up.up, UpTree(z.up, tp));
        z', t', h' := z.up.up, UncleRecolored(z, t), h + 1;
        RecolorUncleFacts(z, t, h);
      } else {
        if x' == LeftLink(ParentLink(x')) {
          x' := ParentLink(x');
          RotateRight(x', z.up, tp);
          tp := RotR(tp);
        }
        ghost var u := TurnedLeft(z.up, tp);
        PaintAndTurnLeft(x', z.up, tp);
        z', t', h' := DownRight(z.up.up, u), u.r, h;
        Down(z.up.up, u);
        StraightenFacts(z, t, h);
        TurnLeftFacts(z.up, tp, h);
      }
    }

    method PaintAndTurnLeft(x: Node, ghost z: Ctx, ghost t: Tree)
      requires At(z, t) && z.InRight? && t.Bin? && t.r.Bin? && x == t.r.n
      modifies `root, nodes
      ensures At(z.up, TurnedLeft(z, t))
    {
      hide Focus, Nodes, CtxNodes, Whole;
      ghost var m := Snapshot(nodes);
      Down(z, t);
      Reads(DownRight(z, t), t.r);
      Reads(z, t);
      Up(z, t);
      SetColor(ParentLink(x), Black);
      SetColor(ParentLink(ParentLink(x)), Red);
      RecolorStore(m, Snapshot(nodes), root, z.up, UpTree(z, t), Red, ColorOf(z.l), Black);
      if ParentLink(ParentLink(x)) != null {
        RotateLeft(ParentLink(ParentLink(x)), z.up, Recolored(UpTree(z, t), Red, ColorOf(z.l), Black));
      }
    }

    method PaintRoot(n: Node?, c: Color, ghost z: Ctx, ghost t: Tree)
      requires At(z, t) && Root(t) == n && t.Bin?
      modifies nodes
      ensures At(z, Painted(t, c))
    {
      hide Focus, Nodes, CtxNodes;
      ghost var m := Snapshot(nodes);
      Reads(z, t);
      SetColor(n, c);
      RecolorStore(m, Snapshot(nodes), root, z, t, c, ColorOf(t.l), ColorOf(t.r));
    }

    // The uncle y is red: the black moves down from the grandparent, root of t.
    method RecolorUncle(x: Node, y: Node, ghost z: Ctx, ghost t: Tree) returns (x': Node)
      requires At(z, t) && t.Bin? && t.l.Bin? && t.r.Bin?
      requires x in nodes && x.p != null && x.p.p == t.n
      requires (x.p == t.l.n && y == t.r.n) || (x.p == t.r.n && y == t.l.n)
      modifies nodes
      ensures At(z, Recolored(t, Red, Black, Black)) && x' == t.n
    {
      hide Focus, Nodes, CtxNodes, Whole;
      ghost var m := Snapshot(nodes);
      Reads(z, t);
      SetColor(ParentLink(x), Black);
      SetColor(y, Black);
      SetColor(ParentLink(ParentLink(x)), Red);
      x' := ParentLink(ParentLink(x));
      RecolorStore(m, Snapshot(nodes), root, z, t, Red, Black, Black);
    }

    // ---------------------------------------------------------------- deletion fix-up

    method FixAfterDeletion(n: Node, ghost zn: Ctx, ghost tn: Tree, ghost hn: int) returns (ghost u: Tree)
      requires At(zn, tn) && n == Root(tn) && DeleteFix(zn, tn, hn)
      modifies `root, nodes
      ensures At(Top, u) && RedBlack(u)
      ensures Elems(u) == Whole(zn, tn) && Hollows(u) == CtxHollows(zn) + Hollows(tn)
    {
      hide Focus, Whole, Balanced, BlackHeight, NoRedRed, RedBlack;
      var x: Node? := n;
      ghost var z, t, h := zn, tn, hn;
      Reads(z, t);
      while x != root && ColorAt(x) == Black
        invariant At(z, t) && x == Root(t) && ColorAt(x) == ColorOf(t) && DeleteFix(z, t, h)
        invariant Whole(z, t) == Whole(zn, tn)
        invariant CtxHollows(z) + Hollows(t) == CtxHollows(zn) + Hollows(tn)
        decreases if ColorOf(t) == Red then 0 else Depth(z)
      {
        Reads(z, t);
        if x == LeftLink(ParentLink(x)) {
          x, z, t, h := FixDeleteLeft(x, z, t, h);
        } else {
          x, z, t, h := FixDeleteRight(x, z, t, h);
        }
        Reads(z, t);
      }
      Reads(z, t);
      DeleteFixed(z, t, h);
      if x != null && x.c != Black {
        PaintRoot(x, Black, z, t);
        t := Painted(t, Black);
      }
      ToTop(z, t);
      u := Plug(z, t);
    }

    // One round of the loop: x is a black left child.
    method FixDeleteLeft(x: Node, ghost z: Ctx, ghost t: Tree, ghost h: int)
      returns (x': Node?, ghost z': Ctx, ghost t': Tree, ghost h': int)
      requires At(z, t) && x == Root(t) && DeleteFix(z, t, h) && z.InLeft? && ColorOf(t) == Black
      modifies `root, nodes
      ensures At(z', t') && x' == Root(t') && DeleteFix(z', t', h')
      ensures Whole(z', t') == Whole(z, t)
      ensures CtxHollows(z') + Hollows(t') == CtxHollows(z) + Hollows(t)
      ensures ColorOf(t') == Red || Depth(z') < Depth(z)
    {
      hide Focus, Whole, Balanced, BlackHeight, NoRedRed, RedBlack, DeleteFix;
      var sib: Node?;
      sib, z' := BlackRightSibling(x, z, t, h);
      ReadsSide(z', t);
      if ColorAt(LeftLink(sib)) == Black && ColorAt(RightLink(sib)) == Black {
        PushUpLeftFacts(z', t, h);
        x' := PushUpLeft(x, sib, z', t);
        z', t', h' := z'.up, RightSiblingReddened(z', t), if z'.c == Black then h + 1 else h;
      } else {
        x', t', h' := RebalanceLeft(x, sib, z', t, h);
        z' := Top;
      }
    }

    // A red sibling goes up; x's sibling is then a black one.
    method BlackRightSibling(x: Node, ghost z: Ctx, ghost t: Tree, ghost h: int)
      returns (sib: Node?, ghost z': Ctx)
      requires At(z, t) && x == Root(t) && DeleteFix(z, t, h) && z.InLeft? && ColorOf(t) == Black
      modifies `root, nodes
      ensures At(z', t) && DeleteFix(z', t, h) && Whole(z', t) == Whole(z, t) && CtxHollows(z') == CtxHollows(z)
      ensures z'.InLeft? && z'.r.Bin? && z'.r.n == sib && ColorOf(z'.r) == Black
      ensures z' == z || z'.c == Red
    {
      hide Focus, Whole, Balanced, BlackHeight, NoRedRed, RedBlack, DeleteFix;
      z' := z;
      Reads(z', t);
      sib := RightLink(ParentLink(x));
      if ColorAt(sib) == Red {
        LiftRightSiblingFacts(z, t, h);
        LiftRightSibling(x, sib, z, t);
        z' := RightSiblingLifted(z, t);
        Reads(z', t);
        sib := RightLink(ParentLink(x));
      }
      RightSiblingExists(z', t, h);
    }

    // A red nephew makes up for the missing black node, and the loop ends.
    method RebalanceLeft(x: Node, sib0: Node?, ghost z: Ctx, ghost t: Tree, ghost h: int)
      returns (x': Node?, ghost t': Tree, ghost h': int)
      requires At(z, t) && x == Root(t) && DeleteFix(z, t, h) && z.InLeft? && ColorOf(t) == Black
      requires z.r.Bin? && z.r.n == sib0 && ColorOf(z.r) == Black
      requires ColorOf(z.r.l) == Red || ColorOf(z.r.r) == Red
      modifies `root, nodes
      ensures At(Top, t') && x' == Root(t') && DeleteFix(Top, t', h')
      ensures Whole(Top, t') == Whole(z, t) && Hollows(t') == CtxHollows(z) + Hollows(t)
    {
      hide Focus, Whole, Balanced, BlackHeight, NoRedRed, RedBlack, DeleteFix;
      var sib := sib0;
      ghost var z' := z;
      ReadsSide(z, t);
      if ColorAt(RightLink(sib)) == Black {
        TurnLeftNephewFacts(z, t, h);
        TurnLeftNephew(sib, z, t);
        z' := LeftNephewTurned(z);
        Reads(z', t);
        sib := RightLink(ParentLink(x));
      }
      LiftLeftFacts(z', t, h);
      LiftLeft(x, sib, z', t);
      x' := root;
      t' := Plug(z'.up, LeftLifted(z', t));
      h' := LiftedHeight(t');
      Reads(Top, t');
    }

    method LiftRightSibling(x: Node, sib: Node?, ghost z: Ctx, ghost t: Tree)
      requires At(z, t) && z.InLeft? && x == Root(t) && ColorOf(t) == Black && sib == Root(z.r) && ColorOf(z.r) == Red
      modifies `root, nodes
      ensures At(RightSiblingLifted(z, t), t)
    {
      hide Focus, Nodes, CtxNodes, Whole;
      ghost var m := Snapshot(nodes);
      Reads(z, t);
      Up(z, t);
      SetColor(sib, Black);
      SetColor(ParentLink(x), Red);
      RecolorStore(m, Snapshot(nodes), root, z.up, UpTree(z, t), Red, ColorOf(t), Black);
      ghost var g := Recolored(UpTree(z, t), Red, ColorOf(t), Black);
      RotateLeft(ParentLink(x), z.up, g);
      Down(z.up, RotL(g));
      Down(DownLeft(z.up, RotL(g)), RotL(g).l);
    }

    method TurnLeftNephew(sib: Node?, ghost z: Ctx, ghost t: Tree)
      requires At(z, t) && z.InLeft? && z.r.Bin? && sib == z.r.n && ColorOf(z.r.l) == Red
      modifies `root, nodes
      ensures At(LeftNephewTurned(z), t)
    {
      hide Focus, Nodes, CtxNodes, Whole;
      ghost var m := Snapshot(nodes);
      Up(z, t);
      ghost var zs := DownRight(z.up, UpTree(z, t));
      Down(z.up, UpTree(z, t));
      Reads(zs, z.r);
      SetColor(LeftLink(sib), Black);
      SetColor(sib, Red);
      RecolorStore(m, Snapshot(nodes), root, zs, z.r, Red, Black, ColorOf(z.r.r));
      ghost var s := Recolored(z.r, Red, Black, ColorOf(z.r.r));
      RotateRight(sib, zs, s);
      Up(zs, RotR(s));
      Down(z.up, UpTree(zs, RotR(s)));
    }

    method LiftLeft(x: Node, sib: Node?, ghost z: Ctx, ghost t: Tree)
      requires At(z, t) && z.InLeft? && x == Root(t) && z.r.Bin? && sib == z.r.n && ColorOf(z.r.r) == Red
      modifies `root, nodes
      ensures At(Top, Plug(z.up, LeftLifted(z, t)))
    {
      hide Focus, Nodes, CtxNodes, Whole;
      ghost var m := Snapshot(nodes);
      Reads(z, t);
      Up(z, t);
      SetColor(sib, ColorAt(ParentLink(x)));
      SetColor(ParentLink(x), Black);
      RecolorStore(m, Snapshot(nodes), root, z.up, UpTree(z, t), Black, ColorOf(t), z.c);
      ghost var g := Recolored(UpTree(z, t), Black, ColorOf(t), z.c);
      ghost var zs := DownRight(z.up, g);
      Down(z.up, g);
      Reads(zs, g.r);
      Down(zs, g.r);
      PaintRoot(RightLink(sib), Black, DownRight(zs, g.r), g.r.r);
      Up(DownRight(zs, g.r), Painted(g.r.r, Black));
      Up(zs, g.r.(r := Painted(g.r.r, Black)));
      g := g.(r := g.r.(r := Painted(g.r.r, Black)));
      Down(z.up, g);
      Reads(DownLeft(z.up, g), g.l);
      RotateLeft(ParentLink(x), z.up, g);
      ToTop(z.up, RotL(g));
    }

    method PushUpLeft(x: Node, sib: Node?, ghost z: Ctx, ghost t: Tree) returns (x': Node?)
      requires At(z, t) && z.InLeft? && x == Root(t) && z.r.Bin? && sib == z.r.n
      modifies nodes
      ensures At(z.up, RightSiblingReddened(z, t)) && x' == z.n
    {
      hide Focus, Nodes, CtxNodes, Whole;
      ghost var m := Snapshot(nodes);
      Reads(z, t);
      Up(z, t);
      SetColor(sib, Red);
      x' := ParentLink(x);
      RecolorStore(m, Snapshot(nodes), root, z.up, UpTree(z, t), z.c, ColorOf(t), Red);
    }

    // One round of the loop: x is a black right child.
    method FixDeleteRight(x: Node, ghost z: Ctx, ghost t: Tree, ghost h: int)
      returns (x': Node?, ghost z': Ctx, ghost t': Tree, ghost h': int)
      requires At(z, t) && x == Root(t) && DeleteFix(z, t, h) && z.InRight? && ColorOf(t) == Black
      modifies `root, nodes
      ensures At(z', t') && x' == Root(t') && DeleteFix(z', t', h')
      ensures Whole(z', t') == Whole(z, t)
      ensures CtxHollows(z') + Hollows(t') == CtxHollows(z) + Hollows(t)
      ensures ColorOf(t') == Red || Depth(z') < Depth(z)
    {
      hide Focus, Whole, Balanced, BlackHeight, NoRedRed, RedBlack, DeleteFix;
      var sib: Node?;
      sib, z' := BlackLeftSibling(x, z, t, h);
      ReadsSide(z', t);
      if ColorAt(RightLink(sib)) == Black && ColorAt(LeftLink(sib)) == Black {
        PushUpRightFacts(z', t, h);
        x' := PushUpRight(x, sib, z', t);
        z', t', h' := z'.up, LeftSiblingReddened(z', t), if z'.c == Black then h + 1 else h;
      } else {
        x', t', h' := RebalanceRight(x, sib, z', t, h);
        z' := Top;
      }
    }

    // A red sibling goes up; x's sibling is then a black one.
    method BlackLeftSibling(x: Node, ghost z: Ctx, ghost t: Tree, ghost h: int)
      returns (sib: Node?, ghost z': Ctx)
      requires At(z, t) && x == Root(t) && DeleteFix(z, t, h) && z.InRight? && ColorOf(t) == Black
      modifies `root, nodes
      ensures At(z', t) && DeleteFix(z', t, h) && Whole(z', t) == Whole(z, t) && CtxHollows(z') == CtxHollows(z)
      ensures z'.InRight? && z'.l.Bin? && z'.l.n == sib && ColorOf(z'.l) == Black
      ensures z' == z || z'.c == Red
    {
      hide Focus, Whole, Balanced, BlackHeight, NoRedRed, RedBlack, DeleteFix;
      z' := z;
      Reads(z', t);
      sib := LeftLink(ParentLink(x));
      if ColorAt(sib) == Red {
        LiftLeftSiblingFacts(z, t, h);
        LiftLeftSibling(x, sib, z, t);
        z' := LeftSiblingLifted(z, t);
        Reads(z', t);
        sib := LeftLink(ParentLink(x));
      }
      LeftSiblingExists(z', t, h);
    }

    // A red nephew makes up for the missing black node, and the loop ends.
    method RebalanceRight(x: Node, sib0: Node?, ghost z: Ctx, ghost t: Tree, ghost h: int)
      returns (x': Node?, ghost t': Tree, ghost h': int)
      requires At(z, t) && x == Root(t) && DeleteFix(z, t, h) && z.InRight? && ColorOf(t) == Black
      requires z.l.Bin? && z.l.n == sib0 && ColorOf(z.l) == Black
      requires ColorOf(z.l.r) == Red || ColorOf(z.l.l) == Red
      modifies `root, nodes
      ensures At(Top, t') && x' == Root(t') && DeleteFix(Top, t', h')
      ensures Whole(Top, t') == Whole(z, t) && Hollows(t') == CtxHollows(z) + Hollows(t)
    {
      hide Focus, Whole, Balanced, BlackHeight, NoRedRed, RedBlack, DeleteFix;
      var sib := sib0;
      ghost var z' := z;
      ReadsSide(z, t);
      if ColorAt(LeftLink(sib)) == Black {
        TurnRightNephewFacts(z, t, h);
        TurnRightNephew(sib, z, t);
        z' := RightNephewTurned(z);
        Reads(z', t);
        sib := LeftLink(ParentLink(x));
      }
      LiftRightFacts(z', t, h);
      LiftRight(x, sib, z', t);
      x' := root;
      t' := Plug(z'.up, RightLifted(z', t));
      h' := LiftedHeight(t');
      Reads(Top, t');
    }

    method LiftLeftSibling(x: Node, sib: Node?, ghost z: Ctx, ghost t: Tree)
      requires At(z, t) && z.InRight? && x == Root(t) && ColorOf(t) == Black && sib == Root(z.l) && ColorOf(z.l) == Red
      modifies `root, nodes
      ensures At(LeftSiblingLifted(z, t), t)
    {
      hide Focus, Nodes, CtxNodes, Whole;
      ghost var m := Snapshot(nodes);
      Reads(z, t);
      Up(z, t);
      SetColor(sib, Black);
      SetColor(ParentLink(x), Red);
      RecolorStore(m, Snapshot(nodes), root, z.up, UpTree(z, t), Red, Black, ColorOf(t));
      ghost var g := Recolored(UpTree(z, t), Red, Black, ColorOf(t));
      RotateRight(ParentLink(x), z.up, g);
      Down(z.up, RotR(g));
      Down(DownRight(z.up, RotR(g)), RotR(g).r);
    }

    method TurnRightNephew(sib: Node?, ghost z: Ctx, ghost t: Tree)
      requires At(z, t) && z.InRight? && z.l.Bin? && sib == z.l.n && ColorOf(z.l.r) == Red
      modifies `root, nodes
      ensures At(RightNephewTurned(z), t)
    {
      hide Focus, Nodes, CtxNodes, Whole;
      ghost var m := Snapshot(nodes);
      Up(z, t);
      ghost var zs := DownLeft(z.up, UpTree(z, t));
      Down(z.up, UpTree(z, t));
      Reads(zs, z.l);
      SetColor(RightLink(sib), Black);
      SetColor(sib, Red);
      RecolorStore(m, Snapshot(nodes), root, zs, z.l, Red, ColorOf(z.l.l), Black);
      ghost var s := Recolored(z.l, Red, ColorOf(z.l.l), Black);
      RotateLeft(sib, zs, s);
      Up(zs, RotL(s));
      Down(z.up, UpTree(zs, RotL(s)));
    }

    method LiftRight(x: Node, sib: Node?, ghost z: Ctx, ghost t: Tree)
      requires At(z, t) && z.InRight? && x == Root(t) && z.l.Bin? && sib == z.l.n && ColorOf(z.l.l) == Red
      modifies `root, nodes
      ensures At(Top, Plug(z.up, RightLifted(z, t)))
    {
      hide Focus, Nodes, CtxNodes, Whole;
      ghost var m := Snapshot(nodes);
      Reads(z, t);
      Up(z, t);
      SetColor(sib, ColorAt(ParentLink(x)));
      SetColor(ParentLink(x), Black);
      RecolorStore(m, Snapshot(nodes), root, z.up, UpTree(z, t), Black, z.c, ColorOf(t));
      ghost var g := Recolored(UpTree(z, t), Black, z.c, ColorOf(t));
      ghost var zs := DownLeft(z.up, g);
      Down(z.up, g);
      Reads(zs, g.l);
      Down(zs, g.l);
      PaintRoot(LeftLink(sib), Black, DownLeft(zs, g.l), g.l.l);
      Up(DownLeft(zs, g.l), Painted(g.l.l, Black));
      Up(zs, g.l.(l := Painted(g.l.l, Black)));
      g := g.(l := g.l.(l := Painted(g.l.l, Black)));
      Down(z.up, g);
      Reads(DownRight(z.up, g), g.r);
      RotateRight(ParentLink(x), z.up, g);
      ToTop(z.up, RotR(g));
    }

    method PushUpRight(x: Node, sib: Node?, ghost z: Ctx, ghost t: Tree) returns (x': Node?)
      requires At(z, t) && z.InRight? && x == Root(t) && z.l.Bin? && sib == z.l.n
      modifies nodes
      ensures At(z.up, LeftSiblingReddened(z, t)) && x' == z.n
    {
      hide Focus, Nodes, CtxNodes, Whole;
      ghost var m := Snapshot(nodes);
      Reads(z, t);
      Up(z, t);
      SetColor(sib, Red);
      x' := ParentLink(x);
      RecolorStore(m, Snapshot(nodes), root, z.up, UpTree(z, t), z.c, Red, ColorOf(t));
    }

    // ---------------------------------------------------------------- lookup and successor

    // The search for k has come to t.
    ghost predicate Reached(z: Ctx, t: Tree, k: Ptr)
      reads this, nodes
    {
      At(z, t) && Plug(z, t) == tree && Whole(z, t) == Contents() && Between(cmp, z, k)
    }

    lemma ReachedRoot(k: Ptr)
      requires Valid()
      ensures Reached(Top, tree, k) && Root(tree) == root
    {
      hide Focus;
      Reads(Top, tree);
    }

    lemma ReachedBelow(z: Ctx, t: Tree, k: Ptr)
      requires Valid() && Reached(z, t, k)
      ensures !t.Hollow? && (t.Bin? ==> At(z, t) && t.n in nodes && t.n.k == t.k)
      ensures t.Bin? && cmp(k, t.k) < 0 ==> Reached(DownLeft(z, t), t.l, k) && t.n.l == Root(t.l)
      ensures t.Bin? && cmp(k, t.k) > 0 ==> Reached(DownRight(z, t), t.r, k) && t.n.r == Root(t.r)
      ensures t.Bin? && cmp(k, t.k) == 0 ==> FoundAt(cmp, Contents(), k, Rank(z, t))
    {
      hide Focus, Hollows, Balanced, BlackHeight, NoRedRed, RedBlack, Between, Elems, Sorted, Whole;
      Reads(z, t);
      NoHollowHere(z, t);
      if t.Bin? {
        Down(z, t);
        if cmp(k, t.k) < 0 {
          GoLeft(cmp, z, t, k);
        } else if cmp(k, t.k) > 0 {
          GoRight(cmp, z, t, k);
        } else {
          RankIsIndex(z, t);
        }
      }
    }

    lemma ReachedNothing(z: Ctx, k: Ptr)
      requires Valid() && Reached(z, Leaf, k)
      ensures Absent(cmp, Contents(), k)
    {
      hide Focus, Hollows, RedBlack, Between, Absent, Whole;
      EmptyPlace(cmp, z, k, NULL);
    }

    method Lookup(k: Ptr) returns (n: Node?, ghost z: Ctx, ghost t: Tree)
      requires Valid()
      ensures n == null ==> Absent(cmp, Contents(), k)
      ensures n != null ==> At(z, t) && t.Bin? && t.n == n && Plug(z, t) == tree
      ensures n != null ==> FoundAt(cmp, Contents(), k, Rank(z, t))
    {
      hide Valid, At, Between, Whole, Absent, FoundAt;
      var p := root;
      z, t := Top, tree;
      ReachedRoot(k);
      while p != null
        invariant Reached(z, t, k) && p == Root(t)
        decreases t
      {
        ReachedBelow(z, t, k);
        var c := cmp(k, p.k);
        if c == 0 {
          return p, z, t;
        } else if c < 0 {
          z, t := DownLeft(z, t), t.l;
          p := p.l;
        } else {
          z, t := DownRight(z, t), t.r;
          p := p.r;
        }
      }
      ReachedBelow(z, t, k);
      ReachedNothing(z, k);
      n := null;
    }

    // The node after n in key order, or null if n is the last.
    method Successor(n: Node?, ghost z: Ctx, ghost t: Tree) returns (s: Node?, ghost zs: Ctx, ghost ts: Tree)
      requires n != null ==> At(z, t) && t.Bin? && t.n == n && Hollows(Plug(z, t)) == {}
      ensures n == null ==> s == null
      ensures n != null ==> (s == null <==> Rank(z, t) + 1 == |Whole(z, t)|)
      ensures s != null ==> At(zs, ts) && ts.Bin? && ts.n == s && Plug(zs, ts) == Plug(z, t)
      ensures s != null ==> Rank(zs, ts) == Rank(z, t) + 1
      ensures n != null && t.r.Bin? ==> s != null && (zs, ts) == Leftmost(DownRight(z, t), t.r)
    {
      hide Focus, Hollows;
      zs, ts := z, t;
      if n == null {
        return null, zs, ts;
      }
      Reads(z, t);
      Down(z, t);
      NoHollowHere(DownRight(z, t), t.r);
      if n.r != null {
        s, zs, ts := DownToLeftmost(n.r, DownRight(z, t), t.r);
        LeftmostFacts(DownRight(z, t), t.r);
        RankIsIndex(zs, ts);
      } else {
        s, zs, ts := UpToSuccessor(n, z, t);
      }
    }

    method DownToLeftmost(n: Node, ghost z: Ctx, ghost t: Tree) returns (p: Node, ghost zs: Ctx, ghost ts: Tree)
      requires At(z, t) && t.Bin? && t.n == n && Hollows(Plug(z, t)) == {}
      ensures At(zs, ts) && ts.Bin? && ts.n == p && (zs, ts) == Leftmost(z, t)
    {
      hide Focus, Hollows;
      p := n;
      zs, ts := z, t;
      Reads(zs, ts);
      while p.l != null
        invariant At(zs, ts) && ts.Bin? && p == ts.n && p.l == Root(ts.l)
        invariant Leftmost(zs, ts) == Leftmost(z, t) && Hollows(Plug(zs, ts)) == {}
        decreases ts
      {
        Down(zs, ts);
        NoHollowHere(DownLeft(zs, ts), ts.l);
        zs, ts := DownLeft(zs, ts), ts.l;
        Reads(zs, ts);
        p := p.l;
      }
      NoHollowHere(DownLeft(zs, ts), ts.l);
    }

    method UpToSuccessor(n: Node, ghost z: Ctx, ghost t: Tree) returns (p: Node?, ghost zs: Ctx, ghost ts: Tree)
      requires At(z, t) && t.Bin? && t.n == n && t.r == Leaf
      ensures p == null <==> Rank(z, t) + 1 == |Whole(z, t)|
      ensures p != null ==> At(zs, ts) && ts.Bin? && ts.n == p && Plug(zs, ts) == Plug(z, t)
      ensures p != null ==> Rank(zs, ts) == Rank(z, t) + 1
    {
      hide Focus;
      zs, ts := z, t;
      Reads(zs, ts);
      p := n.p;
      var ch: Node := n;
      while p != null && ch == p.r
        invariant At(zs, ts) && ch == Root(ts) && p == ParentOf(zs) && Plug(zs, ts) == Plug(z, t)
        invariant Before(zs) + Elems(ts) == Before(z) + Elems(t) && After(zs) == After(z)
        decreases zs
      {
        Reads(zs, ts);
        Up(zs, ts);
        UpRightBefore(zs, ts);
        ch := p;
        zs, ts := zs.up, UpTree(zs, ts);
        Reads(zs, ts);
        p := p.p;
      }
      assert |Before(zs)| + |Elems(ts)| == |Before(zs) + Elems(ts)| == Rank(z, t) + 1;
      if p != null {
        Reads(zs, ts);
        Up(zs, ts);
        zs, ts := zs.up, UpTree(zs, ts);
      }
    }

    // ---------------------------------------------------------------- insertion

    // Puts (k, v) in node n, unless a key that compares equal is there already:
    // then that node is returned and nothing changes.
    method Insert(k: Ptr, v: Ptr, n: Node) returns (ex: Node?, ghost z: Ctx, ghost t: Tree)
      requires Valid() && n !in nodes
      modifies this, nodes, n
      ensures Valid()
      ensures ex == null ==> nodes == old(nodes) + {n} && Absent(cmp, old(Contents()), k)
      ensures ex == null ==> InsertedInto(old(Contents()), Contents(), (k, v))
      ensures ex != null ==> unchanged(this) && unchanged(old(nodes))
      ensures ex != null ==> At(z, t) && t.Bin? && t.n == ex && Plug(z, t) == tree
      ensures ex != null ==> FoundAt(cmp, Contents(), k, Rank(z, t))
    {
      hide Valid, At, Between, Whole, Absent, FoundAt, InsertedInto;
      z, t := Top, tree;
      ReachedRoot(k);
      var e := root;
      if e == null {
        ReachedBelow(z, t, k);
        InsertFirst(k, v, n);
        return null, z, t;
      }
      while true
        invariant Valid() && unchanged(this) && unchanged(old(nodes))
        invariant Reached(z, t, k) && e == Root(t) && e != null
        decreases t
      {
        ReachedBelow(z, t, k);
        var c := cmp(k, e.k);
        if c == 0 {
          return e, z, t;
        } else if c < 0 {
          z, t := DownLeft(z, t), t.l;
          var tl := e.l;
          if tl != null {
            e := tl;
          } else {
            ReachedBelow(z, t, k);
            AttachLeft(e, k, v, n, z);
            return null, z, t;
          }
        } else {
          z, t := DownRight(z, t), t.r;
          var tr := e.r;
          if tr != null {
            e := tr;
          } else {
            ReachedBelow(z, t, k);
            AttachRight(e, k, v, n, z);
            return null, z, t;
          }
        }
      }
    }

    method InsertFirst(k: Ptr, v: Ptr, n: Node)
      requires Valid() && n !in nodes && root == null
      modifies this, n
      ensures Valid() && nodes == old(nodes) + {n} && Absent(cmp, old(Contents()), k)
      ensures InsertedInto(old(Contents()), Contents(), (k, v))
    {
      Reads(Top, tree);
      ghost var m := Snapshot(nodes);
      n.l := null;
      n.r := null;
      n.p := null;
      n.k := k;
      n.v := v;
      n.c := Black;
      root := n;
      nodes := nodes + {n};
      AttachStore(m, Snapshot(nodes), null, root, Top, n, k, v, Black);
      tree := Bin(Leaf, n, k, v, Black, Leaf);
      assert BlackHeight(tree, 1);
      assert Contents() == With(old(Contents()), 0, (k, v));
    }

    // The empty left place below e, found by the search for k, takes n.
    method AttachLeft(e: Node, k: Ptr, v: Ptr, n: Node, ghost z: Ctx)
      requires Valid() && n !in nodes && At(z, Leaf) && z.InLeft? && z.n == e
      requires Plug(z, Leaf) == tree && Between(cmp, z, k)
      modifies this, nodes, n
      ensures Valid() && nodes == old(nodes) + {n} && Absent(cmp, old(Contents()), k)
      ensures InsertedInto(old(Contents()), Contents(), (k, v))
    {
      hide Focus, BlackHeight, NoRedRed, RedBlack, Sorted, InsertedInto, Between, Absent;
      HangLeft(e, k, v, n, z);
      AttachFacts(cmp, z, tree, k, v, n, n.c);
      tree := FixAfterInsertion(n, z, Bin(Leaf, n, k, v, n.c, Leaf));
    }

    method HangLeft(e: Node, k: Ptr, v: Ptr, n: Node, ghost z: Ctx)
      requires At(z, Leaf) && z.InLeft? && z.n == e && n !in nodes
      modifies `nodes, nodes, n
      ensures nodes == old(nodes) + {n} && At(z, Bin(Leaf, n, k, v, n.c, Leaf))
    {
      hide Focus;
      ghost var m := Snapshot(nodes);
      Reads(z, Leaf);
      n.l := null;
      n.r := null;
      n.k := k;
      n.v := v;
      n.p := e;
      e.l := n;
      nodes := nodes + {n};
      AttachStore(m, Snapshot(nodes), root, root, z, n, k, v, n.c);
    }

    // The empty right place below e, found by the search for k, takes n.
    method AttachRight(e: Node, k: Ptr, v: Ptr, n: Node, ghost z: Ctx)
      requires Valid() && n !in nodes && At(z, Leaf) && z.InRight? && z.n == e
      requires Plug(z, Leaf) == tree && Between(cmp, z, k)
      modifies this, nodes, n
      ensures Valid() && nodes == old(nodes) + {n} && Absent(cmp, old(Contents()), k)
      ensures InsertedInto(old(Contents()), Contents(), (k, v))
    {
      hide Focus, BlackHeight, NoRedRed, RedBlack, Sorted, InsertedInto, Between, Absent;
      HangRight(e, k, v, n, z);
      AttachFacts(cmp, z, tree, k, v, n, n.c);
      tree := FixAfterInsertion(n, z, Bin(Leaf, n, k, v, n.c, Leaf));
    }

    method HangRight(e: Node, k: Ptr, v: Ptr, n: Node, ghost z: Ctx)
      requires At(z, Leaf) && z.InRight? && z.n == e && n !in nodes
      modifies `nodes, nodes, n
      ensures nodes == old(nodes) + {n} && At(z, Bin(Leaf, n, k, v, n.c, Leaf))
    {
      hide Focus;
      ghost var m := Snapshot(nodes);
      Reads(z, Leaf);
      n.l := null;
      n.r := null;
      n.k := k;
      n.v := v;
      n.p := e;
      e.r := n;
      nodes := nodes + {n};
      AttachStore(m, Snapshot(nodes), root, root, z, n, k, v, n.c);
    }

    // ---------------------------------------------------------------- deletion

    // Takes the binding of node n out of the tree. A node with two children
    // gives up its successor's node instead of its own.
    method DeleteNode(n: Node, ghost zn: Ctx, ghost tn: Tree) returns (p: Node)
      requires Valid() && At(zn, tn) && tn.Bin? && tn.n == n && Plug(zn, tn) == tree
      modifies this, nodes
      ensures Valid() && p in old(nodes) && nodes == old(nodes) - {p}
      ensures Rank(zn, tn) < |old(Contents())| && Contents() == Without(old(Contents()), Rank(zn, tn))
    {
      hide Focus, Hollows, RedBlack, Whole, Sorted;
      p := n;
      ghost var z, t := zn, tn;
      Reads(z, t);
      NoHollowHere(DownLeft(z, t), t.l);
      NoHollowHere(DownRight(z, t), t.r);
      WholePlug(z, t);
      RankIsIndex(z, t);
      WithoutSorted(cmp, Whole(z, t), Rank(z, t));
      if p.l != null && p.r != null {
        var s: Node?;
        s, z, t := Successor(p, z, t);
        z, t := CopySuccessor(p, s, zn, tn);
        p := s;
      }
      tree := Unlink(p, z, t);
    }

    method CopySuccessor(p: Node, s: Node, ghost z: Ctx, ghost t: Tree) returns (ghost zs: Ctx, ghost ts: Tree)
      requires At(z, t) && t.Bin? && t.n == p && t.l.Bin? && t.r.Bin?
      requires RedBlack(Plug(z, t)) && Hollows(Plug(z, t)) == {}
      requires var (zq, tq) := Leftmost(DownRight(z, t), t.r); At(zq, tq) && tq.Bin? && tq.n == s
      modifies nodes
      ensures At(zs, ts) && ts.Bin? && ts.n == s && ts.l == Leaf
      ensures RedBlack(Plug(zs, ts)) && Hollows(Plug(zs, ts)) == {}
      ensures Rank(z, t) < |Whole(z, t)| && Rank(zs, ts) < |Whole(zs, ts)|
      ensures Without(Whole(zs, ts), Rank(zs, ts)) == Without(Whole(z, t), Rank(z, t))
    {
      hide Focus, Hollows, RedBlack, Whole;
      Reads(z, t);
      ghost var q := Leftmost(DownRight(z, t), t.r);
      Reads(q.0, q.1);
      SuccessorFacts(z, t);
      p.k := s.k;
      p.v := s.v;
      CopiedBinding(old(Snapshot(nodes)), z, t);
      q := Leftmost(DownRight(z, WithSuccessor(t)), t.r);
      zs, ts := q.0, q.1;
    }

    lemma CopiedBinding(m: Store, z: Ctx, t: Tree)
      requires Focus(m, root, z, t) && t.Bin? && t.r.Bin? && Hollows(Plug(z, t)) == {}
      requires m.Keys == nodes && forall o | o in nodes && o != t.n :: Snapshot(nodes)[o] == m[o]
      requires Snapshot(nodes)[t.n] == m[t.n].(k := WithSuccessor(t).k, v := WithSuccessor(t).v)
      ensures var (zs, ts) := Leftmost(DownRight(z, WithSuccessor(t)), t.r); At(zs, ts)
    {
      hide Focus, Hollows;
      FocusReads(m, root, z, t);
      RewriteStore(m, Snapshot(nodes), root, z, t, WithSuccessor(t).k, WithSuccessor(t).v);
      Down(z, WithSuccessor(t));
      AtLeftmost(DownRight(z, WithSuccessor(t)), t.r);
    }

    lemma {:induction false} AtLeftmost(z: Ctx, t: Tree)
      requires At(z, t) && t.Bin?
      ensures var (zs, ts) := Leftmost(z, t); At(zs, ts)
      decreases t
    {
      if t.l.Bin? {
        Down(z, t);
        AtLeftmost(DownLeft(z, t), t.l);
      }
    }

    lemma AtHollow(v: Tree, p: Node, o: Node) returns (z: Ctx, t: Tree)
      requires At(Top, v) && p in Hollows(v) && o in nodes && o != p
      ensures At(z, t) && Plug(z, t) == v && t.Hollow? && t.n == p
      ensures p !in CtxNodes(z) && !z.Top?
    {
      z, t := FindHollow(Top, v, p);
      FocusInto(Snapshot(nodes), root, z, t);
      assert o in CtxNodes(z) + Nodes(t);
    }

    method RemoveOnly(p: Node, ghost z: Ctx, ghost t: Tree) returns (ghost u: Tree)
      requires At(z, t) && t.Bin? && t.n == p && t.l == t.r == Leaf && p.p == null
      modifies `root, `nodes
      ensures nodes == old(nodes) - {p} && u == Leaf && At(Top, u) && Whole(z, Leaf) == []
    {
      Reads(z, t);
      root := null;
      nodes := nodes - {p};
      u := Leaf;
    }

    // Unlinks p, which has at most one child, and restores the balance.
    method Unlink(p: Node, ghost z: Ctx, ghost t: Tree) returns (ghost u: Tree)
      requires At(z, t) && t.Bin? && t.n == p && (t.l == Leaf || t.r == Leaf)
      requires RedBlack(Plug(z, t)) && Hollows(Plug(z, t)) == {}
      modifies `root, `nodes, nodes
      ensures p in old(nodes) && nodes == old(nodes) - {p}
      ensures At(Top, u) && RedBlack(u) && Hollows(u) == {}
      ensures Rank(z, t) < |Whole(z, t)| && Elems(u) == Without(Whole(z, t), Rank(z, t))
    {
      hide Focus, Hollows, RedBlack, Whole, Balanced, NoRedRed, BlackHeight, DeleteFix;
      Reads(z, t);
      UnlinkFacts(z, t);
      EmptyFacts();
      var replacement := if p.l != null then p.l else p.r;
      if replacement != null {
        ghost var b := if t.l == Leaf then t.r else t.l;
        SpliceOut(p, replacement, z, t, b);
        u := Plug(z, b);
        if p.c == Black {
          u := FixAfterDeletion(replacement, z, b, 0);
        }
      } else if p.p == null {
        u := RemoveOnly(p, z, t);
      } else {
        u := UnlinkLeaf(p, z, t);
      }
    }

    // The only child of p takes p's place.
    method SpliceOut(p: Node, b: Node, ghost z: Ctx, ghost t: Tree, ghost tb: Tree)
      requires At(z, t) && t.Bin? && t.n == p && tb == (if t.l == Leaf then t.r else t.l)
      requires (t.l == Leaf || t.r == Leaf) && Root(tb) == b
      modifies `root, `nodes, nodes
      ensures nodes == old(nodes) - {p} && At(z, tb) && p.c == old(p.c)
    {
      hide Focus;
      ghost var m, rt := Snapshot(nodes), root;
      Reads(z, t);
      SpliceOutLinks(p, b);
      DetachStore(m, Snapshot(nodes), rt, root, z, t, tb);
    }

    method SpliceOutLinks(p: Node, b: Node)
      requires p in nodes && b in nodes && b != p
      requires p.p != null ==> p.p in nodes && p.p != p && p.p != b
      modifies `root, `nodes, nodes
      ensures nodes == old(nodes) - {p} && p.c == old(p.c)
      ensures forall n | n in nodes && n != b && n != old(p.p) :: Snapshot(nodes)[n] == old(Snapshot(nodes))[n]
      ensures Snapshot(nodes)[b] == old(Snapshot(nodes)[b].(p := p.p))
      ensures root == if old(p.p) == null then b else old(root)
      ensures old(p.p) != null ==>
                Snapshot(nodes)[old(p.p)] ==
                old(if p.p.l == p then Snapshot(nodes)[p.p].(l := b) else Snapshot(nodes)[p.p].(r := b))
    {
      b.p := p.p;
      var pp := p.p;
      if pp == null {
        root := b;
      } else if p == pp.l {
        pp.l := b;
      } else {
        pp.r := b;
      }
      p.l := null;
      p.r := null;
      p.p := null;
      nodes := nodes - {p};
    }

    // p is a leaf below another node: a black one first stays on as a phantom,
    // while the tree around it is repaired.
    method UnlinkLeaf(p: Node, ghost z: Ctx, ghost t: Tree) returns (ghost u: Tree)
      requires At(z, t) && t.Bin? && t.n == p && t.l == t.r == Leaf && !z.Top?
      requires RedBlack(Plug(z, t)) && Hollows(Plug(z, t)) == {}
      modifies `root, `nodes, nodes
      ensures nodes == old(nodes) - {p}
      ensures At(Top, u) && RedBlack(u) && Hollows(u) == {} && Elems(u) == Whole(z, Leaf)
    {
      hide Focus, Hollows, RedBlack, Whole, Balanced, NoRedRed, BlackHeight, DeleteFix;
      ghost var zp, tp := z, t;
      Reads(z, t);
      LeafFacts(z, t);
      if p.c == Black {
        FocusHollow(Snapshot(nodes), root, z, t);
        ghost var v := FixAfterDeletion(p, z, Hollow(p, t.k, t.v), 0);
        zp, tp := AtHollow(v, p, z.n);
        PhantomFacts(zp, tp, v);
      }
      Reads(zp, tp);
      var pp := p.p;
      if pp != null {
        CutLeaf(p, pp, zp, tp);
      }
      ToTop(zp, Leaf);
      u := Plug(zp, Leaf);
    }

    method CutLeaf(p: Node, pp: Node, ghost z: Ctx, ghost t: Tree)
      requires At(z, t) && Root(t) == p && (t.Bin? ==> t.l == t.r == Leaf) && pp == p.p && !z.Top?
      modifies `nodes, nodes
      ensures nodes == old(nodes) - {p} && At(z, Leaf)
    {
      hide Focus;
      ghost var m := Snapshot(nodes);
      Reads(z, t);
      if p == pp.l {
        pp.l := null;
      } else if p == pp.r {
        pp.r := null;
      }
      p.p := null;
      nodes := nodes - {p};
      DetachStore(m, Snapshot(nodes), root, root, z, t, Leaf);
    }

    // ---------------------------------------------------------------- public operations

    method RbInsert(key: Ptr, val: Ptr) returns (ok: bool)
      requires Valid()
      modifies this, nodes
      ensures Valid() && fresh(nodes - old(nodes))
      ensures ok <==> Absent(cmp, old(Contents()), key)
      ensures ok ==> InsertedInto(old(Contents()), Contents(), (key, val))
      ensures !ok ==> unchanged(this) && unchanged(old(nodes))
    {
      hide At, RedBlack, Sorted, InsertedInto;
      var node := new Node();
      ghost var z, t;
      var ex: Node?;
      ex, z, t := Insert(key, val, node);
      ok := ex == null;
    }

    method RbDelete(key: Ptr) returns (ok: bool)
      requires Valid()
      modifies this, nodes
      ensures Valid() && nodes <= old(nodes)
      ensures ok <==> !Absent(cmp, old(Contents()), key)
      ensures ok ==> Unbound(cmp, old(Contents()), Contents(), key)
      ensures !ok ==> unchanged(this) && unchanged(old(nodes))
    {
      hide At, RedBlack, Sorted;
      ghost var z, t;
      var node: Node?;
      node, z, t := Lookup(key);
      if node != null {
        node := DeleteNode(node, z, t);
        assert FoundAt(cmp, old(Contents()), key, Rank(z, t));
      }
      ok := node != null;
    }

    // False if the key had to be inserted first.
    method RbUpdate(key: Ptr, val: Ptr) returns (found: bool)
      requires Valid()
      modifies this, nodes
      ensures Valid() && fresh(nodes - old(nodes))
      ensures found <==> !Absent(cmp, old(Contents()), key)
      ensures !found ==> InsertedInto(old(Contents()), Contents(), (key, val))
      ensures found ==> nodes == old(nodes) && Rebound(cmp, old(Contents()), Contents(), key, val)
    {
      hide RedBlack, Sorted, InsertedInto, At, Hollows, Rebound, Absent;
      var nn := new Node();
      ghost var z, t;
      var ex: Node?;
      ex, z, t := Insert(key, val, nn);
      if ex != null {
        NotAbsent(cmp, Contents(), key, Rank(z, t));
        Overwrite(ex, key, val, z, t);
        return true;
      }
      return false;
    }

    method Overwrite(n: Node, ghost key: Ptr, val: Ptr, ghost z: Ctx, ghost t: Tree)
      requires Valid() && At(z, t) && t.Bin? && t.n == n && Plug(z, t) == tree
      requires FoundAt(cmp, Contents(), key, Rank(z, t))
      modifies `tree, nodes
      ensures Valid() && Rebound(cmp, old(Contents()), Contents(), key, val)
    {
      hide RedBlack, Sorted, Focus, Hollows;
      ghost var m := Snapshot(nodes);
      Reads(z, t);
      n.v := val;
      RewriteStore(m, Snapshot(nodes), root, z, t, t.k, val);
      ghost var w := Bin(t.l, t.n, t.k, val, t.c, t.r);
      UpdateFacts(cmp, z, t, w);
      ToTop(z, w);
      tree := Plug(z, w);
    }

    method RbGet(key: Ptr) returns (val: Ptr)
      requires Valid()
      ensures val == Find(cmp, Contents(), key).GetOr(NULL)
    {
      hide RedBlack, Sorted, Focus, Hollows;
      ghost var z, t;
      var n: Node?;
      n, z, t := Lookup(key);
      if n != null {
        Reads(z, t);
        WholePlug(z, t);
        RankIsIndex(z, t);
        FindsIt(cmp, Contents(), key, Rank(z, t));
        val := n.v;
        return val;
      }
      return NULL;
    }

    method RbContains(key: Ptr) returns (found: bool)
      requires Valid()
      ensures found <==> Find(cmp, Contents(), key).Some?
    {
      hide At, RedBlack, Sorted, Hollows;
      ghost var z, t;
      var n: Node?;
      n, z, t := Lookup(key);
      return n != null;
    }
  }

  // The grandparent's subtree after its two red children turned black.
  ghost function UncleRecolored(z: Ctx, t: Tree): Tree
    requires !z.Top? && !z.up.Top?
  {
    Recolored(UpTree(z.up, UpTree(z, t)), Red, Black, Black)
  }

  lemma RecolorUncleFacts(z: Ctx, t: Tree, h: int)
    requires InsertFix(z, t, h) && !z.Top? && z.c == Red && !z.up.Top? && ColorOf(Side(z.up)) == Red
    ensures InsertFix(z.up.up, UncleRecolored(z, t), h + 1)
    ensures Whole(z.up.up, UncleRecolored(z, t)) == Whole(z, t)
    ensures CtxHollows(z.up.up) + Hollows(UncleRecolored(z, t)) == CtxHollows(z) + Hollows(t)
    ensures Depth(z.up.up) < Depth(z)
  {
    WholeUp(z, t);
    WholeUp(z.up, UpTree(z, t));
    RecoloredElems(UpTree(z.up, UpTree(z, t)), Red, Black, Black);
    var p, u := UpTree(z, t), Side(z.up);
    assert Balanced(z.up, h) && Balanced(z.up.up, h + 1);
    assert BlackHeight(Painted(p, Black), h + 1) && BlackHeight(Painted(u, Black), h + 1);
    assert NoRedRed(Painted(p, Black)) && NoRedRed(Painted(u, Black));
  }

  // The grandparent's subtree, its left child t painted black and lifted over it.
  ghost function TurnedRight(z: Ctx, t: Tree): Tree
    requires z.InLeft? && t.Bin?
  {
    RotR(Recolored(UpTree(z, t), Red, Black, ColorOf(z.r)))
  }

  // Insertion fix-up with a black uncle: below the grandparent, a red parent t
  // whose outer child is the red node that caused the trouble.
  ghost predicate TurnReady(z: Ctx, t: Tree, h: int) {
    && t.Bin? && t.c == Red && BlackHeight(t, h) && NoRedRed(t.l) && NoRedRed(t.r)
    && !z.Top? && Above(z) == Black && ColorOf(Side(z)) == Black && Balanced(z, h)
    && ColorOf(if z.InLeft? then t.r else t.l) == Black
    && ColorOf(if z.InLeft? then t.l else t.r) == Red
  }

  lemma StraightenFacts(z: Ctx, t: Tree, h: int)
    requires InsertFix(z, t, h) && !z.Top? && z.c == Red && !z.up.Top? && ColorOf(Side(z.up)) == Black
    ensures var p := UpTree(z, t);
      var q := if z.up.InLeft? then (if z.InRight? then RotL(p) else p) else (if z.InLeft? then RotR(p) else p);
      && TurnReady(z.up, q, h)
      && Whole(z.up, q) == Whole(z, t)
      && CtxHollows(z.up) + Hollows(q) == CtxHollows(z) + Hollows(t)
  {
    WholeUp(z, t);
    RotElems(UpTree(z, t));
    assert Balanced(z.up, h);
  }

  lemma TurnRightFacts(z: Ctx, t: Tree, h: int)
    requires TurnReady(z, t, h) && z.InLeft?
    ensures var u := TurnedRight(z, t);
      var z' := DownLeft(z.up, u);
      && InsertFix(z', u.l, h) && Above(z') == Black
      && Whole(z', u.l) == Whole(z, t)
      && CtxHollows(z') + Hollows(u.l) == CtxHollows(z) + Hollows(t)
  {
    WholeUp(z, t);
    var g := Recolored(UpTree(z, t), Red, Black, ColorOf(z.r));
    RecoloredElems(UpTree(z, t), Red, Black, ColorOf(z.r));
    RotElems(g);
    WholeDown(z.up, RotR(g));
    assert Balanced(z.up, h + 1);
  }

  // The grandparent's subtree, its right child t painted black and lifted over it.
  ghost function TurnedLeft(z: Ctx, t: Tree): Tree
    requires z.InRight? && t.Bin?
  {
    RotL(Recolored(UpTree(z, t), Red, ColorOf(z.l), Black))
  }

  lemma TurnLeftFacts(z: Ctx, t: Tree, h: int)
    requires TurnReady(z, t, h) && z.InRight?
    ensures var u := TurnedLeft(z, t);
      var z' := DownRight(z.up, u);
      && InsertFix(z', u.r, h) && Above(z') == Black
      && Whole(z', u.r) == Whole(z, t)
      && CtxHollows(z') + Hollows(u.r) == CtxHollows(z) + Hollows(t)
  {
    WholeUp(z, t);
    var g := Recolored(UpTree(z, t), Red, ColorOf(z.l), Black);
    RecoloredElems(UpTree(z, t), Red, ColorOf(z.l), Black);
    RotElems(g);
    WholeDown(z.up, RotL(g));
    assert Balanced(z.up, h + 1);
  }

  lemma PaintFacts(z: Ctx, t: Tree)
    requires t.Bin? && t.l == t.r == Leaf && Balanced(z, 0)
    ensures InsertFix(z, t.(c := Red), 0) && Whole(z, t.(c := Red)) == Whole(z, t)
    ensures Hollows(t.(c := Red)) == {}
  {
  }

  lemma GrandparentExists(z: Ctx, t: Tree, h: int)
    requires InsertFix(z, t, h) && !z.Top? && z.c == Red
    ensures !z.up.Top?
  {
  }

  // Where the insertion loop stops, at most the root is still the wrong colour.
  lemma InsertFixed(z: Ctx, t: Tree, h: int)
    requires InsertFix(z, t, h) && (z.Top? || Above(z) == Black)
    ensures Plug(z, t).Bin? && RedBlack(Painted(Plug(z, t), Black))
    ensures ColorOf(Plug(z, t)) == Black ==> RedBlack(Plug(z, t))
    ensures Hollows(Plug(z, t)) == CtxHollows(z) + Hollows(t)
  {
    HollowsPlug(z, t);
    PlugBin(z, t);
    if z.Top? {
      assert BlackHeight(t.(c := Black), h + 1);
    } else {
      PlugRedBlack(z, t, h);
    }
  }

  // ---------------------------------------------------------------- deletion fix-up, as trees
  // The red right sibling lifted over the parent of position z.
  ghost function RightSiblingLifted(z: Ctx, t: Tree): Ctx
    requires z.InLeft? && z.r.Bin?
  {
    var g := RotL(Recolored(UpTree(z, t), Red, ColorOf(t), Black));
    DownLeft(DownLeft(z.up, g), g.l)
  }

  lemma LiftRightSiblingFacts(z: Ctx, t: Tree, h: int)
    requires DeleteFix(z, t, h) && z.InLeft? && ColorOf(t) == Black && ColorOf(z.r) == Red
    ensures var z' := RightSiblingLifted(z, t);
      && z'.InLeft? && DeleteFix(z', t, h) && ColorOf(z'.r) == Black && z'.c == Red
      && Whole(z', t) == Whole(z, t) && Depth(z'.up) == Depth(z)
      && CtxHollows(z') == CtxHollows(z)
  {
    WholeUp(z, t);
    var u := Recolored(UpTree(z, t), Red, ColorOf(t), Black);
    RecoloredElems(UpTree(z, t), Red, ColorOf(t), Black);
    RotElems(u);
    WholeDown(z.up, RotL(u));
    WholeDown(DownLeft(z.up, RotL(u)), RotL(u).l);
    assert Balanced(z.up, h + 2);
  }

  lemma RightSiblingExists(z: Ctx, t: Tree, h: int)
    requires DeleteFix(z, t, h) && z.InLeft? && ColorOf(t) == Black
    ensures z.r.Bin?
  {
    HeightNat(Painted(t, Black), h);
  }

  ghost function RightSiblingReddened(z: Ctx, t: Tree): Tree
    requires z.InLeft?
  {
    Recolored(UpTree(z, t), z.c, ColorOf(t), Red)
  }

  lemma PushUpLeftFacts(z: Ctx, t: Tree, h: int)
    requires DeleteFix(z, t, h) && z.InLeft? && z.r.Bin? && ColorOf(t) == Black && ColorOf(z.r) == Black
    requires ColorOf(z.r.l) == Black && ColorOf(z.r.r) == Black
    ensures var u := RightSiblingReddened(z, t);
      && DeleteFix(z.up, u, if z.c == Black then h + 1 else h)
      && Whole(z.up, u) == Whole(z, t)
      && CtxHollows(z.up) + Hollows(u) == CtxHollows(z) + Hollows(t)
      && (z.c == Red ==> ColorOf(u) == Red)
  {
    WholeUp(z, t);
    RecoloredElems(UpTree(z, t), z.c, ColorOf(t), Red);
    assert Balanced(z.up, if z.c == Black then h + 2 else h + 1);
    assert BlackHeight(Painted(z.r, Red), h);
  }

  // The red left nephew lifted over the right sibling.
  ghost function LeftNephewTurned(z: Ctx): Ctx
    requires z.InLeft? && z.r.Bin? && z.r.l.Bin?
  {
    InLeft(z.up, z.n, z.k, z.v, z.c, RotR(Recolored(z.r, Red, Black, ColorOf(z.r.r))))
  }

  lemma TurnLeftNephewFacts(z: Ctx, t: Tree, h: int)
    requires DeleteFix(z, t, h) && z.InLeft? && z.r.Bin? && ColorOf(z.r) == Black
    requires ColorOf(z.r.l) == Red && ColorOf(z.r.r) == Black
    ensures var z' := LeftNephewTurned(z);
      && DeleteFix(z', t, h) && ColorOf(z'.r) == Black && z'.r.Bin? && ColorOf(z'.r.r) == Red
      && Whole(z', t) == Whole(z, t) && CtxHollows(z') == CtxHollows(z)
  {
    var s := Recolored(z.r, Red, Black, ColorOf(z.r.r));
    RecoloredElems(z.r, Red, Black, ColorOf(z.r.r));
    RotElems(s);
    assert BlackHeight(z.r.l, h) && BlackHeight(z.r.r, h) && NoRedRed(z.r.l) && NoRedRed(z.r.r);
    assert BlackHeight(RotR(s), h + 1) && NoRedRed(RotR(s));
  }

  // The right sibling, in the parent's colour, lifted over the parent.
  ghost function LeftLifted(z: Ctx, t: Tree): Tree
    requires z.InLeft? && z.r.Bin?
  {
    var g := Recolored(UpTree(z, t), Black, ColorOf(t), z.c);
    RotL(g.(r := g.r.(r := Painted(g.r.r, Black))))
  }

  lemma LiftLeftFacts(z: Ctx, t: Tree, h: int)
    requires DeleteFix(z, t, h) && z.InLeft? && z.r.Bin? && ColorOf(t) == Black && ColorOf(z.r) == Black
    requires ColorOf(z.r.r) == Red
    ensures var u := Plug(z.up, LeftLifted(z, t));
      && DeleteFix(Top, u, LiftedHeight(u))
      && Whole(Top, u) == Whole(z, t)
      && Hollows(u) == CtxHollows(z) + Hollows(t)
  {
    var w := LeftLifted(z, t);
    LeftLiftedElems(z, t);
    LeftLiftedBalance(z, t, h);
    assert CtxHollows(z.up) + Hollows(UpTree(z, t)) == CtxHollows(z) + Hollows(t);
    assert Balanced(z.up, if z.c == Black then h + 2 else h + 1) && (z.c == Red ==> Above(z.up) == Black);
    hide LeftLifted, Hollows, CtxHollows, Elems, Plug;
    WholeUp(z, t);
    WholePlug(z.up, w);
    HollowsPlug(z.up, w);
    PlugBin(z.up, w);
    PlugRedBlack(z.up, w, if z.c == Black then h + 2 else h + 1);
    hide Balanced, NoRedRed, BlackHeight;
    LiftedFix(Plug(z.up, w));
  }

  lemma LeftLiftedElems(z: Ctx, t: Tree)
    requires z.InLeft? && z.r.Bin? && ColorOf(z.r.r) == Red
    ensures var w := LeftLifted(z, t);
      Elems(w) == Elems(UpTree(z, t)) && Hollows(w) == Hollows(UpTree(z, t))
  {
    var w, r := LeftLifted(z, t), Painted(z.r.r, Black);
    assert Elems(r) == Elems(z.r.r) && Hollows(r) == Hollows(z.r.r);
    assert Elems(w) == Elems(t) + [(z.k, z.v)] + Elems(z.r.l) + [(z.r.k, z.r.v)] + Elems(z.r.r);
    assert Elems(UpTree(z, t)) == Elems(t) + [(z.k, z.v)] + Elems(z.r.l) + [(z.r.k, z.r.v)] + Elems(z.r.r);
  }

  lemma LeftLiftedBalance(z: Ctx, t: Tree, h: int)
    requires DeleteFix(z, t, h) && z.InLeft? && z.r.Bin? && ColorOf(t) == Black && ColorOf(z.r) == Black
    requires ColorOf(z.r.r) == Red
    ensures var w := LeftLifted(z, t);
      w.Bin? && w.c == z.c && NoRedRed(w) && BlackHeight(w, if z.c == Black then h + 2 else h + 1)
  {
    var r := Painted(z.r.r, Black);
    assert BlackHeight(z.r.r, h) && NoRedRed(z.r.r);
    assert BlackHeight(r, h + 1) && NoRedRed(r);
    assert BlackHeight(z.r.l, h) && NoRedRed(z.r.l) && BlackHeight(t, h) && NoRedRed(t);
  }

  // The red left sibling lifted over the parent of position z.
  ghost function LeftSiblingLifted(z: Ctx, t: Tree): Ctx
    requires z.InRight? && z.l.Bin?
  {
    var g := RotR(Recolored(UpTree(z, t), Red, Black, ColorOf(t)));
    DownRight(DownRight(z.up, g), g.r)
  }

  lemma LiftLeftSiblingFacts(z: Ctx, t: Tree, h: int)
    requires DeleteFix(z, t, h) && z.InRight? && ColorOf(t) == Black && ColorOf(z.l) == Red
    ensures var z' := LeftSiblingLifted(z, t);
      && z'.InRight? && DeleteFix(z', t, h) && ColorOf(z'.l) == Black && z'.c == Red
      && Whole(z', t) == Whole(z, t) && Depth(z'.up) == Depth(z)
      && CtxHollows(z') == CtxHollows(z)
  {
    WholeUp(z, t);
    var u := Recolored(UpTree(z, t), Red, Black, ColorOf(t));
    RecoloredElems(UpTree(z, t), Red, Black, ColorOf(t));
    RotElems(u);
    WholeDown(z.up, RotR(u));
    WholeDown(DownRight(z.up, RotR(u)), RotR(u).r);
    assert Balanced(z.up, h + 2);
  }

  lemma LeftSiblingExists(z: Ctx, t: Tree, h: int)
    requires DeleteFix(z, t, h) && z.InRight? && ColorOf(t) == Black
    ensures z.l.Bin?
  {
    HeightNat(Painted(t, Black), h);
  }

  ghost function LeftSiblingReddened(z: Ctx, t: Tree): Tree
    requires z.InRight?
  {
    Recolored(UpTree(z, t), z.c, Red, ColorOf(t))
  }

  lemma PushUpRightFacts(z: Ctx, t: Tree, h: int)
    requires DeleteFix(z, t, h) && z.InRight? && z.l.Bin? && ColorOf(t) == Black && ColorOf(z.l) == Black
    requires ColorOf(z.l.r) == Black && ColorOf(z.l.l) == Black
    ensures var u := LeftSiblingReddened(z, t);
      && DeleteFix(z.up, u, if z.c == Black then h + 1 else h)
      && Whole(z.up, u) == Whole(z, t)
      && CtxHollows(z.up) + Hollows(u) == CtxHollows(z) + Hollows(t)
      && (z.c == Red ==> ColorOf(u) == Red)
  {
    WholeUp(z, t);
    RecoloredElems(UpTree(z, t), z.c, Red, ColorOf(t));
    assert Balanced(z.up, if z.c == Black then h + 2 else h + 1);
    assert BlackHeight(Painted(z.l, Red), h);
  }

  // The red right nephew lifted over the left sibling.
  ghost function RightNephewTurned(z: Ctx): Ctx
    requires z.InRight? && z.l.Bin? && z.l.r.Bin?
  {
    InRight(RotL(Recolored(z.l, Red, ColorOf(z.l.l), Black)), z.n, z.k, z.v, z.c, z.up)
  }

  lemma TurnRightNephewFacts(z: Ctx, t: Tree, h: int)
    requires DeleteFix(z, t, h) && z.InRight? && z.l.Bin? && ColorOf(z.l) == Black
    requires ColorOf(z.l.r) == Red && ColorOf(z.l.l) == Black
    ensures var z' := RightNephewTurned(z);
      && DeleteFix(z', t, h) && ColorOf(z'.l) == Black && z'.l.Bin? && ColorOf(z'.l.l) == Red
      && Whole(z', t) == Whole(z, t) && CtxHollows(z') == CtxHollows(z)
  {
    var s := Recolored(z.l, Red, ColorOf(z.l.l), Black);
    RecoloredElems(z.l, Red, ColorOf(z.l.l), Black);
    RotElems(s);
    assert BlackHeight(z.l.r, h) && BlackHeight(z.l.l, h) && NoRedRed(z.l.r) && NoRedRed(z.l.l);
    assert BlackHeight(RotL(s), h + 1) && NoRedRed(RotL(s));
  }

  // The left sibling, in the parent's colour, lifted over the parent.
  ghost function RightLifted(z: Ctx, t: Tree): Tree
    requires z.InRight? && z.l.Bin?
  {
    var g := Recolored(UpTree(z, t), Black, z.c, ColorOf(t));
    RotR(g.(l := g.l.(l := Painted(g.l.l, Black))))
  }

  lemma LiftRightFacts(z: Ctx, t: Tree, h: int)
    requires DeleteFix(z, t, h) && z.InRight? && z.l.Bin? && ColorOf(t) == Black && ColorOf(z.l) == Black
    requires ColorOf(z.l.l) == Red
    ensures var u := Plug(z.up, RightLifted(z, t));
      && DeleteFix(Top, u, LiftedHeight(u))
      && Whole(Top, u) == Whole(z, t)
      && Hollows(u) == CtxHollows(z) + Hollows(t)
  {
    var w := RightLifted(z, t);
    RightLiftedElems(z, t);
    RightLiftedBalance(z, t, h);
    assert CtxHollows(z.up) + Hollows(UpTree(z, t)) == CtxHollows(z) + Hollows(t);
    assert Balanced(z.up, if z.c == Black then h + 2 else h + 1) && (z.c == Red ==> Above(z.up) == Black);
    hide RightLifted, Hollows, CtxHollows, Elems, Plug;
    WholeUp(z, t);
    WholePlug(z.up, w);
    HollowsPlug(z.up, w);
    PlugBin(z.up, w);
    PlugRedBlack(z.up, w, if z.c == Black then h + 2 else h + 1);
    hide Balanced, NoRedRed, BlackHeight;
    LiftedFix(Plug(z.up, w));
  }

  lemma RightLiftedElems(z: Ctx, t: Tree)
    requires z.InRight? && z.l.Bin? && ColorOf(z.l.l) == Red
    ensures var w := RightLifted(z, t);
      Elems(w) == Elems(UpTree(z, t)) && Hollows(w) == Hollows(UpTree(z, t))
  {
    var w, r := RightLifted(z, t), Painted(z.l.l, Black);
    assert Elems(r) == Elems(z.l.l) && Hollows(r) == Hollows(z.l.l);
    assert Elems(w) == Elems(z.l.l) + [(z.l.k, z.l.v)] + Elems(z.l.r) + [(z.k, z.v)] + Elems(t);
    assert Elems(UpTree(z, t)) == Elems(z.l.l) + [(z.l.k, z.l.v)] + Elems(z.l.r) + [(z.k, z.v)] + Elems(t);
  }

  lemma RightLiftedBalance(z: Ctx, t: Tree, h: int)
    requires DeleteFix(z, t, h) && z.InRight? && z.l.Bin? && ColorOf(t) == Black && ColorOf(z.l) == Black
    requires ColorOf(z.l.l) == Red
    ensures var w := RightLifted(z, t);
      w.Bin? && w.c == z.c && NoRedRed(w) && BlackHeight(w, if z.c == Black then h + 2 else h + 1)
  {
    var r := Painted(z.l.l, Black);
    assert BlackHeight(z.l.l, h) && NoRedRed(z.l.l);
    assert BlackHeight(r, h + 1) && NoRedRed(r);
    assert BlackHeight(z.l.r, h) && NoRedRed(z.l.r) && BlackHeight(t, h) && NoRedRed(t);
  }

  ghost function LiftedHeight(u: Tree): int {
    if exists h :: BlackHeight(u, h) then (var h :| BlackHeight(u, h); h) else 0
  }

  lemma LiftedFix(u: Tree)
    requires RedBlack(u) && u.Bin?
    ensures DeleteFix(Top, u, LiftedHeight(u)) && CtxHollows(Top) == {} && Whole(Top, u) == Elems(u)
  {
  }

  // Where the deletion loop stops, painting the root of the subtree black is
  // all that is left to do.
  lemma DeleteFixed(z: Ctx, t: Tree, h: int)
    requires DeleteFix(z, t, h) && (z.Top? || ColorOf(t) == Red)
    ensures RedBlack(Plug(z, Painted(t, Black))) && Whole(z, Painted(t, Black)) == Whole(z, t)
    ensures Hollows(Plug(z, Painted(t, Black))) == CtxHollows(z) + Hollows(t)
  {
    HollowsPlug(z, Painted(t, Black));
    PlugRedBlack(z, Painted(t, Black), if ColorOf(t) == Red then h + 1 else h);
  }

  lemma NoHollowHere(z: Ctx, t: Tree)
    requires Hollows(Plug(z, t)) == {}
    ensures !t.Hollow?
  {
    HollowsPlug(z, t);
  }

  ghost function Leftmost(z: Ctx, t: Tree): (Ctx, Tree)
    requires t.Bin?
    decreases t
  {
    if t.l.Bin? then Leftmost(DownLeft(z, t), t.l) else (z, t)
  }

  lemma {:induction false} LeftmostFacts(z: Ctx, t: Tree)
    requires t.Bin?
    ensures var (zs, ts) := Leftmost(z, t);
      ts.Bin? && !ts.l.Bin? && Plug(zs, ts) == Plug(z, t) && Before(zs) == Before(z) && Whole(zs, ts) == Whole(z, t)
    decreases t
  {
    WholeDown(z, t);
    if t.l.Bin? {
      LeftmostFacts(DownLeft(z, t), t.l);
    }
  }

  lemma UpRightBefore(z: Ctx, t: Tree)
    requires z.InRight?
    ensures Before(z.up) + Elems(UpTree(z, t)) == Before(z) + Elems(t)
  {
  }

  lemma AttachFacts(cmp: Comparator, z: Ctx, u: Tree, k: Ptr, v: Ptr, n: Node, c: Color)
    requires TotalPreorder(cmp) && RedBlack(u) && Hollows(u) == {} && Sorted(cmp, Elems(u))
    requires Plug(z, Leaf) == u && Between(cmp, z, k)
    ensures Balanced(z, 0) && CtxHollows(z) == {} && Absent(cmp, Elems(u), k)
    ensures Sorted(cmp, Whole(z, Bin(Leaf, n, k, v, c, Leaf)))
    ensures InsertedInto(Elems(u), Whole(z, Bin(Leaf, n, k, v, c, Leaf)), (k, v))
  {
    hide Sorted, Between;
    AttachBalanced(z, u);
    WholePlug(z, Leaf);
    EmptyPlace(cmp, z, k, v);
    assert Elems(Bin(Leaf, n, k, v, c, Leaf)) == [(k, v)];
    var i := |Before(z)|;
    assert Elems(u)[..i] == Before(z) && Elems(u)[i..] == After(z);
    assert Whole(z, Bin(Leaf, n, k, v, c, Leaf)) == With(Elems(u), i, (k, v));
  }

  lemma AttachBalanced(z: Ctx, u: Tree)
    requires RedBlack(u) && Hollows(u) == {} && Plug(z, Leaf) == u
    ensures Balanced(z, 0) && CtxHollows(z) == {}
  {
    HollowsPlug(z, Leaf);
    var h := PlugBalanced(z, Leaf);
  }

  // ---------------------------------------------------------------- deletion, as trees

  // t with its successor's binding in place of its own.
  ghost function WithSuccessor(t: Tree): Tree
    requires t.Bin? && t.r.Bin?
  {
    LeftmostFacts(Top, t.r);
    var s := Leftmost(Top, t.r).1;
    Bin(t.l, t.n, s.k, s.v, t.c, t.r)
  }

  lemma {:induction false} LeftmostSame(z: Ctx, y: Ctx, t: Tree)
    requires t.Bin?
    ensures Leftmost(z, t).1 == Leftmost(y, t).1
    decreases t
  {
    if t.l.Bin? {
      LeftmostSame(DownLeft(z, t), DownLeft(y, t), t.l);
    }
  }

  // Giving up the successor's node after copying its binding removes the same
  // binding from the sequence.
  lemma SuccessorFacts(z: Ctx, t: Tree)
    requires t.Bin? && t.l.Bin? && t.r.Bin? && RedBlack(Plug(z, t)) && Hollows(Plug(z, t)) == {}
    ensures var (zs, ts) := Leftmost(DownRight(z, WithSuccessor(t)), t.r);
      && ts.Bin? && ts.l == Leaf
      && ts == Leftmost(DownRight(z, t), t.r).1 && ts == Leftmost(Top, t.r).1
      && RedBlack(Plug(zs, ts)) && Hollows(Plug(zs, ts)) == {}
      && Rank(z, t) < |Whole(z, t)| && Rank(zs, ts) < |Whole(zs, ts)|
      && Without(Whole(zs, ts), Rank(zs, ts)) == Without(Whole(z, t), Rank(z, t))
  {
    var w := WithSuccessor(t);
    var (zs, ts) := Leftmost(DownRight(z, w), t.r);
    LeftmostSame(DownRight(z, w), Top, t.r);
    LeftmostSame(DownRight(z, t), Top, t.r);
    LeftmostFacts(DownRight(z, w), t.r);
    WholeDown(z, w);
    SuccessorShape(z, t);
    NoHollowHere(DownLeft(zs, ts), ts.l);
    SuccessorSequence(z, t, zs, ts);
  }

  lemma SuccessorSequence(z: Ctx, t: Tree, zs: Ctx, ts: Tree)
    requires t.Bin? && t.r.Bin? && ts.Bin? && ts.l == Leaf
    requires ts == Leftmost(Top, t.r).1
    requires Before(zs) == Before(DownRight(z, WithSuccessor(t))) && Whole(zs, ts) == Whole(z, WithSuccessor(t))
    ensures Rank(z, t) < |Whole(z, t)| && Rank(zs, ts) < |Whole(zs, ts)|
    ensures Without(Whole(zs, ts), Rank(zs, ts)) == Without(Whole(z, t), Rank(z, t))
  {
    hide Elems, Before, After, Whole, Rank, Without, Leftmost;
    var w := WithSuccessor(t);
    assert w.Bin? && w.l == t.l && w.r == t.r && (w.k, w.v) == (ts.k, ts.v);
    hide WithSuccessor;
    NextRank(z, t, w, zs, ts);
    RankIsIndex(z, t);
    RankIsIndex(z, w);
    RankIsIndex(zs, ts);
    DropRepeated(Whole(z, w), Whole(z, t), Rank(z, t));
  }

  lemma NextRank(z: Ctx, t: Tree, w: Tree, zs: Ctx, ts: Tree)
    requires t.Bin? && w.Bin? && ts.Bin? && ts.l == Leaf && w.l == t.l && Before(zs) == Before(DownRight(z, w))
    ensures Rank(zs, ts) == Rank(z, t) + 1 && Rank(z, w) == Rank(z, t)
  {
    assert Elems(Leaf) == [];
    assert Before(DownRight(z, w)) == Before(z) + Elems(t.l) + [(w.k, w.v)];
    hide Elems, Before;
  }

  // Of two equal neighbours, it does not matter which one goes.
  lemma DropRepeated(e: seq<Binding>, e': seq<Binding>, i: nat)
    requires i + 1 < |e| == |e'| && e[i] == e[i + 1]
    requires e[..i] == e'[..i] && e[i + 1..] == e'[i + 1..]
    ensures Without(e, i + 1) == Without(e', i)
  {
    assert e[i + 1..] == [e[i + 1]] + e[i + 2..];
    assert e[..i + 1] == e[..i] + [e[i]];
  }

  lemma SuccessorShape(z: Ctx, t: Tree)
    requires t.Bin? && t.r.Bin? && RedBlack(Plug(z, t)) && Hollows(Plug(z, t)) == {}
    ensures RedBlack(Plug(z, WithSuccessor(t))) && Hollows(Plug(z, WithSuccessor(t))) == {}
  {
    var h := PlugBalanced(z, t);
    PlugRedBlack(z, WithSuccessor(t), h);
    HollowsPlug(z, t);
    HollowsPlug(z, WithSuccessor(t));
  }

  // p has one child b at most. If it has one, b is a red leaf and p is black.
  lemma UnlinkFacts(z: Ctx, t: Tree)
    requires t.Bin? && (t.l == Leaf || t.r == Leaf)
    requires RedBlack(Plug(z, t)) && Hollows(Plug(z, t)) == {}
    ensures var b := if t.l == Leaf then t.r else t.l;
      && (b != Leaf ==> t.c == Black && DeleteFix(z, b, 0))
      && CtxHollows(z) + Hollows(b) == {}
      && Rank(z, t) < |Whole(z, t)| && Whole(z, b) == Without(Whole(z, t), Rank(z, t))
  {
    var h := PlugBalanced(z, t);
    HollowsPlug(z, t);
    RankIsIndex(z, t);
    var b := if t.l == Leaf then t.r else t.l;
    if b != Leaf {
      assert BlackHeight(b, 0);
      if b.c == Black {
        HeightNat(b.l, -1);
      }
      assert t.c == Black;
      assert BlackHeight(Painted(b, Black), 1);
    }
  }

  lemma EmptyFacts()
    ensures RedBlack(Leaf) && Hollows(Leaf) == {} && Elems(Leaf) == []
  {
    assert BlackHeight(Leaf, 0);
  }

  lemma LeafFacts(z: Ctx, t: Tree)
    requires t.Bin? && t.l == t.r == Leaf
    requires RedBlack(Plug(z, t)) && Hollows(Plug(z, t)) == {}
    ensures t.c == Black ==> DeleteFix(z, Hollow(t.n, t.k, t.v), 0)
    ensures t.c == Red ==> RedBlack(Plug(z, Leaf)) && Hollows(Plug(z, Leaf)) == {}
    ensures Whole(z, Leaf) == Whole(z, Hollow(t.n, t.k, t.v))
    ensures CtxHollows(z) + Hollows(Hollow(t.n, t.k, t.v)) == {t.n}
  {
    var h := PlugBalanced(z, t);
    HollowsPlug(z, t);
    HollowsPlug(z, Leaf);
    if t.c == Red {
      PlugRedBlack(z, Leaf, 0);
    }
  }

  lemma {:induction false} FindHollow(z0: Ctx, v: Tree, p: Node) returns (z: Ctx, t: Tree)
    requires p in Hollows(v)
    ensures Plug(z, t) == Plug(z0, v) && t.Hollow? && t.n == p
    decreases v
  {
    if v.Hollow? {
      z, t := z0, v;
    } else if p in Hollows(v.l) {
      z, t := FindHollow(DownLeft(z0, v), v.l, p);
    } else {
      z, t := FindHollow(DownRight(z0, v), v.r, p);
    }
  }

  // Dropping the phantom from a repaired tree.
  lemma PhantomFacts(z: Ctx, t: Tree, v: Tree)
    requires t.Hollow? && Plug(z, t) == v && RedBlack(v) && Hollows(v) == {t.n} && t.n !in CtxNodes(z)
    ensures RedBlack(Plug(z, Leaf)) && Hollows(Plug(z, Leaf)) == {}
    ensures Whole(z, Leaf) == Elems(v)
  {
    var h := PlugBalanced(z, t);
    HollowsPlug(z, t);
    HollowsPlug(z, Leaf);
    CtxHollowsInNodes(z);
    WholePlug(z, t);
    PlugRedBlack(z, Leaf, 0);
  }

  lemma NotAbsent(cmp: Comparator, s: seq<Binding>, k: Ptr, i: int)
    requires FoundAt(cmp, s, k, i)
    ensures !Absent(cmp, s, k)
  {
  }

  lemma UpdateFacts(cmp: Comparator, z: Ctx, t: Tree, w: Tree)
    requires t.Bin? && RedBlack(Plug(z, t)) && Hollows(Plug(z, t)) == {} && Sorted(cmp, Elems(Plug(z, t)))
    requires w.Bin? && w == Bin(t.l, t.n, t.k, w.v, t.c, t.r)
    ensures RedBlack(Plug(z, w)) && Hollows(Plug(z, w)) == {} && Sorted(cmp, Elems(Plug(z, w)))
    ensures Rank(z, t) < |Elems(Plug(z, t))| && Elems(Plug(z, t))[Rank(z, t)].0 == t.k
    ensures Elems(Plug(z, w)) == Elems(Plug(z, t))[Rank(z, t) := (t.k, w.v)]
  {
    var h := PlugBalanced(z, t);
    PlugRedBlack(z, w, h);
    HollowsPlug(z, t);
    HollowsPlug(z, w);
    WholePlug(z, t);
    WholePlug(z, w);
    UpdateSequence(z, t, w);
  }

  lemma UpdateSequence(z: Ctx, t: Tree, w: Tree)
    requires t.Bin? && w.Bin? && w == Bin(t.l, t.n, t.k, w.v, t.c, t.r)
    ensures Rank(z, t) < |Whole(z, t)| && Whole(z, t)[Rank(z, t)].0 == t.k
    ensures Whole(z, w) == Whole(z, t)[Rank(z, t) := (t.k, w.v)]
  {
    RankIsIndex(z, t);
    RankIsIndex(z, w);
    hide *;
    ChangedAt(Whole(z, t), Whole(z, w), Rank(z, t));
  }
}
