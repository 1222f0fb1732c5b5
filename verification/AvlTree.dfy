// avltree.c: an AVL tree without parent links. Insertion is one pass down with a
// remembered rebalance point, removal walks back up an explicit path.
module AvlTree {
  import opened Common
  import opened Compare
  import opened AvlShape
  import opened AvlTheory

  const HEIGHT_LIMIT: nat := 64

  // What the four link writes of jsw_single do to a tree.
  lemma SingleHolds(m: Store, m': Store, t: Tree, dir: bool)
    requires Sep(t) && Holds(m, t) && t.Bin? && Child(t, !dir).Bin? && Nodes(t) <= m.Keys && m'.Keys == m.Keys
    requires forall n | n in m && n != t.n && n != Child(t, !dir).n :: m'[n] == m[n]
    requires m'[t.n] == m[t.n].(link := m[t.n].link.With(!dir, Root(Child(Child(t, !dir), dir))))
    requires Child(t, !dir).n in m
    requires m'[Child(t, !dir).n] == m[Child(t, !dir).n].(link := m[Child(t, !dir).n].link.With(dir, t.n))
    ensures Holds(m', Single(t, dir))
  {
    var s := Child(t, !dir);
    HoldsFrame(m, m', Child(t, dir));
    HoldsFrame(m, m', Child(s, dir));
    HoldsFrame(m, m', Child(s, !dir));
  }

  // Only balances change, at the nodes WithThree names.
  lemma WithThreeHolds(m: Store, m': Store, t: Tree, dir: bool, b: int, bc: int, bg: int)
    requires Sep(t) && Holds(m, t) && t.Bin? && Child(t, dir).Bin? && Child(Child(t, dir), !dir).Bin?
    requires Nodes(t) <= m.Keys && m'.Keys == m.Keys
    requires var s := Child(t, dir);
      var g := Child(s, !dir);
      && s.n in m && g.n in m
      && (forall n | n in m && n != t.n && n != s.n && n != g.n :: m'[n] == m[n])
      && m'[t.n] == m[t.n].(balance := b) && m'[s.n] == m[s.n].(balance := bc) && m'[g.n] == m[g.n].(balance := bg)
    ensures Holds(m', WithThree(t, dir, b, bc, bg))
  {
    var s := Child(t, dir);
    var g := Child(s, !dir);
    assert Sep(s) && Sep(g) && Holds(m, s) && Holds(m, g);
    HoldsFrame(m, m', Child(t, !dir));
    HoldsFrame(m, m', Child(s, dir));
    HoldsFrame(m, m', g.l);
    HoldsFrame(m, m', g.r);
    assert Holds(m', WithBalance(g, bg));
  }

  lemma WithTwoHolds(m: Store, m': Store, t: Tree, dir: bool, b: int, bc: int)
    requires Sep(t) && Holds(m, t) && t.Bin? && Child(t, dir).Bin?
    requires Nodes(t) <= m.Keys && m'.Keys == m.Keys
    requires var s := Child(t, dir);
      && s.n in m
      && (forall n | n in m && n != t.n && n != s.n :: m'[n] == m[n])
      && m'[t.n] == m[t.n].(balance := b) && m'[s.n] == m[s.n].(balance := bc)
    ensures Holds(m', WithTwo(t, dir, b, bc))
  {
    var s := Child(t, dir);
    HoldsFrame(m, m', Child(t, !dir));
    HoldsFrame(m, m', s.l);
    HoldsFrame(m, m', s.r);
  }

  lemma InnerHolds(m: Store, m': Store, t: Tree, dir: bool)
    requires Sep(t) && Holds(m, t) && t.Bin? && Child(t, !dir).Bin? && Child(Child(t, !dir), dir).Bin?
    requires Nodes(t) <= m.Keys && m'.Keys == m.Keys
    requires var s := Child(t, !dir);
      var g := Child(s, dir);
      && t.n in m && s.n in m && g.n in m
      && (forall n | n in m && n != t.n && n != s.n && n != g.n :: m'[n] == m[n])
      && m'[t.n] == m[t.n].(link := m[t.n].link.With(!dir, g.n))
      && m'[s.n] == m[s.n].(link := m[s.n].link.With(dir, Root(Child(g, !dir))))
      && m'[g.n] == m[g.n].(link := m[g.n].link.With(!dir, s.n))
    ensures var w := Mk(!dir, Single(Child(t, !dir), !dir), t.n, t.d, t.b, Child(t, dir));
      Sep(w) && Holds(m', w) && Nodes(w) == Nodes(t)
  {
    var s := Child(t, !dir);
    Kin(m, t, !dir);
    ByChildren(t, !dir);
    ByChildren(s, dir);
    SingleHolds(m, m'[t.n := m[t.n]], s, !dir);
    SingleFacts(s, !dir);
    HoldsFrame(m'[t.n := m[t.n]], m', Single(s, !dir));
    HoldsFrame(m, m', Child(t, dir));
    MkParts(!dir, Single(s, !dir), t.n, t.d, t.b, Child(t, dir));
    assert Root(Single(s, !dir)) == Child(s, dir).n;
    hide Single, Sep, Nodes;
  }

  // What the heap shows of a node, its children and an inner grandchild.
  lemma Kin(m: Store, t: Tree, dir: bool)
    requires Sep(t) && Holds(m, t) && t.Bin?
    ensures t.n in m && m[t.n].balance == t.b && m[t.n].data == t.d
    ensures m[t.n].link.At(dir) == Root(Child(t, dir)) && m[t.n].link.At(!dir) == Root(Child(t, !dir))
    ensures Child(t, dir).Bin? ==>
              var s := Child(t, dir);
              && s.n in m && s.n != t.n && m[s.n].balance == s.b
              && m[s.n].link.At(dir) == Root(Child(s, dir)) && m[s.n].link.At(!dir) == Root(Child(s, !dir))
              && (Child(s, !dir).Bin? ==>
                    var g := Child(s, !dir);
                    && g.n in m && g.n != t.n && g.n != s.n && m[g.n].balance == g.b
                    && m[g.n].link.At(dir) == Root(Child(g, dir)) && m[g.n].link.At(!dir) == Root(Child(g, !dir)))
  {
    if Child(t, dir).Bin? {
      var s := Child(t, dir);
      assert Sep(s) && Holds(m, s);
      if Child(s, !dir).Bin? {
        assert Sep(Child(s, !dir)) && Holds(m, Child(s, !dir));
      }
    }
  }

  class AvlTree {
    var root: Node?
    const cmp: Comparator
    var size: int

    ghost var nodes: set<Node>
    ghost var tree: Tree

    // The heap is exactly the tree Plug(z, t).
    ghost predicate At(z: Ctx, t: Tree)
      reads this, nodes
    {
      Focus(Snapshot(nodes), root, z, t)
    }

    ghost predicate Valid()
      reads this, nodes
    {
      && TotalPreorder(cmp)
      && At(Top, tree)
      && Balanced(tree)
      && Sorted(cmp, Elems(tree))
      && size == |Elems(tree)|
    }

    // The items in order.
    ghost function Contents(): seq<Ptr>
      reads this
    {
      Elems(tree)
    }

    // jsw_avlnew
    constructor (cmp: Comparator)
      requires TotalPreorder(cmp)
      ensures Valid() && Contents() == [] && this.cmp == cmp && nodes == {}
    {
      root := null;
      this.cmp := cmp;
      size := 0;
      nodes := {};
      tree := Leaf;
    }

    lemma Reads(z: Ctx, t: Tree)
      requires At(z, t)
      ensures z.Top? <==> Root(t) == root
      ensures z.In? ==> root != null && z.n in nodes && z.n != Root(t) && z.n.link == LinksOf(z, Root(t))
      ensures z.In? ==> z.n.balance == z.b && z.n.data == z.d
      ensures z.In? && Root(t) != null ==> (z.n.link.one == Root(t) <==> z.dir)
      ensures t.Bin? ==> t.n in nodes && t.n.balance == t.b && t.n.data == t.d
      ensures t.Bin? ==> t.n.link == Links(Root(t.l), Root(t.r))
      ensures t.Bin? && Root(t.l) != null ==> Root(t.l) in nodes && Root(t.l) != t.n && Root(t.l) != Root(t.r)
      ensures t.Bin? && Root(t.r) != null ==> Root(t.r) in nodes && Root(t.r) != t.n
    {
      hide Holds, CtxHolds, Nodes, CtxNodes, Sep, CtxSep;
      FocusReads(Snapshot(nodes), root, z, t);
    }

    lemma Up(z: Ctx, t: Tree)
      requires At(z, t) && z.In?
      ensures At(z.up, UpTree(z, t)) && Whole(z.up, UpTree(z, t)) == Whole(z, t)
    {
      FocusUp(Snapshot(nodes), root, z, t);
      WholeUp(z, t);
    }

    lemma GoTo(z: Ctx, t: Tree, dir: bool)
      requires At(z, t) && t.Bin?
      ensures At(Down(z, t, dir), Child(t, dir)) && Whole(Down(z, t, dir), Child(t, dir)) == Whole(z, t)
    {
      FocusDown(Snapshot(nodes), root, z, t, dir);
      WholeDown(z, t, dir);
    }

    lemma ToTop(z: Ctx, t: Tree)
      requires At(z, t)
      ensures At(Top, Plug(z, t)) && Elems(Plug(z, t)) == Whole(z, t)
    {
      FocusTop(Snapshot(nodes), root, z, t);
      WholePlug(z, t);
    }

    lemma FromTop(z: Ctx, t: Tree)
      requires At(Top, Plug(z, t))
      ensures At(z, t)
    {
      FocusInto(Snapshot(nodes), root, z, t);
    }

    // ---------------------------------------------------------------- rotations

    // A subtree that the heap holds, whatever is around it.
    ghost predicate Owns(t: Tree)
      reads this, nodes
    {
      Sep(t) && Holds(Snapshot(nodes), t) && Nodes(t) <= nodes
    }

    twostate predicate OnlyIn(t: Tree)
      reads this, nodes
    {
      nodes == old(nodes) && forall n | n in nodes && n !in Nodes(t) :: Snapshot(nodes)[n] == old(Snapshot(nodes))[n]
    }

    // jsw_single
    method SingleRotation(r: Node, dir: bool, ghost t: Tree) returns (save: Node)
      requires Owns(t) && t.Bin? && t.n == r && Child(t, !dir).Bin?
      modifies nodes
      ensures Owns(Single(t, dir)) && save == Single(t, dir).n && OnlyIn(t)
    {
      ghost var m := Snapshot(nodes);
      Kin(m, t, !dir);
      save := r.link.At(!dir);
      r.link := r.link.With(!dir, save.link.At(dir));
      save.link := save.link.With(dir, r);
      SingleHolds(m, Snapshot(nodes), t, dir);
      SingleFacts(t, dir);
    }

    // jsw_double
    method DoubleRotation(r: Node, dir: bool, ghost t: Tree) returns (top: Node)
      requires Owns(t) && t.Bin? && t.n == r && Child(t, !dir).Bin? && Child(Child(t, !dir), dir).Bin?
      modifies nodes
      ensures Owns(Double(t, dir)) && top == Double(t, dir).n && OnlyIn(t)
    {
      ghost var w := TurnInner(r, dir, t);
      top := SingleRotation(r, dir, w);
      DoubleIsTwice(t, dir);
      hide Single, Double, Holds, Sep, Nodes;
    }

    // The first four writes of jsw_double: the grandchild inside comes up by one.
    method TurnInner(r: Node, dir: bool, ghost t: Tree) returns (ghost w: Tree)
      requires Owns(t) && t.Bin? && t.n == r && Child(t, !dir).Bin? && Child(Child(t, !dir), dir).Bin?
      modifies nodes
      ensures w == Mk(!dir, Single(Child(t, !dir), !dir), t.n, t.d, t.b, Child(t, dir))
      ensures Owns(w) && Nodes(w) == Nodes(t) && OnlyIn(t)
    {
      w := Mk(!dir, Single(Child(t, !dir), !dir), t.n, t.d, t.b, Child(t, dir));
      ghost var m := Snapshot(nodes);
      Kin(m, t, !dir);
      var child := r.link.At(!dir);
      var save := child.link.At(dir);
      child.link := child.link.With(dir, save.link.At(!dir));
      save.link := save.link.With(!dir, child);
      r.link := r.link.With(!dir, save);
      InnerHolds(m, Snapshot(nodes), t, dir);
      hide Single, Mk, Child, Holds, Sep, Nodes;
    }

    // jsw_adjust_balance
    method AdjustBalance(r: Node, dir: bool, bal: int, ghost t: Tree)
      requires Owns(t) && t.Bin? && t.n == r && Child(t, dir).Bin? && Child(Child(t, dir), !dir).Bin?
      modifies nodes
      ensures Owns(Adjusted(t, dir, bal)) && OnlyIn(t)
    {
      ghost var m := Snapshot(nodes);
      Kin(m, t, dir);
      AdjustedFacts(t, dir, bal);
      var n := r.link.At(dir);
      var nn := n.link.At(!dir);
      if nn.balance == 0 {
        r.balance := 0;
        n.balance := 0;
      } else if nn.balance == bal {
        r.balance := -bal;
        n.balance := 0;
      } else {
        r.balance := 0;
        n.balance := bal;
      }
      nn.balance := 0;
      WithThreeHolds(m, Snapshot(nodes), t, dir, r.balance, n.balance, 0);
      hide WithThree, Child, Holds, Sep, Nodes;
    }

    // New balances at a node and at its child.
    method SetTwo(r: Node, n: Node, dir: bool, b: int, bn: int, ghost t: Tree)
      requires Owns(t) && t.Bin? && t.n == r && Child(t, dir).Bin? && Child(t, dir).n == n
      modifies nodes
      ensures Owns(WithTwo(t, dir, b, bn)) && OnlyIn(t)
    {
      ghost var m := Snapshot(nodes);
      Kin(m, t, dir);
      WithTwoFacts(t, dir, b, bn);
      r.balance := b;
      n.balance := bn;
      WithTwoHolds(m, Snapshot(nodes), t, dir, b, bn);
    }

    // jsw_insert_balance
    method InsertBalance(r: Node, dir: bool, ghost t: Tree) returns (top: Node)
      requires Owns(t) && HeavyAfterInsert(t, dir) && t.n == r
      modifies nodes
      ensures Owns(InsertBalanced(t, dir)) && top == Root(InsertBalanced(t, dir)) && OnlyIn(t)
    {
      Kin(Snapshot(nodes), t, dir);
      InsertBalancedSame(t, dir);
      var n := r.link.At(dir);
      var bal := if dir then 1 else -1;
      if n.balance == bal {
        WithTwoFacts(t, dir, 0, 0);
        SetTwo(r, n, dir, 0, 0, t);
        top := SingleRotation(r, !dir, WithTwo(t, dir, 0, 0));
      } else {
        InnerExists(t, dir);
        AdjustedFacts(t, dir, bal);
        AdjustBalance(r, dir, bal, t);
        top := DoubleRotation(r, !dir, Adjusted(t, dir, bal));
      }
      hide Single, Double, WithThree, Holds, Sep, Nodes, Balanced, Height;
    }

    // jsw_remove_balance
    method RemoveBalance(r: Node, dir: bool, done: bool, ghost t: Tree) returns (top: Node, done': bool)
      requires Owns(t) && HeavyAfterRemove(t, dir) && t.n == r
      modifies nodes
      ensures Owns(RemoveBalanced(t, dir)) && top == Root(RemoveBalanced(t, dir)) && OnlyIn(t)
      ensures done' == (done || Child(t, !dir).b == 0)
    {
      done' := done;
      Kin(Snapshot(nodes), t, !dir);
      RemoveBalancedSame(t, dir);
      var n := r.link.At(!dir);
      var bal := if dir then 1 else -1;
      if n.balance == -bal {
        WithTwoFacts(t, !dir, 0, 0);
        SetTwo(r, n, !dir, 0, 0, t);
        top := SingleRotation(r, dir, WithTwo(t, !dir, 0, 0));
      } else if n.balance == bal {
        InnerExists(t, !dir);
        AdjustedFacts(t, !dir, -bal);
        AdjustBalance(r, !dir, -bal, t);
        top := DoubleRotation(r, dir, Adjusted(t, !dir, -bal));
      } else {
        WithTwoFacts(t, !dir, -bal, bal);
        SetTwo(r, n, !dir, -bal, bal, t);
        top := SingleRotation(r, dir, WithTwo(t, !dir, -bal, bal));
        done' := true;
      }
      hide Single, Double, WithThree, Holds, Sep, Nodes, Balanced, Height;
    }

    // ---------------------------------------------------------------- find

    // jsw_avlfind
    method Find(data: Ptr) returns (r: Ptr)
      requires Valid()
      ensures Absent(cmp, Contents(), data) ==> r == NULL
      ensures !Absent(cmp, Contents(), data) ==> r in Contents() && cmp(r, data) == 0
    {
      hide Focus, Balanced, Whole, StrictPlace, Elems, Before, After, Sorted, Absent;
      ghost var z, t := Top, tree;
      var it := root;
      Reads(z, t);
      AtStart(cmp, tree, data);
      while it != null
        invariant At(z, t) && it == Root(t) && Whole(z, t) == Contents() && StrictPlace(cmp, z, data)
        decreases t
      {
        Reads(z, t);
        var c := cmp(it.data, data);
        if c == 0 {
          FoundHere(cmp, z, t, data);
          return it.data;
        }
        GoTo(z, t, c < 0);
        GoDown(cmp, z, t, data);
        z, t := Down(z, t, c < 0), Child(t, c < 0);
        it := it.link.At(c < 0);
      }
      NothingThere(cmp, z, data);
      r := NULL;
    }

    // ---------------------------------------------------------------- insert

    // jsw_avlinsert
    method Insert(data: Ptr) returns (ok: bool)
      requires Valid()
      modifies this, nodes
      ensures Valid() && ok && fresh(nodes - old(nodes))
      ensures InsertedInto(cmp, old(Contents()), Contents(), data)
    {
      hide Focus, Balanced, InsertedInto;
      if root == null {
        InsertFirst(data);
      } else {
        InsertBelow(data);
      }
      InsertKeepsSorted(cmp, old(Contents()), Contents(), data);
      InsertedLength(cmp, old(Contents()), Contents(), data);
      size := size + 1;
      ok := true;
    }

    method InsertBelow(data: Ptr)
      requires Valid() && root != null
      modifies `root, `nodes, `tree, nodes
      ensures fresh(nodes - old(nodes))
      ensures At(Top, tree) && Balanced(tree) && InsertedInto(cmp, old(Contents()), Contents(), data)
    {
      hide Focus, Balanced, Plug, Grown, Bumped, Counted, InsertedInto, Whole, Nodes, HeavyAfterInsert, Height;
      var p, dir, s, t;
      ghost var z, tp, zs, ts;
      p, dir, s, t, z, tp, zs, ts := FindPlace(data);
      Reads(z, tp);
      var q := Hang(p, dir, data, z, tp, zs, ts);
      ghost var u := Bumped(cmp, ts, data, q);
      InsertPlan(cmp, z, tp, zs, ts, tree, data, q);
      UpdateBalances(s, q, data, zs, Grown(cmp, ts, data, q));
      Reads(zs, u);
      FixBalance(s, t, data, zs, u);
      ghost var v := Rebalanced(u, GoesRight(cmp, u, data));
      ToTop(zs, v);
      tree := Plug(zs, v);
    }

    method InsertFirst(data: Ptr)
      requires Valid() && root == null
      modifies this
      ensures root != null && nodes == old(nodes) + {root} && fresh(root) && size == old(size)
      ensures At(Top, tree) && Balanced(tree) && InsertedInto(cmp, old(Contents()), Contents(), data)
    {
      hide InsertedInto, Sorted;
      Reads(Top, tree);
      AtStart(cmp, tree, data);
      ghost var m := Snapshot(nodes);
      root := new Node(data);
      nodes := nodes + {root};
      tree := Bin(Leaf, root, data, 0, Leaf);
      ReplaceStore(m, Snapshot(nodes), null, root, Top, Leaf, tree);
      GrownElems(cmp, Top, Leaf, data, root, []);
      assert Contents() == Whole(Top, tree);
    }

    // The search down the tree, saving rebalance points: s is the last node of
    // nonzero balance that it passed (or the root), and t the node above s.
    method FindPlace(data: Ptr)
      returns (p: Node, dir: bool, s: Node, t: Node?, ghost z: Ctx, ghost tp: Tree, ghost zs: Ctx, ghost ts: Tree)
      requires Valid() && root != null
      ensures tp.Bin? && At(z, tp) && tp.n == p && dir == GoesRight(cmp, tp, data) && Child(tp, dir) == Leaf
      ensures Plug(z, tp) == tree && Whole(z, tp) == Contents() && LowerPlace(cmp, Down(z, tp, dir), data)
      ensures ts.Bin? && At(zs, ts) && ts.n == s && t == (if zs.Top? then null else zs.n)
      ensures Plug(zs, ts) == tree && OnPath(cmp, zs, ts, z, tp, data) && (zs.In? ==> ts.b != 0)
    {
      hide Focus, Balanced, Whole;
      z, tp, zs, ts := Top, tree, Top, tree;
      Reads(z, tp);
      p, s, t := root, root, null;
      WholePlug(Top, tree);
      while true
        invariant tp.Bin? && At(z, tp) && tp.n == p && LowerPlace(cmp, z, data)
        invariant Plug(z, tp) == tree && Whole(z, tp) == Contents()
        invariant ts.Bin? && At(zs, ts) && ts.n == s && t == (if zs.Top? then null else zs.n)
        invariant Plug(zs, ts) == tree && OnPath(cmp, zs, ts, z, tp, data) && (zs.In? ==> ts.b != 0)
        decreases tp
      {
        Reads(z, tp);
        dir := cmp(p.data, data) < 0;
        GoTo(z, tp, dir);
        GoDown(cmp, z, tp, data);
        Reads(Down(z, tp, dir), Child(tp, dir));
        var q := p.link.At(dir);
        if q == null {
          return;
        }
        PlugDown(z, tp, dir);
        z, tp := Down(z, tp, dir), Child(tp, dir);
        if q.balance != 0 {
          t := p;
          s := q;
          zs, ts := z, tp;
        }
        p := q;
      }
    }

    lemma Covers(z: Ctx, t: Tree)
      requires At(z, t)
      ensures Nodes(t) <= nodes && CtxNodes(z) <= nodes && CtxNodes(z) !! Nodes(t)
    {
      assert Snapshot(nodes).Keys == nodes;
    }

    // The new node is linked in at the end of the search.
    method Hang(p: Node, dir: bool, data: Ptr, ghost z: Ctx, ghost tp: Tree, ghost zs: Ctx, ghost ts: Tree)
      returns (q: Node)
      requires tp.Bin? && At(z, tp) && tp.n == p && p in nodes
      requires dir == GoesRight(cmp, tp, data) && Child(tp, dir) == Leaf && LowerPlace(cmp, Down(z, tp, dir), data)
      requires ts.Bin? && At(zs, ts) && OnPath(cmp, zs, ts, z, tp, data)
      modifies `nodes, p
      ensures fresh(q) && nodes == old(nodes) + {q}
      ensures At(zs, Grown(cmp, ts, data, q)) && q !in Nodes(ts)
      ensures InsertedInto(cmp, Whole(z, tp), Whole(zs, Grown(cmp, ts, data, q)), data)
    {
      Covers(zs, ts);
      WholeDown(z, tp, dir);
      q := Link(p, dir, data, z, tp);
      GrownElems(cmp, Down(z, tp, dir), Leaf, data, q, Whole(z, tp));
      AtGrown(dir, data, q, z, tp, zs, ts);
      hide Focus, Whole, Nodes, InsertedInto, Grown;
    }

    method Link(p: Node, dir: bool, data: Ptr, ghost z: Ctx, ghost tp: Tree) returns (q: Node)
      requires tp.Bin? && At(z, tp) && tp.n == p && p in nodes && Child(tp, dir) == Leaf
      modifies `nodes, p
      ensures fresh(q) && nodes == old(nodes) + {q}
      ensures At(Down(z, tp, dir), Bin(Leaf, q, data, 0, Leaf))
    {
      GoTo(z, tp, dir);
      Covers(Down(z, tp, dir), Leaf);
      ghost var m := Snapshot(nodes);
      q := new Node(data);
      p.link := p.link.With(dir, q);
      nodes := nodes + {q};
      ReplaceStore(m, Snapshot(nodes), root, root, Down(z, tp, dir), Leaf, Bin(Leaf, q, data, 0, Leaf));
    }

    lemma AtGrown(dir: bool, data: Ptr, q: Node, z: Ctx, tp: Tree, zs: Ctx, ts: Tree)
      requires tp.Bin? && ts.Bin? && dir == GoesRight(cmp, tp, data) && Child(tp, dir) == Leaf
      requires At(Down(z, tp, dir), Bin(Leaf, q, data, 0, Leaf)) && OnPath(cmp, zs, ts, z, tp, data)
      ensures At(zs, Grown(cmp, ts, data, q))
      ensures Whole(zs, Grown(cmp, ts, data, q)) == Whole(Down(z, tp, dir), Bin(Leaf, q, data, 0, Leaf))
    {
      var leaf := Bin(Leaf, q, data, 0, Leaf);
      assert UpTree(Down(z, tp, dir), leaf) == Grown(cmp, tp, data, q);
      hide Focus, Whole, Grown;
      ToTop(Down(z, tp, dir), leaf);
      PathFacts(cmp, zs, ts, z, tp, data, q);
      WholePlug(zs, Grown(cmp, ts, data, q));
      FromTop(zs, Grown(cmp, ts, data, q));
    }

    // The balances from s down to the new node q.
    method UpdateBalances(s: Node, q: Node, data: Ptr, ghost zs: Ctx, ghost us: Tree)
      requires At(zs, us) && us.Bin? && us.n == s && Reaches(cmp, us, data, q)
      modifies nodes
      ensures At(zs, Counted(cmp, us, data, q))
    {
      hide Focus;
      ghost var z, u := zs, us;
      var p := s;
      while p != q
        invariant At(z, u) && u.Bin? && u.n == p && Reaches(cmp, u, data, q)
        invariant Plug(z, Counted(cmp, u, data, q)) == Plug(zs, Counted(cmp, us, data, q))
        decreases u
      {
        Reads(z, u);
        var dir := cmp(p.data, data) < 0;
        ghost var v := WithBalance(u, u.b + (if dir then 1 else -1));
        SetBalance(p, p.balance + (if dir then 1 else -1), z, u);
        Reads(z, v);
        GoTo(z, v, dir);
        CountedDown(cmp, z, u, data, q);
        z, u := Down(z, v, dir), Child(v, dir);
        p := p.link.At(dir);
      }
      ToTop(z, u);
      FromTop(zs, Counted(cmp, us, data, q));
    }

    method SetBalance(p: Node, b: int, ghost z: Ctx, ghost t: Tree)
      requires At(z, t) && t.Bin? && t.n == p && p in nodes
      modifies p`balance
      ensures At(z, WithBalance(t, b))
    {
      ghost var m := Snapshot(nodes);
      Reads(z, t);
      p.balance := b;
      RewriteStore(m, Snapshot(nodes), root, z, t, t.d, b);
    }

    // The rotation at s, if one is due, and the link to it.
    method FixBalance(s: Node, t: Node?, data: Ptr, ghost zs: Ctx, ghost u: Tree)
      requires At(zs, u) && u.Bin? && u.n == s && u.d == s.data && u.b == s.balance &&
               t == (if zs.Top? then null else zs.n)
      requires u.b < -1 || u.b > 1 ==> HeavyAfterInsert(u, GoesRight(cmp, u, data))
      modifies `root, nodes
      ensures At(zs, Rebalanced(u, GoesRight(cmp, u, data)))
    {
      hide Focus, InsertBalanced, HeavyAfterInsert;
      ghost var v := Rebalanced(u, GoesRight(cmp, u, data));
      ghost var m := Snapshot(nodes);
      Reads(zs, u);
      Covers(zs, u);
      var s' := s;
      OwnsHere(zs, u);
      if s.balance < -1 || s.balance > 1 {
        var dir := cmp(s.data, data) < 0;
        InsertBalancedSame(u, dir);
        s' := InsertBalance(s, dir, u);
        Relink(s, s', t, zs, u, v, m);
      } else {
        Relink(s, s', t, zs, u, v, m);
      }
    }

    lemma OwnsHere(z: Ctx, t: Tree)
      requires At(z, t)
      ensures Owns(t)
    {
    }

    // The link that led to the old subtree u is made to lead to v's root.
    method Relink(q: Node, s: Node, t: Node?, ghost z: Ctx, ghost u: Tree, ghost v: Tree, ghost m: Store)
      requires Focus(m, root, z, u) && u.Bin? && u.n == q && t == (if z.Top? then null else z.n)
      requires Owns(v) && Root(v) == s && Nodes(v) == Nodes(u) && m.Keys == nodes
      requires forall n | n in nodes && n !in Nodes(u) :: Snapshot(nodes)[n] == m[n]
      modifies `root, nodes
      ensures At(z, v)
    {
      FocusReads(m, root, z, u);
      assert z.In? ==> z.n in nodes && z.n !in Nodes(u);
      ghost var m1 := Snapshot(nodes);
      if q == root {
        root := s;
      } else {
        t.link := t.link.With(q == t.link.one, s);
      }
      HoldsFrame(m1, Snapshot(nodes), v);
      hide Holds, CtxHolds;
      ReplaceStore(m, Snapshot(nodes), old(root), root, z, u, v);
    }

    // ---------------------------------------------------------------- erase

    // jsw_avlerase, on a tree no higher than the path arrays are long: one item that compares equal
    // goes, if there is any. On an empty tree the code claims success and counts one
    // item fewer than none, so the tree is valid afterwards exactly if it was not empty.
    method Erase(data: Ptr) returns (ok: bool)
      requires Valid() && FitsPath(64)
      modifies this, nodes
      ensures nodes <= old(nodes)
      ensures Valid() <==> old(Contents()) != []
      ensures ok <==> old(Contents()) == [] || !Absent(cmp, old(Contents()), data)
      ensures old(Contents()) != [] && ok ==> Removed(cmp, old(Contents()), Contents(), data)
      ensures !ok ==> unchanged(this) && unchanged(old(nodes))
      ensures old(Contents()) == [] ==> Contents() == [] && size == -1 && nodes == old(nodes)
    {
      hide Focus, Balanced, Plug, Removed, Whole, Stacked;
      EmptyRoot();
      if root != null {
        var up, upd := new Node?[HEIGHT_LIMIT], new bool[HEIGHT_LIMIT];
        ghost var z, t;
        var it, top;
        it, top, z, t := FindItem(data, up, upd);
        if it == null {
          return false;
        }
        RemoveItem(it, data, up, upd, top, z, t);
        RemovedFacts(cmp, old(Contents()), Contents(), data);
      }
      size := size - 1;
      ok := true;
    }

    lemma EmptyRoot()
      requires Valid()
      ensures root == null <==> Contents() == []
    {
      hide Focus;
      Reads(Top, tree);
    }

    // Low enough for no path down the tree to outgrow that length.
    ghost predicate FitsPath(length: nat)
      reads this
    {
      Height(tree) <= length
    }

    // Which it is as long as it has few enough items; see ItemsBoundIsSharp.
    lemma FewItemsFit(length: nat)
      requires Valid() && |Contents()| < Fib(length + 3) - 1
      ensures FitsPath(length)
    {
      FewItemsLowTree(tree, length);
    }

    // Search down the tree and save the path.
    method FindItem(data: Ptr, up: array<Node?>, upd: array<bool>)
      returns (it: Node?, top: int, ghost z: Ctx, ghost t: Tree)
      requires Valid() && Height(tree) <= HEIGHT_LIMIT && up.Length == upd.Length == HEIGHT_LIMIT
      modifies up, upd
      ensures it == null ==> Absent(cmp, Contents(), data)
      ensures it != null ==> At(z, t) && t.Bin? && t.n == it && cmp(t.d, data) == 0
      ensures it != null ==> Plug(z, t) == tree && Whole(z, t) == Contents() && Stacked(z, up[..], upd[..], top)
    {
      hide Focus, Balanced, Whole, StrictPlace, Elems, Before, After, Sorted, Absent, Height, Depth;
      z, t := Top, tree;
      it, top := root, 0;
      Reads(z, t);
      AtStart(cmp, tree, data);
      while true
        invariant At(z, t) && it == Root(t) && Plug(z, t) == tree && Whole(z, t) == Contents()
        invariant StrictPlace(cmp, z, data) && Stacked(z, up[..], upd[..], top)
        decreases t
      {
        Reads(z, t);
        if it == null {
          NothingThere(cmp, z, data);
          return;
        } else if cmp(it.data, data) == 0 {
          return;
        }
        DepthHeight(z, t);
        StackedDepth(z, up[..], upd[..], top);
        var dir := cmp(it.data, data) < 0;
        HeightsDown(z, t, dir);
        Push(it, dir, up, upd, top, z);
        top := top + 1;
        GoTo(z, t, dir);
        GoDown(cmp, z, t, data);
        PlugDown(z, t, dir);
        Reads(Down(z, t, dir), Child(t, dir));
        z, t := Down(z, t, dir), Child(t, dir);
        it := it.link.At(upd[top - 1]);
      }
    }

    method RemoveItem(it: Node, data: Ptr, up: array<Node?>, upd: array<bool>, top: int, ghost z: Ctx, ghost t: Tree)
      requires Valid() && Height(tree) <= HEIGHT_LIMIT && up.Length == upd.Length == HEIGHT_LIMIT
      requires At(z, t) && t.Bin? && t.n == it && cmp(t.d, data) == 0
      requires Plug(z, t) == tree && Whole(z, t) == Contents() && Stacked(z, up[..], upd[..], top)
      modifies `root, `nodes, `tree, nodes, up, upd
      ensures nodes <= old(nodes) && At(Top, tree) && Balanced(tree)
      ensures Removed(cmp, old(Contents()), Contents(), data)
    {
      hide Focus, Balanced, Plug, Removed, Whole, Stacked, CtxBalanced;
      Reads(z, t);
      if it.link.At(false) == null || it.link.At(true) == null {
        var dir := it.link.At(false) == null;
        PlugBalanced(z, t);
        CutHeight(t, dir);
        CutElems(cmp, z, t, dir, data);
        CutOut(it, dir, up, upd, top, z, t);
        WalkBack(up, upd, top, z, Child(t, dir));
      } else {
        ghost var y, h;
        var top' := top;
        HeirBalanced(z, t, Leftmost(t.r).d);
        HeirElems(cmp, z, t, data);
        top', y, h := PromoteHeir(it, up, upd, top, z, t);
        WalkBack(up, upd, top', y, h.r);
      }
    }

    // The subtree below the node it, which misses its other child, takes its place.
    method CutOut(it: Node, dir: bool, up: array<Node?>, upd: array<bool>, top: int, ghost z: Ctx, ghost t: Tree)
      requires At(z, t) && t.Bin? && t.n == it && it in nodes && Child(t, !dir).Leaf?
      requires Stacked(z, up[..], upd[..], top) && up.Length == upd.Length
      modifies `root, `nodes, nodes
      ensures nodes == old(nodes) - {it} && At(z, Child(t, dir))
    {
      ghost var m := Snapshot(nodes);
      Reads(z, t);
      Covers(z, t);
      ByChildren(t, dir);
      var link := it.link.At(dir);
      if top != 0 {
        var parent := up[top - 1];
        parent.link := parent.link.With(upd[top - 1], link);
      } else {
        root := link;
      }
      nodes := nodes - {it};
      HoldsFrame(m, Snapshot(nodes), Child(t, dir));
      hide Holds, CtxHolds, Nodes, Sep;
      ReplaceStore(m, Snapshot(nodes), old(root), root, z, t, Child(t, dir));
    }

    // The heir of it, the next item in order, moves to it's place, and its own node
    // is cut out.
    method PromoteHeir(it: Node, up: array<Node?>, upd: array<bool>, top: int, ghost z: Ctx, ghost t: Tree)
      returns (top': int, ghost y: Ctx, ghost h: Tree)
      requires At(z, t) && t.Bin? && t.n == it && it in nodes && t.r.Bin? && Height(Plug(z, t)) <= HEIGHT_LIMIT
      requires Stacked(z, up[..], upd[..], top) && up.Length == upd.Length == HEIGHT_LIMIT
      modifies `nodes, nodes, up, upd
      ensures h == Leftmost(t.r) && y == LeftmostCtx(Down(z, WithData(t, h.d), true), t.r)
      ensures nodes == old(nodes) - {h.n} && At(y, h.r) && Stacked(y, up[..], upd[..], top')
    {
      hide Focus, Plug, Stacked, Leftmost, LeftmostCtx;
      h := Leftmost(t.r);
      y := LeftmostCtx(Down(z, WithData(t, h.d), true), t.r);
      var heir;
      heir, top' := FindHeir(it, up, upd, top, z, t);
      DistinctHeir(z, t);
      SwapData(it, heir, z, t, h, y);
      UnlinkHeir(it, heir, up, upd, top', z, t, h, y);
    }

    method FindHeir(it: Node, up: array<Node?>, upd: array<bool>, top: int, ghost z: Ctx, ghost t: Tree)
      returns (heir: Node, top': int)
      requires At(z, t) && t.Bin? && t.n == it && t.r.Bin? && Height(Plug(z, t)) <= HEIGHT_LIMIT
      requires Stacked(z, up[..], upd[..], top) && up.Length == upd.Length == HEIGHT_LIMIT
      modifies up, upd
      ensures heir == Leftmost(t.r).n && heir in nodes
      ensures Stacked(LeftmostCtx(Down(z, WithData(t, Leftmost(t.r).d), true), t.r), up[..], upd[..], top')
    {
      hide Focus, Plug, Height;
      Reads(z, t);
      heir := it.link.At(true);
      // The way to the heir, as it is, and as it is going to be.
      ghost var r, y, h := Down(z, t, true), Down(z, WithData(t, Leftmost(t.r).d), true), t.r;
      GoTo(z, t, true);
      PlugDown(z, t, true);
      DepthHeight(z, t);
      HeightsDown(z, t, true);
      Push(it, true, up, upd, top, z);
      top' := top + 1;
      Reads(r, h);
      while heir.link.At(false) != null
        invariant At(r, h) && h.Bin? && h.n == heir && heir in nodes && Stacked(y, up[..], upd[..], top')
        invariant heir.link == Links(Root(h.l), Root(h.r))
        invariant LeftmostCtx(y, h) == LeftmostCtx(Down(z, WithData(t, Leftmost(t.r).d), true), t.r)
        invariant Leftmost(h) == Leftmost(t.r)
        invariant Depth(y) + Height(h) <= HEIGHT_LIMIT
        decreases h
      {
        HeightsDown(y, h, false);
        GoTo(r, h, false);
        Push(heir, false, up, upd, top', y);
        top' := top' + 1;
        heir := heir.link.At(false);
        r, y, h := Down(r, h, false), Down(y, h, false), h.l;
        Reads(r, h);
      }
    }

    method Push(n: Node, dir: bool, up: array<Node?>, upd: array<bool>, top: int, ghost z: Ctx)
      requires Stacked(z, up[..], upd[..], top) && Depth(z) < up.Length == upd.Length
      modifies up, upd
      ensures forall y: Ctx :: y.In? && y.up == z && y.n == n && y.dir == dir ==> Stacked(y, up[..], upd[..], top + 1)
    {
      StackedDepth(z, up[..], upd[..], top);
      ghost var was, was' := up[..], upd[..];
      upd[top] := dir;
      up[top] := n;
      StackedFrame(z, was, was', up[..], upd[..], top);
    }

    method SwapData(it: Node, heir: Node, ghost z: Ctx, ghost t: Tree, ghost h: Tree, ghost y: Ctx)
      requires At(z, t) && t.Bin? && t.n == it && it in nodes && t.r.Bin? && heir in nodes
      requires h == Leftmost(t.r) && h.n == heir && y == LeftmostCtx(Down(z, WithData(t, h.d), true), t.r)
      modifies it`data, heir`data
      ensures At(y, WithData(h, t.d))
    {
      hide Focus;
      ghost var y0 := LeftmostCtx(Down(z, t, true), t.r);
      Reads(z, t);
      GoTo(z, t, true);
      ToLeftmost(Down(z, t, true), t.r);
      Reads(y0, h);
      DistinctHeir(z, t);
      var save := it.data;
      ghost var m := Snapshot(nodes);
      it.data := heir.data;
      RewriteStore(m, Snapshot(nodes), root, z, t, h.d, t.b);
      GoTo(z, WithData(t, h.d), true);
      ToLeftmost(Down(z, WithData(t, h.d), true), t.r);
      ghost var m1 := Snapshot(nodes);
      heir.data := save;
      RewriteStore(m1, Snapshot(nodes), root, y, h, t.d, h.b);
    }

    lemma ToLeftmost(z: Ctx, t: Tree)
      requires At(z, t) && t.Bin?
      ensures At(LeftmostCtx(z, t), Leftmost(t))
    {
      hide Focus;
      LeftmostFacts(z, t);
      ToTop(z, t);
      FromTop(LeftmostCtx(z, t), Leftmost(t));
    }

    lemma DistinctHeir(z: Ctx, t: Tree)
      requires At(z, t) && t.Bin? && t.r.Bin?
      ensures Leftmost(t.r).n != t.n && t.n !in Nodes(t.r)
    {
      LeftmostFacts(z, t.r);
    }

    method UnlinkHeir(it: Node, heir: Node, up: array<Node?>, upd: array<bool>, top: int,
                      ghost z: Ctx, ghost t: Tree, ghost h: Tree, ghost y: Ctx)
      requires t.Bin? && t.n == it && t.r.Bin? && it !in Nodes(t.r)
      requires h == Leftmost(t.r) && h.n == heir && heir in nodes &&
               y == LeftmostCtx(Down(z, WithData(t, h.d), true), t.r)
      requires At(y, WithData(h, t.d)) && Stacked(y, up[..], upd[..], top)
      modifies `nodes, nodes
      ensures nodes == old(nodes) - {heir} && At(y, h.r)
    {
      LeftmostParent(Down(z, WithData(t, h.d), true), t.r);
      var parent := up[top - 1];
      ghost var m := Snapshot(nodes);
      ghost var v := WithData(h, t.d);
      Reads(y, v);
      Covers(y, v);
      parent.link := parent.link.With(parent == it, heir.link.At(true));
      nodes := nodes - {heir};
      HoldsFrame(m, Snapshot(nodes), h.r);
      hide Holds, CtxHolds, Nodes, Sep;
      ReplaceStore(m, Snapshot(nodes), root, root, y, v, h.r);
    }

    // Walk back up the search path: t has become lower by one.
    method WalkBack(up: array<Node?>, upd: array<bool>, top0: int, ghost z0: Ctx, ghost t0: Tree)
      requires At(z0, t0) && Stacked(z0, up[..], upd[..], top0)
      requires Balanced(t0) && CtxBalanced(z0, Height(t0) + 1)
      modifies `root, `tree, nodes, up
      ensures At(Top, tree) && Balanced(tree) && Elems(tree) == Whole(z0, t0)
    {
      hide Focus, Balanced, CtxBalanced, Whole, Height;
      ghost var z, t := z0, t0;
      var done := false;
      var top := top0 - 1;
      while top >= 0 && !done
        invariant At(z, t) && Stacked(z, up[..], upd[..], top + 1) && Whole(z, t) == Whole(z0, t0)
        invariant Balanced(t) && CtxBalanced(z, Height(t) + (if done then 0 else 1))
        decreases z
      {
        ghost var v;
        var settled;
        settled, done, v := StepUp(up, upd, top, z, t);
        z, t := z.up, v;
        top := top - 1;
        if settled {
          Finish(z, t);
          tree := Plug(z, t);
          return;
        }
      }
      TopBalanced(z, t, done);
      Finish(z, t);
      tree := Plug(z, t);
    }

    lemma Finish(z: Ctx, t: Tree)
      requires At(z, t) && Balanced(t) && CtxBalanced(z, Height(t))
      ensures At(Top, Plug(z, t)) && Balanced(Plug(z, t)) && Elems(Plug(z, t)) == Whole(z, t)
    {
      hide Focus;
      ToTop(z, t);
      PlugBalanced(z, t);
    }

    // One level: terminate or rebalance as necessary.
    method StepUp(up: array<Node?>, upd: array<bool>, top: int, ghost z: Ctx, ghost t: Tree)
      returns (settled: bool, done: bool, ghost v: Tree)
      requires At(z, t) && Stacked(z, up[..], upd[..], top + 1) && z.In?
      requires Balanced(t) && CtxBalanced(z, Height(t) + 1)
      modifies `root, nodes, up
      ensures At(z.up, v) && Stacked(z.up, up[..], upd[..], top) && Whole(z.up, v) == Whole(z, t)
      ensures Balanced(v) && CtxBalanced(z.up, Height(v) + (if done || settled then 0 else 1))
    {
      hide Focus, Balanced, CtxBalanced, Whole, Height;
      settled, done := false, false;
      WalkStep(z, t);
      Up(z, t);
      Reads(z.up, UpTree(z, t));
      var p := up[top];
      SetBalance(p, p.balance + (if upd[top] then -1 else 1), z.up, UpTree(z, t));
      v := Shrunk(z, t);
      assert At(z.up, v);
      ShrunkElems(z, t);
      Reads(z.up, v);
      if p.balance == 1 || p.balance == -1 {
        settled := true;
      } else if p.balance < -1 || p.balance > 1 {
        WalkTurn(z, t);
        done, v := Turn(up, upd, top, z.up, v, z.dir);
      }
    }

    method Turn(up: array<Node?>, upd: array<bool>, top: int, ghost z: Ctx, ghost u: Tree, ghost dir: bool)
      returns (done: bool, ghost v: Tree)
      requires At(z, u) && HeavyAfterRemove(u, dir) && 0 <= top < up.Length && top < upd.Length
      requires Stacked(z, up[..], upd[..], top) && up[top] == u.n && upd[top] == dir
      modifies `root, nodes, up
      ensures v == RemoveBalanced(u, dir) && done == (Child(u, !dir).b == 0)
      ensures At(z, v) && Stacked(z, up[..], upd[..], top) && Whole(z, v) == Whole(z, u)
    {
      hide Focus, Balanced, CtxBalanced, RemoveBalanced, Height, Holds, Sep;
      v := RemoveBalanced(u, dir);
      ghost var m := Snapshot(nodes);
      ghost var was := up[..];
      Reads(z, u);
      Covers(z, u);
      OwnsHere(z, u);
      RemoveBalancedSame(u, dir);
      var x;
      x, done := RemoveBalance(up[top], upd[top], false, u);
      up[top] := x;
      StackedFrame(z, was, upd[..], up[..], upd[..], top);
      FixParent(up, upd, top, z, u, v, m);
    }

    // The link on the path that led to u is made to lead to v's root.
    method FixParent(up: array<Node?>, upd: array<bool>, top: int, ghost z: Ctx, ghost u: Tree, ghost v: Tree,
                     ghost m: Store)
      requires 0 <= top < up.Length && top < upd.Length
      requires Focus(m, root, z, u) && u.Bin? && v.Bin? && Stacked(z, up[..], upd[..], top) && up[top] == v.n
      requires Owns(v) && Nodes(v) == Nodes(u) && m.Keys == nodes
      requires forall n | n in nodes && n !in Nodes(u) :: Snapshot(nodes)[n] == m[n]
      modifies `root, nodes
      ensures At(z, v)
    {
      FocusReads(m, root, z, u);
      assert z.In? ==> z.n in nodes && z.n !in Nodes(u);
      ghost var m1 := Snapshot(nodes);
      if top != 0 {
        var parent := up[top - 1];
        parent.link := parent.link.With(upd[top - 1], up[top]);
      } else {
        root := up[0];
      }
      HoldsFrame(m1, Snapshot(nodes), v);
      hide Holds, CtxHolds;
      ReplaceStore(m, Snapshot(nodes), old(root), root, z, u, v);
    }

    // ---------------------------------------------------------------- delete

    // jsw_avldelete: destruction by rotation. Every node is freed, in the order of
    // the items, which are returned as they are released.
    method Delete() returns (released: seq<Ptr>)
      requires Valid()
      modifies `nodes, nodes
      ensures nodes == {} && released == Contents()
    {
      hide Focus, Balanced, Holds, Sep, Elems, Single, Spine, Nodes, Sorted;
      ghost var t := tree;
      Reads(Top, t);
      CoversAll(t);
      OwnsHere(Top, t);
      var it := root;
      released := [];
      assert [] + Elems(t) == Elems(t);
      while it != null
        invariant it == Root(t) && Owns(t) && nodes == Nodes(t) <= old(nodes)
        invariant released + Elems(t) == Contents()
        decreases 2 * |Elems(t)| - Spine(t)
      {
        SpineShort(t);
        Links0(t);
        if it.link.At(false) == null {
          released := released + [it.data];
          FirstElem(t);
          it := FreeFirst(it, t);
          t := t.r;
        } else {
          SpineTurn(t);
          it := TurnRight(it, t);
          t := Single(t, true);
        }
        SpineShort(t);
      }
      assert Elems(Leaf) == [] && Nodes(Leaf) == {} by { LeafEmpty(); }
    }

    lemma CoversAll(t: Tree)
      requires At(Top, t)
      ensures Nodes(t) == nodes
    {
      assert Snapshot(nodes).Keys == nodes;
    }

    lemma Links0(t: Tree)
      requires Owns(t) && t.Bin?
      ensures t.n in nodes && t.n.data == t.d && t.n.link == Links(Root(t.l), Root(t.r))
    {
    }

    // Remove node
    method FreeFirst(it: Node, ghost t: Tree) returns (save: Node?)
      requires t.Bin? && t.n == it && t.l.Leaf? && Owns(t) && nodes == Nodes(t)
      modifies `nodes
      ensures save == Root(t.r) && Owns(t.r) && nodes == Nodes(t.r)
    {
      ghost var m := Snapshot(nodes);
      save := it.link.At(true);
      nodes := nodes - {it};
      HoldsFrame(m, Snapshot(nodes), t.r);
    }

    // Rotate right
    method TurnRight(it: Node, ghost t: Tree) returns (save: Node)
      requires t.Bin? && t.n == it && t.l.Bin? && Owns(t) && nodes == Nodes(t)
      modifies nodes
      ensures save == t.l.n && Owns(Single(t, true)) && nodes == Nodes(Single(t, true))
    {
      ghost var m := Snapshot(nodes);
      Kin(m, t, false);
      save := it.link.At(false);
      it.link := it.link.With(false, save.link.At(true));
      save.link := save.link.With(true, it);
      SingleHolds(m, Snapshot(nodes), t, true);
      SingleFacts(t, true);
    }
  }

  lemma CountedDown(cmp: Comparator, z: Ctx, u: Tree, d: Ptr, q: Node)
    requires u.Bin? && u.n != q && Reaches(cmp, u, d, q)
    ensures var dir := GoesRight(cmp, u, d);
      var v := WithBalance(u, u.b + Sign(dir));
      && Reaches(cmp, Child(v, dir), d, q)
      && Plug(Down(z, v, dir), Counted(cmp, Child(v, dir), d, q)) == Plug(z, Counted(cmp, u, d, q))
  {
  }

  // What insertion does at the rebalance point leaves the whole tree balanced:
  // either no height above changes, or there is nothing above.
  lemma InsertPlan(cmp: Comparator, z: Ctx, tp: Tree, zs: Ctx, ts: Tree, tree: Tree, d: Ptr, q: Node)
    requires tp.Bin? && ts.Bin? && Child(tp, GoesRight(cmp, tp, d)) == Leaf && OnPath(cmp, zs, ts, z, tp, d)
    requires Balanced(tree) && Plug(zs, ts) == tree && (zs.In? ==> ts.b != 0) && q !in Nodes(ts)
    ensures var g, u := Grown(cmp, ts, d, q), Bumped(cmp, ts, d, q);
      && g.Bin? && g.n == ts.n && Reaches(cmp, g, d, q) && Counted(cmp, g, d, q) == u
      && u.Bin? && u.n == ts.n && GoesRight(cmp, u, d) == GoesRight(cmp, ts, d)
      && (u.b < -1 || u.b > 1 ==> HeavyAfterInsert(u, GoesRight(cmp, u, d)))
      && Balanced(Plug(zs, Rebalanced(u, GoesRight(cmp, u, d))))
      && Whole(zs, Rebalanced(u, GoesRight(cmp, u, d))) == Whole(zs, g)
  {
    var g, u := Grown(cmp, ts, d, q), Bumped(cmp, ts, d, q);
    assert g.Bin? && g.n == ts.n;
    CountedGrown(cmp, ts, d, q);
    PathFacts(cmp, zs, ts, z, tp, d, q);
    PlugBalanced(zs, ts);
    BumpedFacts(cmp, ts, d, q);
    BumpedElems(cmp, ts, d, q);
    hide Balanced, Plug, Grown, Bumped, Counted, HeavyAfterInsert, InsertBalanced, OnPath, ZeroPath, Reaches, Elems;
    var dir := GoesRight(cmp, u, d);
    var v := Rebalanced(u, dir);
    if u.b < -1 || u.b > 1 {
      InsertBalancedFacts(u, dir);
      InsertBalancedSame(u, dir);
    }
    assert Balanced(v) && (zs.In? ==> Height(v) == Height(ts)) && Elems(v) == Elems(g);
    PlugBalanced(zs, v);
    if zs.Top? { PlugBalanced(zs, v); }
  }

  lemma RemovedFacts(cmp: Comparator, s: seq<Ptr>, s': seq<Ptr>, d: Ptr)
    requires Sorted(cmp, s) && Removed(cmp, s, s', d)
    ensures Sorted(cmp, s') && |s'| == |s| - 1 && !Absent(cmp, s, d)
  {
  }

  lemma HeightsDown(z: Ctx, t: Tree, dir: bool)
    requires t.Bin?
    ensures Height(Child(t, dir)) + 1 <= Height(t) && Depth(Down(z, t, dir)) == Depth(z) + 1
  {
  }

  lemma TopBalanced(z: Ctx, t: Tree, done: bool)
    requires CtxBalanced(z, Height(t) + (if done then 0 else 1)) && (z.Top? || done)
    ensures CtxBalanced(z, Height(t))
  {
  }

  lemma ShrunkElems(z: Ctx, t: Tree)
    requires z.In?
    ensures Whole(z.up, Shrunk(z, t)) == Whole(z, t) && Shrunk(z, t) == WithBalance(UpTree(z, t), z.b - Sign(z.dir))
    ensures Shrunk(z, t).Bin? && Shrunk(z, t).n == z.n
  {
    WholeUp(z, t);
    assert Elems(Shrunk(z, t)) == Elems(UpTree(z, t));
  }

  // The nodes on the way that always goes right.
  ghost function Spine(t: Tree): nat {
    if t.Leaf? then 0 else 1 + Spine(t.r)
  }

  lemma SpineShort(t: Tree)
    ensures Spine(t) <= |Elems(t)|
  {
  }

  lemma SpineTurn(t: Tree)
    requires t.Bin? && t.l.Bin?
    ensures Elems(Single(t, true)) == Elems(t) && Spine(Single(t, true)) == Spine(t) + 1
    ensures Single(t, true).Bin? && Single(t, true).n == t.l.n && Nodes(Single(t, true)) == Nodes(t)
  {
    SingleFacts(t, true);
  }

  lemma LeafEmpty()
    ensures Elems(Leaf) == [] && Nodes(Leaf) == {}
  {
  }

  lemma FirstElem(t: Tree)
    requires t.Bin? && t.l.Leaf?
    ensures Elems(t) == [t.d] + Elems(t.r) && Spine(t) == Spine(t.r) + 1 && Nodes(t.r) <= Nodes(t)
  {
  }

  lemma AtStart(cmp: Comparator, t: Tree, d: Ptr)
    ensures Whole(Top, t) == Elems(t) && StrictPlace(cmp, Top, d) && LowerPlace(cmp, Top, d)
  {
  }

  lemma FoundHere(cmp: Comparator, z: Ctx, t: Tree, d: Ptr)
    requires t.Bin? && cmp(t.d, d) == 0
    ensures t.d in Whole(z, t) && !Absent(cmp, Whole(z, t), d)
  {
    assert Whole(z, t)[|Before(z)| + |Elems(t.l)|] == t.d;
  }

  lemma InsertedLength(cmp: Comparator, s: seq<Ptr>, s': seq<Ptr>, d: Ptr)
    requires InsertedInto(cmp, s, s', d)
    ensures |s'| == |s| + 1
  {
  }

  lemma PlugDown(z: Ctx, t: Tree, dir: bool)
    requires t.Bin?
    ensures UpTree(Down(z, t, dir), Child(t, dir)) == t && Plug(Down(z, t, dir), Child(t, dir)) == Plug(z, t)
  {
  }
}
