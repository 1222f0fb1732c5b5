// avltree.c, the stateful traversal: a current node and the path that led to it.
module AvlTraversal {
  import opened Compare
  import opened AvlShape
  import opened AvlTheory
  import opened AvlTree

  // The first top entries of the path are exactly the ancestors of position z.
  ghost predicate Ancestors(z: Ctx, path: seq<Node?>, top: int) {
    if z.Top? then top == 0
    else 1 <= top <= |path| && path[top - 1] == z.n && Ancestors(z.up, path, top - 1)
  }

  lemma {:induction false} AncestorsFrame(z: Ctx, path: seq<Node?>, path': seq<Node?>, top: int)
    requires Ancestors(z, path, top) && top <= |path'|
    requires forall i :: 0 <= i < top && i < |path| ==> path'[i] == path[i]
    ensures Ancestors(z, path', top)
    decreases z
  {
    if z.In? {
      AncestorsFrame(z.up, path, path', top - 1);
    }
  }

  lemma {:induction false} AncestorsDepth(z: Ctx, path: seq<Node?>, top: int)
    requires Ancestors(z, path, top)
    ensures top == Depth(z) && top <= |path|
    decreases z
  {
    if z.In? {
      AncestorsDepth(z.up, path, top - 1);
    }
  }

  class Traversal {
    const tree: AvlTree
    const path: array<Node?>
    var it: Node?
    var top: int

    // The position of the current node in the tree.
    ghost var z: Ctx
    ghost var t: Tree

    // The path holds the nodes above the current one, so the tree may be one higher.
    ghost predicate Ready()
      reads this, path, tree, tree.nodes
    {
      path.Length == HEIGHT_LIMIT && tree.Valid() && tree.FitsPath(HEIGHT_LIMIT + 1)
    }

    ghost predicate Valid()
      reads this, path, tree, tree.nodes
    {
      && Ready()
      && (it != null ==> t.Bin? && t.n == it && OnTree(z, t))
    }

    // The path is the chain of ancestors of the place (c, u).
    ghost predicate OnTree(c: Ctx, u: Tree)
      reads this, path, tree, tree.nodes
    {
      tree.At(c, u) && Plug(c, u) == tree.tree && Ancestors(c, path[..], top)
    }

    // The index of the current item among all items, in order.
    ghost function Position(): nat
      requires t.Bin?
      reads this
    {
      |Before(z)| + |Elems(t.l)|
    }

    // jsw_avltnew
    constructor (tree: AvlTree)
      requires tree.Valid() && tree.FitsPath(65)
      ensures Valid() && this.tree == tree && it == null && fresh(path)
    {
      this.tree := tree;
      path := new Node?[HEIGHT_LIMIT];
      it := null;
      top := 0;
    }

    // it and top come to the last node in direction dir below the place (c, u).
    method Descend(dir: bool, ghost c: Ctx, ghost u: Tree)
      requires Ready() && it != null && u.Bin? && it == u.n && OnTree(c, u)
      modifies `it, `top, `z, `t, path
      ensures Valid() && it != null
      ensures Position() == if dir then |Before(c)| + |Elems(u)| - 1 else |Before(c)|
    {
      hide Focus, Balanced, Plug, AvlTree.Valid;
      z, t := c, u;
      tree.Reads(z, t);
      while it.link.At(dir) != null
        invariant it != null && t.Bin? && t.n == it && OnTree(z, t) && it.link == Links(Root(t.l), Root(t.r))
        invariant if dir then |Before(z)| + |Elems(t)| == |Before(c)| + |Elems(u)| else Before(z) == Before(c)
        invariant Ready()
        decreases t
      {
        GoDeeper(dir);
        tree.Reads(z, t);
      }
    }

    // One step down, the node passed going on the path.
    method GoDeeper(dir: bool)
      requires Ready()
      requires it != null && t.Bin? && t.n == it && OnTree(z, t) && it.link.At(dir) != null &&
               it.link == Links(Root(t.l), Root(t.r))
      modifies `it, `top, `z, `t, path
      ensures z == old(Down(z, t, dir)) && t == old(Child(t, dir)) && t.Bin? && it == t.n && OnTree(z, t)
    {
      hide Focus, Balanced;
      DepthHeight(z, t);
      HeightsDown(z, t, dir);
      AncestorsDepth(z, path[..], top);
      tree.GoTo(z, t, dir);
      PlugDown(z, t, dir);
      ghost var was := path[..];
      path[top] := it;
      top := top + 1;
      it := it.link.At(dir);
      AncestorsFrame(z, was, path[..], top - 1);
      z, t := Down(z, t, dir), Child(t, dir);
    }

    // The first step in traversal: handles min and max.
    method Start(dir: bool) returns (data: Ptr)
      requires Ready()
      modifies this, path
      ensures Valid()
      ensures tree.Contents() == [] ==> it == null && data == NULL
      ensures tree.Contents() != [] ==>
                && it != null && Position() == (if dir then |tree.Contents()| - 1 else 0)
                && Position() < |tree.Contents()| && data == tree.Contents()[Position()]
    {
      hide Focus, Balanced;
      it := tree.root;
      top := 0;
      tree.Reads(Top, tree.tree);
      if it != null {
        Descend(dir, Top, tree.tree);
      }
      data := Current();
    }

    // The item of the current node, NULL past the end.
    method Current() returns (data: Ptr)
      requires Valid()
      ensures it == null ==> data == NULL
      ensures it != null ==> Position() < |tree.Contents()| && data == tree.Contents()[Position()]
    {
      hide Focus, Balanced;
      if it == null {
        data := NULL;
      } else {
        tree.Reads(z, t);
        WholePlug(z, t);
        assert Whole(z, t)[Position()] == t.d;
        data := it.data;
      }
    }

    // Subsequent traversal steps: handles ascending and descending.
    method Move(dir: bool) returns (data: Ptr)
      requires Valid() && it != null
      modifies this, path
      ensures Valid()
      ensures var p := old(Position()) + (if dir then 1 else -1);
        if 0 <= p < |tree.Contents()| then it != null && Position() == p && data == tree.Contents()[p]
        else it == null && data == NULL
    {
      hide Focus, Balanced, AvlTree.Valid;
      tree.Reads(z, t);
      PositionFacts(z, t);
      WholePlug(z, t);
      if it.link.At(dir) != null {
        GoDeeper(dir);
        Descend(!dir, z, t);
      } else {
        Climb(dir);
      }
      data := Current();
    }

    // Move to the next branch: up past every node whose subtree in direction dir is done.
    method Climb(dir: bool)
      requires Valid() && it != null && Child(t, dir).Leaf?
      modifies `it, `top, `z, `t
      ensures Valid()
      ensures var p := old(Position()) + (if dir then 1 else -1);
        if 0 <= p < |tree.Contents()| then it != null && Position() == p else it == null
    {
      hide Focus, Balanced, AvlTree.Valid, OnTree;
      ghost var p := Position() + (if dir then 1 else -1);
      PositionFacts(z, t);
      while true
        invariant Valid() && it != null
        invariant p == if dir then |Before(z)| + |Elems(t)| else |Before(z)| - 1
        decreases z
      {
        TopIsTop();
        if top == 0 {
          AtTop(z, t);
          it := null;
          return;
        }
        var last := it;
        ghost var c := z;
        UpRange(z, t);
        UpOne();
        Turned(last, c, dir);
        WholePlug(z, t);
        if last != it.link.At(dir) {
          return;
        }
      }
    }

    lemma TopIsTop()
      requires Valid() && it != null
      ensures (top == 0 <==> z.Top?) && top >= 0 && Plug(z, t) == tree.tree
    {
      AncestorsDepth(z, path[..], top);
    }

    method UpOne()
      requires Valid() && it != null && top > 0 && z.In?
      modifies `it, `top, `z, `t
      ensures Valid() && it != null && z == old(z.up) && t == old(UpTree(z, t))
    {
      hide Focus, Balanced, AvlTree.Valid;
      top := top - 1;
      it := path[top];
      tree.Reads(z, t);
      tree.Up(z, t);
      z, t := z.up, UpTree(z, t);
    }

    // The node climbed from is the child in direction dir just when the path turned that way.
    lemma Turned(last: Node?, c: Ctx, dir: bool)
      requires Valid() && it != null && c.In? && c.n == it && z == c.up && last != null
      requires exists u: Tree :: u.Bin? && u.n == last && t == UpTree(c, u)
      ensures last == it.link.At(dir) <==> c.dir == dir
    {
      hide Focus, Balanced, AvlTree.Valid;
      tree.Reads(z, t);
    }
  }

  lemma PositionFacts(z: Ctx, t: Tree)
    requires t.Bin?
    ensures Child(t, true).Leaf? ==> |Before(z)| + |Elems(t)| == |Before(z)| + |Elems(t.l)| + 1
    ensures |Before(Down(z, t, true))| == |Before(z)| + |Elems(t.l)| + 1
    ensures Before(Down(z, t, false)) == Before(z)
  {
  }

  lemma AtTop(z: Ctx, t: Tree)
    requires z.Top?
    ensures Before(z) == [] && Plug(z, t) == t
  {
  }

  // Where a subtree's items begin and end, seen from one level up.
  lemma UpRange(z: Ctx, t: Tree)
    requires z.In?
    ensures var u := UpTree(z, t);
      && u.Bin?
      && (if z.dir then |Before(z.up)| + |Elems(u)| == |Before(z)| + |Elems(t)| &&
          |Before(z)| - 1 == |Before(z.up)| + |Elems(u.l)|
          else Before(z.up) == Before(z) && |Before(z.up)| + |Elems(u.l)| == |Before(z)| + |Elems(t)|)
  {
  }

  // How far a loop that stops at NULL comes in s: s up to its first NULL item, if any.
  ghost predicate UpToNull(s: seq<Ptr>, seen: seq<Ptr>) {
    seen <= s && NULL !in seen && (|seen| < |s| ==> s[|seen|] == NULL)
  }

  lemma AllSeen(s: seq<Ptr>, seen: seq<Ptr>)
    requires UpToNull(s, seen)
    ensures seen == s <==> NULL !in s
  {
    if |seen| < |s| {
      assert s[|seen|] in s;
    }
  }

  // From first to last until NULL: the items in order, all of them unless one is NULL.
  method Ascending(tree: AvlTree) returns (s: seq<Ptr>)
    requires tree.Valid() && tree.FitsPath(65)
    ensures UpToNull(tree.Contents(), s)
    ensures s == tree.Contents() <==> NULL !in tree.Contents()
  {
    hide AvlTree.Valid, Traversal.OnTree, Traversal.Position, AvlTree.FitsPath;
    var trav := new Traversal(tree);
    var data := trav.Start(false);
    s := [];
    while data != NULL
      invariant trav.Valid() && fresh(trav) && fresh(trav.path) && trav.tree == tree
      invariant trav.it == null ==> data == NULL && s == tree.Contents()
      invariant trav.it != null ==> trav.Position() == |s| < |tree.Contents()| && data == tree.Contents()[|s|]
      invariant |s| <= |tree.Contents()| && s == tree.Contents()[..|s|] && NULL !in s
      decreases |tree.Contents()| - |s| + (if data == NULL then 0 else 1)
    {
      s := s + [data];
      data := trav.Move(true);
    }
    AllSeen(tree.Contents(), s);
  }

  ghost function Reversed(s: seq<Ptr>): seq<Ptr> {
    seq(|s|, i requires 0 <= i < |s| => s[|s| - 1 - i])
  }

  // And from last to first.
  method Descending(tree: AvlTree) returns (s: seq<Ptr>)
    requires tree.Valid() && tree.FitsPath(65)
    ensures UpToNull(Reversed(tree.Contents()), s)
    ensures s == Reversed(tree.Contents()) <==> NULL !in tree.Contents()
  {
    hide AvlTree.Valid, Traversal.OnTree, Traversal.Position, AvlTree.FitsPath;
    var trav := new Traversal(tree);
    var data := trav.Start(true);
    s := [];
    ghost var items, back := tree.Contents(), Reversed(tree.Contents());
    while data != NULL
      invariant trav.Valid() && fresh(trav) && fresh(trav.path) && trav.tree == tree && tree.Contents() == items
      invariant trav.it == null ==> data == NULL && s == back
      invariant trav.it != null ==> |s| < |items| && trav.Position() == |items| - 1 - |s|
      invariant trav.it != null ==> data == items[trav.Position()]
      invariant |s| <= |items| && s == back[..|s|] && NULL !in s
      decreases |items| - |s| + (if data == NULL then 0 else 1)
    {
      s := s + [data];
      data := trav.Move(false);
    }
    AllSeen(back, s);
    ReversedHas(items, NULL);
  }

  lemma ReversedHas(s: seq<Ptr>, x: Ptr)
    ensures x in Reversed(s) <==> x in s
  {
    if i :| 0 <= i < |s| && s[i] == x {
      assert Reversed(s)[|s| - 1 - i] == x;
    }
  }
}
