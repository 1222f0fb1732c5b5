// The shape of a red-black tree on the heap: nodes with parent links, the tree
// they spell out, and what a pointer change does to that tree.
module RbShape {
  import opened Compare

  datatype Color = Red | Black

  class Node {
    var k: Ptr
    var v: Ptr
    var p: Node?
    var l: Node?
    var r: Node?
    var c: Color

    // malloc: the fields start out arbitrary.
    constructor () { }
  }

  // The tree that a node pointer stands for. A Hollow node is the phantom leaf
  // of a deletion: still linked in, black and childless, but no longer counted.
  datatype Tree =
    | Leaf
    | Hollow(n: Node, k: Ptr, v: Ptr)
    | Bin(l: Tree, n: Node, k: Ptr, v: Ptr, c: Color, r: Tree)

  // The rest of the tree around a position, from that position up to the root.
  datatype Ctx =
    | Top
    | InLeft(up: Ctx, n: Node, k: Ptr, v: Ptr, c: Color, r: Tree)
    | InRight(l: Tree, n: Node, k: Ptr, v: Ptr, c: Color, up: Ctx)

  // The fields of a node, as a value, and a snapshot of the heap.
  datatype Cell = Cell(k: Ptr, v: Ptr, c: Color, l: Node?, r: Node?, p: Node?)

  type Store = map<Node, Cell>

  ghost function Snapshot(s: set<Node>): Store
    reads s
  {
    map n | n in s :: Cell(n.k, n.v, n.c, n.l, n.r, n.p)
  }

  ghost function Root(t: Tree): Node? {
    if t.Leaf? then null else t.n
  }

  ghost function Nodes(t: Tree): set<Node> {
    match t
    case Leaf => {}
    case Hollow(n, _, _) => {n}
    case Bin(l, n, _, _, _, r) => Nodes(l) + {n} + Nodes(r)
  }

  ghost function CtxNodes(z: Ctx): set<Node> {
    match z
    case Top => {}
    case InLeft(up, n, _, _, _, r) => CtxNodes(up) + {n} + Nodes(r)
    case InRight(l, n, _, _, _, up) => CtxNodes(up) + {n} + Nodes(l)
  }

  ghost function Hollows(t: Tree): set<Node> {
    match t
    case Leaf => {}
    case Hollow(n, _, _) => {n}
    case Bin(l, _, _, _, _, r) => Hollows(l) + Hollows(r)
  }

  ghost function Side(z: Ctx): Tree
    requires !z.Top?
  {
    if z.InLeft? then z.r else z.l
  }

  ghost function CtxHollows(z: Ctx): set<Node> {
    if z.Top? then {} else CtxHollows(z.up) + Hollows(Side(z))
  }

  ghost function ParentOf(z: Ctx): Node? {
    if z.Top? then null else z.n
  }

  ghost function Depth(z: Ctx): nat {
    if z.Top? then 0 else 1 + Depth(z.up)
  }

  // The subtree one step up from position z, when z holds t.
  ghost function UpTree(z: Ctx, t: Tree): Tree
    requires !z.Top?
  {
    if z.InLeft? then Bin(t, z.n, z.k, z.v, z.c, z.r) else Bin(z.l, z.n, z.k, z.v, z.c, t)
  }

  ghost function Plug(z: Ctx, t: Tree): Tree {
    if z.Top? then t else Plug(z.up, UpTree(z, t))
  }

  ghost function DownLeft(z: Ctx, t: Tree): Ctx
    requires t.Bin?
  {
    InLeft(z, t.n, t.k, t.v, t.c, t.r)
  }

  ghost function DownRight(z: Ctx, t: Tree): Ctx
    requires t.Bin?
  {
    InRight(t.l, t.n, t.k, t.v, t.c, z)
  }

  // No node occurs twice.
  ghost predicate Sep(t: Tree) {
    t.Bin? ==>
      Sep(t.l) && Sep(t.r) && t.n !in Nodes(t.l) && t.n !in Nodes(t.r) && Nodes(t.l) !! Nodes(t.r)
  }

  ghost predicate CtxSep(z: Ctx) {
    !z.Top? ==>
      && CtxSep(z.up) && Sep(Side(z))
      && z.n !in CtxNodes(z.up) && z.n !in Nodes(Side(z)) && CtxNodes(z.up) !! Nodes(Side(z))
  }

  // The store holds tree t under parent p: every field of every node, the
  // parent links included.
  ghost predicate Holds(m: Store, t: Tree, p: Node?) {
    match t
    case Leaf => true
    case Hollow(n, k, v) => n in m && m[n] == Cell(k, v, Black, null, null, p)
    case Bin(l, n, k, v, c, r) =>
      n in m && m[n] == Cell(k, v, c, Root(l), Root(r), p) && Holds(m, l, n) && Holds(m, r, n)
  }

  // The store holds everything around position z, which itself holds x.
  ghost predicate CtxHolds(m: Store, z: Ctx, x: Node?, root: Node?) {
    match z
    case Top => x == root
    case InLeft(up, n, k, v, c, r) =>
      n in m && m[n] == Cell(k, v, c, x, Root(r), ParentOf(up)) && Holds(m, r, n) && CtxHolds(m, up, n, root)
    case InRight(l, n, k, v, c, up) =>
      n in m && m[n] == Cell(k, v, c, Root(l), x, ParentOf(up)) && Holds(m, l, n) && CtxHolds(m, up, n, root)
  }

  // The store is exactly the tree Plug(z, t), looked at from position z.
  ghost predicate Focus(m: Store, root: Node?, z: Ctx, t: Tree) {
    && CtxSep(z) && Sep(t) && CtxNodes(z) !! Nodes(t)
    && m.Keys == CtxNodes(z) + Nodes(t)
    && CtxHolds(m, z, Root(t), root)
    && Holds(m, t, ParentOf(z))
  }

  // ---------------------------------------------------------------- frames

  lemma RootIn(t: Tree)
    ensures Root(t) != null ==> Root(t) in Nodes(t)
  {
  }

  lemma HoldsFrame(m: Store, m': Store, t: Tree, p: Node?)
    requires Holds(m, t, p)
    requires forall n | n in Nodes(t) :: n in m && n in m' && m'[n] == m[n]
    ensures Holds(m', t, p)
  {
  }

  lemma HoldsReparent(m: Store, m': Store, t: Tree, p: Node?, q: Node?)
    requires Holds(m, t, p) && Sep(t)
    requires forall n | n in Nodes(t) && n != Root(t) :: n in m && n in m' && m'[n] == m[n]
    requires !t.Leaf? ==> t.n in m' && m'[t.n] == m[t.n].(p := q)
    ensures Holds(m', t, q)
  {
    if t.Bin? {
      HoldsFrame(m, m', t.l, t.n);
      HoldsFrame(m, m', t.r, t.n);
    }
  }

  lemma CtxHoldsFrame(m: Store, m': Store, z: Ctx, x: Node?, root: Node?)
    requires CtxHolds(m, z, x, root)
    requires forall n | n in CtxNodes(z) :: n in m && n in m' && m'[n] == m[n]
    ensures CtxHolds(m', z, x, root)
  {
    if !z.Top? {
      HoldsFrame(m, m', Side(z), z.n);
      CtxHoldsFrame(m, m', z.up, z.n, root);
    }
  }

  // The link that leads to a position is redirected from x to y.
  lemma CtxHoldsRelink(m: Store, m': Store, z: Ctx, x: Node?, y: Node?, root: Node?, root': Node?)
    requires CtxHolds(m, z, x, root) && CtxSep(z)
    requires forall n | n in CtxNodes(z) && n != z.n :: n in m && n in m' && m'[n] == m[n]
    requires if z.Top? then root' == y else root' == root && z.n in m'
    requires z.InLeft? ==> m'[z.n] == m[z.n].(l := y)
    requires z.InRight? ==> m'[z.n] == m[z.n].(r := y)
    ensures CtxHolds(m', z, y, root')
  {
    if !z.Top? {
      HoldsFrame(m, m', Side(z), z.n);
      CtxHoldsFrame(m, m', z.up, z.n, root);
    }
  }

  // ---------------------------------------------------------------- moving the focus

  lemma FocusUp(m: Store, root: Node?, z: Ctx, t: Tree)
    requires Focus(m, root, z, t) && !z.Top?
    ensures Focus(m, root, z.up, UpTree(z, t))
  {
  }

  lemma FocusDown(m: Store, root: Node?, z: Ctx, t: Tree)
    requires Focus(m, root, z, t) && t.Bin?
    ensures Focus(m, root, DownLeft(z, t), t.l)
    ensures Focus(m, root, DownRight(z, t), t.r)
  {
  }

  // A black leaf may be looked at as a phantom.
  lemma FocusHollow(m: Store, root: Node?, z: Ctx, t: Tree)
    requires Focus(m, root, z, t) && t.Bin? && t.l == t.r == Leaf && t.c == Black
    ensures Focus(m, root, z, Hollow(t.n, t.k, t.v))
  {
  }

  lemma {:induction false} FocusTop(m: Store, root: Node?, z: Ctx, t: Tree)
    requires Focus(m, root, z, t)
    ensures Focus(m, root, Top, Plug(z, t))
    decreases z
  {
    if !z.Top? {
      FocusUp(m, root, z, t);
      FocusTop(m, root, z.up, UpTree(z, t));
    }
  }

  lemma {:induction false} FocusInto(m: Store, root: Node?, z: Ctx, t: Tree)
    requires Focus(m, root, Top, Plug(z, t))
    ensures Focus(m, root, z, t)
    decreases z
  {
    if !z.Top? {
      FocusInto(m, root, z.up, UpTree(z, t));
      FocusDown(m, root, z.up, UpTree(z, t));
    }
  }

  // What can be read off the heap at a position.
  lemma FocusReads(m: Store, root: Node?, z: Ctx, t: Tree)
    requires Focus(m, root, z, t)
    ensures z.Top? <==> Root(t) == root
    ensures !z.Top? ==> root in CtxNodes(z) && z.n in m && m[z.n].p == ParentOf(z.up) && m[z.n].c == z.c
    ensures !z.Top? && Root(Side(z)) != null ==>
            Root(Side(z)) in m && Root(Side(z)) != Root(t) && m[Root(Side(z))].c == ColorOf(Side(z))
    ensures !z.Top? ==> z.n != Root(t) && z.n != Root(Side(z))
    ensures z.InLeft? ==> m[z.n].l == Root(t) && m[z.n].r == Root(z.r)
    ensures z.InRight? ==> m[z.n].r == Root(t) && m[z.n].l == Root(z.l)
    ensures t.Bin? ==> t.n in m && m[t.n] == Cell(t.k, t.v, t.c, Root(t.l), Root(t.r), ParentOf(z))
    ensures t.Bin? && Root(t.l) != null ==> Root(t.l) in m && Root(t.l) != t.n && m[Root(t.l)].c == ColorOf(t.l)
    ensures t.Bin? && Root(t.r) != null ==> Root(t.r) in m && Root(t.r) != t.n && m[Root(t.r)].c == ColorOf(t.r)
    ensures t.Bin? && Root(t.l) != null ==> Root(t.l) != Root(t.r)
    ensures t.Bin? && !z.Top? ==> z.n != Root(t.l) && z.n != Root(t.r)
    ensures t.Hollow? ==> t.n in m && m[t.n] == Cell(t.k, t.v, Black, null, null, ParentOf(z))
  {
    RootIn(t);
    if t.Bin? {
      RootIn(t.l);
      RootIn(t.r);
      assert Holds(m, t.l, t.n) && Holds(m, t.r, t.n);
    }
    if !z.Top? {
      RootIn(Side(z));
      RootInCtx(m, root, z, Root(t));
    }
  }

  lemma {:induction false} RootInCtx(m: Store, root: Node?, z: Ctx, x: Node?)
    requires CtxHolds(m, z, x, root) && !z.Top?
    ensures root != null && root in CtxNodes(z)
    decreases z
  {
    if !z.up.Top? {
      RootInCtx(m, root, z.up, z.n);
    }
  }

  // ---------------------------------------------------------------- rotations

  ghost function RotL(t: Tree): Tree
    requires t.Bin? && t.r.Bin?
  {
    t.r.(l := t.(r := t.r.l))
  }

  ghost function RotR(t: Tree): Tree
    requires t.Bin? && t.l.Bin?
  {
    t.l.(r := t.(l := t.l.r))
  }

  lemma RotLSep(t: Tree)
    requires t.Bin? && t.r.Bin? && Sep(t)
    ensures Sep(RotL(t)) && Nodes(RotL(t)) == Nodes(t)
  {
  }

  lemma RotRSep(t: Tree)
    requires t.Bin? && t.l.Bin? && Sep(t)
    ensures Sep(RotR(t)) && Nodes(RotR(t)) == Nodes(t)
  {
  }

  // The nodes whose fields a left rotation at t reads or writes are distinct.
  lemma RotLCells(m: Store, root: Node?, z: Ctx, t: Tree)
    requires Focus(m, root, z, t) && t.Bin? && t.r.Bin?
    ensures var x, y, b, q := t.n, t.r.n, Root(t.r.l), ParentOf(z);
      && x in m && m[x].r == y && m[x].p == q && y in m && m[y].l == b
      && x != y && x != b && y != b && q != x && q != y
      && (b != null ==> b in m && q != b)
      && (q != null ==> q in m && (m[q].l == x <==> z.InLeft?))
  {
    RootIn(t.r.l);
    assert Sep(t.r) && Holds(m, t.r, t.n);
    if z.InRight? { RootIn(z.l); }
  }

  lemma RotRCells(m: Store, root: Node?, z: Ctx, t: Tree)
    requires Focus(m, root, z, t) && t.Bin? && t.l.Bin?
    ensures var x, y, b, q := t.n, t.l.n, Root(t.l.r), ParentOf(z);
      && x in m && m[x].l == y && m[x].p == q && y in m && m[y].r == b
      && x != y && x != b && y != b && q != x && q != y
      && (b != null ==> b in m && q != b)
      && (q != null ==> q in m && (m[q].r == x <==> z.InRight?))
  {
    RootIn(t.l.r);
    assert Sep(t.l) && Holds(m, t.l, t.n);
    if z.InLeft? { RootIn(z.r); }
  }

  // The six pointer writes of a left rotation turn t into RotL(t) in place.
  lemma RotLStore(m: Store, m': Store, root: Node?, root': Node?, z: Ctx, t: Tree)
    requires Focus(m, root, z, t) && t.Bin? && t.r.Bin?
    requires m'.Keys == m.Keys
    requires forall n | n in m && n != t.n && n != t.r.n && n != Root(t.r.l) && n != ParentOf(z) :: m'[n] == m[n]
    requires t.n in m' && m'[t.n] == m[t.n].(r := Root(t.r.l), p := t.r.n)
    requires t.r.n in m' && m'[t.r.n] == m[t.r.n].(l := t.n, p := ParentOf(z))
    requires !t.r.l.Leaf? ==> t.r.l.n in m' && m'[t.r.l.n] == m[t.r.l.n].(p := t.n)
    requires if z.Top? then root' == t.r.n else root' == root
    requires z.InLeft? ==> z.n in m' && m'[z.n] == m[z.n].(l := t.r.n)
    requires z.InRight? ==> z.n in m' && m'[z.n] == m[z.n].(r := t.r.n)
    ensures Focus(m', root', z, RotL(t))
  {
    var x, y := t, t.r;
    RotLSep(t);
    RootIn(y.l);
    assert Sep(y) && Holds(m, y, x.n);
    HoldsFrame(m, m', x.l, x.n);
    HoldsFrame(m, m', y.r, y.n);
    HoldsReparent(m, m', y.l, y.n, x.n);
    CtxHoldsRelink(m, m', z, x.n, y.n, root, root');
  }

  lemma RotRStore(m: Store, m': Store, root: Node?, root': Node?, z: Ctx, t: Tree)
    requires Focus(m, root, z, t) && t.Bin? && t.l.Bin?
    requires m'.Keys == m.Keys
    requires forall n | n in m && n != t.n && n != t.l.n && n != Root(t.l.r) && n != ParentOf(z) :: m'[n] == m[n]
    requires t.n in m' && m'[t.n] == m[t.n].(l := Root(t.l.r), p := t.l.n)
    requires t.l.n in m' && m'[t.l.n] == m[t.l.n].(r := t.n, p := ParentOf(z))
    requires !t.l.r.Leaf? ==> t.l.r.n in m' && m'[t.l.r.n] == m[t.l.r.n].(p := t.n)
    requires if z.Top? then root' == t.l.n else root' == root
    requires z.InLeft? ==> z.n in m' && m'[z.n] == m[z.n].(l := t.l.n)
    requires z.InRight? ==> z.n in m' && m'[z.n] == m[z.n].(r := t.l.n)
    ensures Focus(m', root', z, RotR(t))
  {
    var x, y := t, t.l;
    RotRSep(t);
    RootIn(y.r);
    assert Sep(y) && Holds(m, y, x.n);
    HoldsFrame(m, m', x.r, x.n);
    HoldsFrame(m, m', y.l, y.n);
    HoldsReparent(m, m', y.r, y.n, x.n);
    CtxHoldsRelink(m, m', z, x.n, y.n, root, root');
  }

  // ---------------------------------------------------------------- other writes

  // Writing the key and value of the node at the focus.
  lemma RewriteStore(m: Store, m': Store, root: Node?, z: Ctx, t: Tree, k: Ptr, v: Ptr)
    requires Focus(m, root, z, t) && t.Bin?
    requires m'.Keys == m.Keys
    requires forall n | n in m && n != t.n :: m'[n] == m[n]
    requires t.n in m' && m'[t.n] == m[t.n].(k := k, v := v)
    ensures Focus(m', root, z, Bin(t.l, t.n, k, v, t.c, t.r))
  {
    HoldsFrame(m, m', t.l, t.n);
    HoldsFrame(m, m', t.r, t.n);
    CtxHoldsFrame(m, m', z, t.n, root);
  }

  ghost function ColorOf(t: Tree): Color {
    if t.Bin? then t.c else Black
  }

  ghost function Painted(t: Tree, c: Color): Tree {
    if t.Bin? then t.(c := c) else t
  }

  // A node and its two children, with new colours.
  ghost function Recolored(t: Tree, c: Color, cl: Color, cr: Color): Tree
    requires t.Bin?
  {
    t.(c := c, l := Painted(t.l, cl), r := Painted(t.r, cr))
  }

  lemma HoldsPainted(m: Store, m': Store, t: Tree, p: Node?, c: Color)
    requires Holds(m, t, p) && Sep(t)
    requires forall n | n in Nodes(t) && n != Root(t) :: n in m && n in m' && m'[n] == m[n]
    requires !t.Leaf? ==> t.n in m' && m'[t.n] == m[t.n].(c := c)
    requires t.Hollow? ==> c == Black
    ensures Holds(m', Painted(t, c), p)
  {
    if t.Bin? {
      HoldsFrame(m, m', t.l, t.n);
      HoldsFrame(m, m', t.r, t.n);
    }
  }

  lemma RecoloredSep(t: Tree, c: Color, cl: Color, cr: Color)
    requires t.Bin? && Sep(t)
    ensures Sep(Recolored(t, c, cl, cr)) && Nodes(Recolored(t, c, cl, cr)) == Nodes(t)
  {
    assert Sep(Painted(t.l, cl)) && Nodes(Painted(t.l, cl)) == Nodes(t.l);
    assert Sep(Painted(t.r, cr)) && Nodes(Painted(t.r, cr)) == Nodes(t.r);
  }

  // Writing the colours of the node at the focus and of its children.
  lemma RecolorStore(m: Store, m': Store, root: Node?, z: Ctx, t: Tree, c: Color, cl: Color, cr: Color)
    requires Focus(m, root, z, t) && t.Bin?
    requires m'.Keys == m.Keys
    requires forall n | n in m && n != t.n && n != Root(t.l) && n != Root(t.r) :: m'[n] == m[n]
    requires t.n in m' && m'[t.n] == m[t.n].(c := c)
    requires !t.l.Leaf? ==> t.l.n in m' && m'[t.l.n] == m[t.l.n].(c := cl)
    requires !t.r.Leaf? ==> t.r.n in m' && m'[t.r.n] == m[t.r.n].(c := cr)
    requires t.l.Hollow? ==> cl == Black
    requires t.r.Hollow? ==> cr == Black
    ensures Focus(m', root, z, Recolored(t, c, cl, cr))
  {
    RootIn(t.l);
    RootIn(t.r);
    HoldsPainted(m, m', t.l, t.n, cl);
    HoldsPainted(m, m', t.r, t.n, cr);
    CtxHoldsFrame(m, m', z, t.n, root);
    RecoloredSep(t, c, cl, cr);
  }

  // Hanging a fresh node into an empty place.
  lemma AttachStore(m: Store, m': Store, root: Node?, root': Node?, z: Ctx, n: Node, k: Ptr, v: Ptr, c: Color)
    requires Focus(m, root, z, Leaf) && n !in m
    requires m'.Keys == m.Keys + {n}
    requires m'[n] == Cell(k, v, c, null, null, ParentOf(z))
    requires forall o | o in m && o != ParentOf(z) :: m'[o] == m[o]
    requires if z.Top? then root' == n else root' == root
    requires z.InLeft? ==> m'[z.n] == m[z.n].(l := n)
    requires z.InRight? ==> m'[z.n] == m[z.n].(r := n)
    ensures Focus(m', root', z, Bin(Leaf, n, k, v, c, Leaf))
  {
    CtxHoldsRelink(m, m', z, null, n, root, root');
  }

  // Cutting out the node at the focus, which has at most one child: the child
  // subtree b takes its place.
  lemma DetachStore(m: Store, m': Store, root: Node?, root': Node?, z: Ctx, t: Tree, b: Tree)
    requires Focus(m, root, z, t) && !t.Leaf?
    requires if t.Hollow? then b == Leaf else (t.l == Leaf && b == t.r) || (t.r == Leaf && b == t.l)
    requires m'.Keys == m.Keys - {t.n}
    requires forall o | o in m' && o != ParentOf(z) && o != Root(b) :: m'[o] == m[o]
    requires !b.Leaf? ==> b.n in m' && m'[b.n] == m[b.n].(p := ParentOf(z))
    requires if z.Top? then root' == Root(b) else root' == root
    requires z.InLeft? ==> z.n in m' && m'[z.n] == m[z.n].(l := Root(b))
    requires z.InRight? ==> z.n in m' && m'[z.n] == m[z.n].(r := Root(b))
    ensures Focus(m', root', z, b)
  {
    RootIn(b);
    CtxHoldsRelink(m, m', z, t.n, Root(b), root, root');
    if !b.Leaf? {
      HoldsReparent(m, m', b, t.n, ParentOf(z));
    }
  }
}
