// The shape of an AVL tree on the heap: nodes with two links and a balance
// factor, the tree they spell out, and what a pointer change does to that tree.
module AvlShape {
  import opened Compare

  // link[0] and link[1]; a direction is true for 1, the right.
  datatype Links = Links(zero: Node?, one: Node?) {
    function At(dir: bool): Node? {
      if dir then one else zero
    }

    function With(dir: bool, n: Node?): Links {
      if dir then Links(zero, n) else Links(n, one)
    }
  }

  class Node {
    var balance: int
    var data: Ptr
    var link: Links

    // new_node
    constructor (data: Ptr)
      ensures balance == 0 && this.data == data && link == Links(null, null)
    {
      balance := 0;
      this.data := data;
      link := Links(null, null);
    }
  }

  datatype Tree =
    | Leaf
    | Bin(l: Tree, n: Node, d: Ptr, b: int, r: Tree)

  // The rest of the tree around a position, up to the root: the position is the
  // child in direction dir of node n, and side is the other child.
  datatype Ctx =
    | Top
    | In(up: Ctx, dir: bool, n: Node, d: Ptr, b: int, side: Tree)

  // The fields of a node, as a value, and a snapshot of the heap.
  datatype Cell = Cell(balance: int, data: Ptr, link: Links)

  type Store = map<Node, Cell>

  ghost function Snapshot(s: set<Node>): Store
    reads s
  {
    map n | n in s :: Cell(n.balance, n.data, n.link)
  }

  ghost function Root(t: Tree): Node? {
    if t.Leaf? then null else t.n
  }

  ghost function Child(t: Tree, dir: bool): Tree
    requires t.Bin?
  {
    if dir then t.r else t.l
  }

  // The node n with child c in direction dir and child s in the other.
  ghost function Mk(dir: bool, c: Tree, n: Node, d: Ptr, b: int, s: Tree): Tree {
    if dir then Bin(s, n, d, b, c) else Bin(c, n, d, b, s)
  }

  ghost function Nodes(t: Tree): set<Node> {
    if t.Leaf? then {} else Nodes(t.l) + {t.n} + Nodes(t.r)
  }

  ghost function CtxNodes(z: Ctx): set<Node> {
    if z.Top? then {} else CtxNodes(z.up) + {z.n} + Nodes(z.side)
  }

  // The subtree one step up from position z, when z holds t.
  ghost function UpTree(z: Ctx, t: Tree): Tree
    requires z.In?
  {
    Mk(z.dir, t, z.n, z.d, z.b, z.side)
  }

  ghost function Plug(z: Ctx, t: Tree): Tree {
    if z.Top? then t else Plug(z.up, UpTree(z, t))
  }

  ghost function Down(z: Ctx, t: Tree, dir: bool): Ctx
    requires t.Bin?
  {
    In(z, dir, t.n, t.d, t.b, Child(t, !dir))
  }

  // No node occurs twice.
  ghost predicate Sep(t: Tree) {
    t.Bin? ==> Sep(t.l) && Sep(t.r) && t.n !in Nodes(t.l) && t.n !in Nodes(t.r) && Nodes(t.l) !! Nodes(t.r)
  }

  ghost predicate CtxSep(z: Ctx) {
    z.In? ==>
      && CtxSep(z.up) && Sep(z.side)
      && z.n !in CtxNodes(z.up) && z.n !in Nodes(z.side) && CtxNodes(z.up) !! Nodes(z.side)
  }

  ghost predicate Holds(m: Store, t: Tree) {
    t.Bin? ==> t.n in m && m[t.n] == Cell(t.b, t.d, Links(Root(t.l), Root(t.r))) && Holds(m, t.l) && Holds(m, t.r)
  }

  ghost function LinksOf(z: Ctx, x: Node?): Links
    requires z.In?
  {
    if z.dir then Links(Root(z.side), x) else Links(x, Root(z.side))
  }

  // The store holds everything around position z, which itself holds x.
  ghost predicate CtxHolds(m: Store, z: Ctx, x: Node?, root: Node?) {
    if z.Top? then x == root
    else
      z.n in m && m[z.n] == Cell(z.b, z.d, LinksOf(z, x)) && Holds(m, z.side) && CtxHolds(m, z.up, z.n, root)
  }

  // The store is exactly the tree Plug(z, t), looked at from position z.
  ghost predicate Focus(m: Store, root: Node?, z: Ctx, t: Tree) {
    && CtxSep(z) && Sep(t) && CtxNodes(z) !! Nodes(t)
    && m.Keys == CtxNodes(z) + Nodes(t)
    && CtxHolds(m, z, Root(t), root)
    && Holds(m, t)
  }

  // ---------------------------------------------------------------- frames

  lemma RootIn(t: Tree)
    ensures Root(t) != null ==> Root(t) in Nodes(t)
  {
  }

  lemma HoldsFrame(m: Store, m': Store, t: Tree)
    requires Holds(m, t)
    requires forall n | n in Nodes(t) :: n in m && n in m' && m'[n] == m[n]
    ensures Holds(m', t)
  {
  }

  lemma CtxHoldsFrame(m: Store, m': Store, z: Ctx, x: Node?, root: Node?)
    requires CtxHolds(m, z, x, root)
    requires forall n | n in CtxNodes(z) :: n in m && n in m' && m'[n] == m[n]
    ensures CtxHolds(m', z, x, root)
  {
    if z.In? {
      HoldsFrame(m, m', z.side);
      CtxHoldsFrame(m, m', z.up, z.n, root);
    }
  }

  // The link that leads to a position is redirected from x to y.
  lemma CtxHoldsRelink(m: Store, m': Store, z: Ctx, x: Node?, y: Node?, root: Node?, root': Node?)
    requires CtxHolds(m, z, x, root) && CtxSep(z)
    requires forall n | n in CtxNodes(z) && n != z.n :: n in m && n in m' && m'[n] == m[n]
    requires if z.Top? then root' == y else root' == root && z.n in m'
    requires z.In? ==> m'[z.n] == m[z.n].(link := m[z.n].link.With(z.dir, y))
    ensures CtxHolds(m', z, y, root')
  {
    if z.In? {
      HoldsFrame(m, m', z.side);
      CtxHoldsFrame(m, m', z.up, z.n, root);
    }
  }

  // The tree u takes the place of t, the link that leads there being redirected.
  lemma ReplaceStore(m: Store, m': Store, root: Node?, root': Node?, z: Ctx, t: Tree, u: Tree)
    requires Focus(m, root, z, t) && Sep(u) && Holds(m', u) && CtxNodes(z) !! Nodes(u)
    requires m'.Keys == CtxNodes(z) + Nodes(u)
    requires forall n | n in CtxNodes(z) && n != z.n :: m'[n] == m[n]
    requires if z.Top? then root' == Root(u) else root' == root
    requires z.In? ==> m'[z.n] == m[z.n].(link := m[z.n].link.With(z.dir, Root(u)))
    ensures Focus(m', root', z, u)
  {
    CtxHoldsRelink(m, m', z, Root(t), Root(u), root, root');
  }

  // The node at the focus stays there, with new fields.
  lemma RewriteStore(m: Store, m': Store, root: Node?, z: Ctx, t: Tree, d: Ptr, b: int)
    requires Focus(m, root, z, t) && t.Bin?
    requires m'.Keys == m.Keys
    requires forall n | n in m && n != t.n :: m'[n] == m[n]
    requires m'[t.n] == m[t.n].(balance := b, data := d)
    ensures Focus(m', root, z, Bin(t.l, t.n, d, b, t.r))
  {
    HoldsFrame(m, m', t.l);
    HoldsFrame(m, m', t.r);
    CtxHoldsFrame(m, m', z, t.n, root);
  }

  // ---------------------------------------------------------------- moving the focus

  lemma FocusUp(m: Store, root: Node?, z: Ctx, t: Tree)
    requires Focus(m, root, z, t) && z.In?
    ensures Focus(m, root, z.up, UpTree(z, t))
  {
  }

  lemma FocusDown(m: Store, root: Node?, z: Ctx, t: Tree, dir: bool)
    requires Focus(m, root, z, t) && t.Bin?
    ensures Focus(m, root, Down(z, t, dir), Child(t, dir))
  {
  }

  lemma {:induction false} FocusTop(m: Store, root: Node?, z: Ctx, t: Tree)
    requires Focus(m, root, z, t)
    ensures Focus(m, root, Top, Plug(z, t))
    decreases z
  {
    if z.In? {
      FocusUp(m, root, z, t);
      FocusTop(m, root, z.up, UpTree(z, t));
    }
  }

  lemma {:induction false} FocusInto(m: Store, root: Node?, z: Ctx, t: Tree)
    requires Focus(m, root, Top, Plug(z, t))
    ensures Focus(m, root, z, t)
    decreases z
  {
    if z.In? {
      FocusInto(m, root, z.up, UpTree(z, t));
      FocusDown(m, root, z.up, UpTree(z, t), z.dir);
    }
  }

  // What can be read off the heap at a position.
  lemma FocusReads(m: Store, root: Node?, z: Ctx, t: Tree)
    requires Focus(m, root, z, t)
    ensures z.Top? <==> Root(t) == root
    ensures z.In? ==> root != null && z.n in m && z.n != Root(t) && m[z.n] == Cell(z.b, z.d, LinksOf(z, Root(t)))
    ensures z.In? ==> (m[z.n].link.one == Root(t) && Root(t) != null ==> z.dir)
    ensures t.Bin? ==> t.n in m && m[t.n] == Cell(t.b, t.d, Links(Root(t.l), Root(t.r)))
    ensures t.Bin? && Root(t.l) != null ==> Root(t.l) in m && Root(t.l) != t.n && Root(t.l) != Root(t.r)
    ensures t.Bin? && Root(t.r) != null ==> Root(t.r) in m && Root(t.r) != t.n
  {
    RootIn(t);
    if t.Bin? {
      RootIn(t.l);
      RootIn(t.r);
    }
    if z.In? {
      RootIn(z.side);
      RootInCtx(m, root, z, Root(t));
    }
  }

  lemma {:induction false} RootInCtx(m: Store, root: Node?, z: Ctx, x: Node?)
    requires CtxHolds(m, z, x, root) && z.In?
    ensures root != null && root in CtxNodes(z)
    decreases z
  {
    if z.up.In? {
      RootInCtx(m, root, z.up, z.n);
    }
  }
}
