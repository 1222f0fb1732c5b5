// What an AVL tree means (its items in order) and what its balance factors
// promise, as facts about tree values.
module AvlTheory {
  import opened Common
  import opened Compare
  import opened AvlShape

  // ---------------------------------------------------------------- contents

  ghost function Elems(t: Tree): seq<Ptr> {
    if t.Leaf? then [] else Elems(t.l) + [t.d] + Elems(t.r)
  }

  ghost function Before(z: Ctx): seq<Ptr> {
    if z.Top? then []
    else if z.dir then Before(z.up) + Elems(z.side) + [z.d]
    else Before(z.up)
  }

  ghost function After(z: Ctx): seq<Ptr> {
    if z.Top? then []
    else if z.dir then After(z.up)
    else [z.d] + Elems(z.side) + After(z.up)
  }

  // The items of the whole tree, seen from a position.
  ghost function Whole(z: Ctx, t: Tree): seq<Ptr> {
    Before(z) + Elems(t) + After(z)
  }

  lemma WholeUp(z: Ctx, t: Tree)
    requires z.In?
    ensures Whole(z.up, UpTree(z, t)) == Whole(z, t)
  {
  }

  lemma WholeDown(z: Ctx, t: Tree, dir: bool)
    requires t.Bin?
    ensures Whole(Down(z, t, dir), Child(t, dir)) == Whole(z, t)
  {
  }

  lemma {:induction false} WholePlug(z: Ctx, t: Tree)
    ensures Elems(Plug(z, t)) == Whole(z, t)
    decreases z
  {
    if z.In? {
      WholeUp(z, t);
      WholePlug(z.up, UpTree(z, t));
    }
  }

  // Items in order; items that compare equal may repeat.
  ghost predicate Sorted(cmp: Comparator, s: seq<Ptr>) {
    forall i, j :: 0 <= i < j < |s| ==> cmp(s[i], s[j]) <= 0
  }

  // Position i is where the items that are not less than d begin.
  ghost predicate LowerBound(cmp: Comparator, s: seq<Ptr>, d: Ptr, i: int) {
    && 0 <= i <= |s|
    && (forall j :: 0 <= j < i ==> cmp(s[j], d) < 0)
    && (forall j :: i <= j < |s| ==> cmp(s[j], d) >= 0)
  }

  // s' is s with d put in at its lower bound.
  ghost predicate InsertedInto(cmp: Comparator, s: seq<Ptr>, s': seq<Ptr>, d: Ptr) {
    exists i :: LowerBound(cmp, s, d, i) && s' == With(s, i, d)
  }

  ghost predicate Absent(cmp: Comparator, s: seq<Ptr>, d: Ptr) {
    forall i :: 0 <= i < |s| ==> cmp(s[i], d) != 0
  }

  ghost predicate FoundAt(cmp: Comparator, s: seq<Ptr>, d: Ptr, i: int) {
    0 <= i < |s| && cmp(s[i], d) == 0
  }

  // s' is s without one item that compares equal to d.
  ghost predicate Removed(cmp: Comparator, s: seq<Ptr>, s': seq<Ptr>, d: Ptr) {
    exists i :: FoundAt(cmp, s, d, i) && s' == Without(s, i)
  }

  // ---------------------------------------------------------------- search

  // Everything before the position is less than d, everything after it is not.
  ghost predicate LowerPlace(cmp: Comparator, z: Ctx, d: Ptr) {
    && (forall i :: 0 <= i < |Before(z)| ==> cmp(Before(z)[i], d) < 0)
    && (forall i :: 0 <= i < |After(z)| ==> cmp(After(z)[i], d) >= 0)
  }

  // Nothing outside the position compares equal to d.
  ghost predicate StrictPlace(cmp: Comparator, z: Ctx, d: Ptr) {
    && (forall i :: 0 <= i < |Before(z)| ==> cmp(Before(z)[i], d) < 0)
    && (forall i :: 0 <= i < |After(z)| ==> cmp(After(z)[i], d) > 0)
  }

  // Going down by the comparison at t keeps the place.
  lemma GoDown(cmp: Comparator, z: Ctx, t: Tree, d: Ptr)
    requires TotalPreorder(cmp) && t.Bin? && Sorted(cmp, Whole(z, t))
    ensures LowerPlace(cmp, z, d) ==> LowerPlace(cmp, Down(z, t, cmp(t.d, d) < 0), d)
    ensures StrictPlace(cmp, z, d) && cmp(t.d, d) != 0 ==> StrictPlace(cmp, Down(z, t, cmp(t.d, d) < 0), d)
  {
    var s, k := Whole(z, t), |Before(z)| + |Elems(t.l)|;
    BothSides(z, t);
    if cmp(t.d, d) < 0 {
      AllBelow(cmp, s, k, d);
    } else {
      AllAbove(cmp, s, k, d);
    }
    hide Before, After, Elems, Whole, Sorted;
  }

  lemma BothSides(z: Ctx, t: Tree)
    requires t.Bin?
    ensures var s, k := Whole(z, t), |Before(z)| + |Elems(t.l)|;
      && 0 <= k < |s| && s[k] == t.d
      && Before(Down(z, t, true)) == s[..k + 1] && After(Down(z, t, true)) == After(z)
      && Before(Down(z, t, false)) == Before(z) && After(Down(z, t, false)) == s[k..]
  {
    assert Before(Down(z, t, true)) == Before(z) + Elems(t.l) + [t.d];
    assert After(Down(z, t, false)) == [t.d] + Elems(t.r) + After(z);
    assert After(Down(z, t, true)) == After(z) && Before(Down(z, t, false)) == Before(z);
    assert Elems(t) == Elems(t.l) + [t.d] + Elems(t.r);
    hide Elems, Before, After;
    assert Whole(z, t) == Before(z) + (Elems(t.l) + [t.d] + Elems(t.r)) + After(z);
    hide Whole;
    SplitAt(Before(z), Elems(t.l), t.d, Elems(t.r), After(z));
  }

  lemma AllBelow(cmp: Comparator, s: seq<Ptr>, k: int, d: Ptr)
    requires TotalPreorder(cmp) && Sorted(cmp, s) && 0 <= k < |s| && cmp(s[k], d) < 0
    ensures forall i :: 0 <= i <= k ==> cmp(s[i], d) < 0
  {
    forall i | 0 <= i < k
      ensures cmp(s[i], d) < 0
    {
      LessTrans(cmp, s[i], s[k], d);
    }
  }

  lemma AllAbove(cmp: Comparator, s: seq<Ptr>, k: int, d: Ptr)
    requires TotalPreorder(cmp) && Sorted(cmp, s) && 0 <= k < |s| && cmp(s[k], d) >= 0
    ensures forall i :: k <= i < |s| ==> cmp(s[i], d) >= 0 && (cmp(s[k], d) > 0 ==> cmp(s[i], d) > 0)
  {
    Flip(cmp, d, s[k]);
    forall i | k < i < |s|
      ensures cmp(s[i], d) >= 0 && (cmp(s[k], d) > 0 ==> cmp(s[i], d) > 0)
    {
      LessTrans(cmp, d, s[k], s[i]);
      Flip(cmp, d, s[i]);
    }
  }

  lemma NothingThere(cmp: Comparator, z: Ctx, d: Ptr)
    requires StrictPlace(cmp, z, d)
    ensures Absent(cmp, Whole(z, Leaf), d)
  {
  }

  // An item put in at its place leaves the items sorted.
  lemma InsertKeepsSorted(cmp: Comparator, s: seq<Ptr>, s': seq<Ptr>, d: Ptr)
    requires TotalPreorder(cmp) && Sorted(cmp, s) && InsertedInto(cmp, s, s', d)
    ensures Sorted(cmp, s')
  {
    var k :| LowerBound(cmp, s, d, k) && s' == With(s, k, d);
    forall i, j | 0 <= i < j < |s'|
      ensures cmp(s'[i], s'[j]) <= 0
    {
      if i == k {
        Flip(cmp, d, s[j - 1]);
      }
    }
  }

  // ---------------------------------------------------------------- balance

  function Max(a: int, b: int): int {
    if a >= b then a else b
  }

  ghost function Height(t: Tree): nat {
    if t.Leaf? then 0 else 1 + Max(Height(t.l), Height(t.r))
  }

  // Every stored balance is the true height difference, and none exceeds one.
  ghost predicate Balanced(t: Tree) {
    t.Bin? ==> Balanced(t.l) && Balanced(t.r) && t.b == Height(t.r) - Height(t.l) && -1 <= t.b <= 1
  }

  // The balance of a node whose child in direction dir has height c, the other s.
  function Lean(dir: bool, c: int, s: int): int {
    if dir then c - s else s - c
  }

  // What the surroundings of a position need: a balanced tree of height h there.
  ghost predicate CtxBalanced(z: Ctx, h: int) {
    z.In? ==>
      && Balanced(z.side) && z.b == Lean(z.dir, h, Height(z.side)) && -1 <= z.b <= 1
      && CtxBalanced(z.up, 1 + Max(h, Height(z.side)))
  }

  lemma {:induction false} PlugBalanced(z: Ctx, t: Tree)
    ensures Balanced(Plug(z, t)) <==> CtxBalanced(z, Height(t)) && Balanced(t)
    decreases z
  {
    if z.In? {
      MkHeights(z.dir, t, z.n, z.d, z.b, z.side);
      PlugBalanced(z.up, UpTree(z, t));
      hide Height, Balanced, Mk;
    }
  }

  // Off balance by at most two, and nowhere but at the root.
  ghost predicate Tilted(t: Tree) {
    t.Bin? && Balanced(t.l) && Balanced(t.r) && t.b == Height(t.r) - Height(t.l) && -2 <= t.b <= 2
  }

  function Sign(dir: bool): int {
    if dir then 1 else -1
  }

  // ---------------------------------------------------------------- rotations

  // A tree told by its children in direction dir and the other: its items.
  lemma ByChildren(t: Tree, dir: bool)
    requires t.Bin?
    ensures var c, s := Child(t, dir), Child(t, !dir);
      && Elems(t) == (if dir then Elems(s) + [t.d] + Elems(c) else Elems(c) + [t.d] + Elems(s))
      && Nodes(t) == Nodes(c) + {t.n} + Nodes(s)
      && (Sep(t) <==> Sep(c) && Sep(s) && t.n !in Nodes(c) && t.n !in Nodes(s) && Nodes(c) !! Nodes(s))
  {
  }

  // And its height.
  lemma Heights(t: Tree, dir: bool)
    requires t.Bin?
    ensures var c, s := Child(t, dir), Child(t, !dir);
      && Height(t) == 1 + Max(Height(c), Height(s))
      && (Balanced(t) <==> Balanced(c) && Balanced(s) && t.b == Lean(dir, Height(c), Height(s)) && -1 <= t.b <= 1)
  {
  }

  lemma MkParts(dir: bool, c: Tree, n: Node, d: Ptr, b: int, s: Tree)
    ensures var t := Mk(dir, c, n, d, b, s);
      && t.Bin? && Child(t, dir) == c && Child(t, !dir) == s && t.n == n && t.d == d && t.b == b
      && Elems(t) == (if dir then Elems(s) + [d] + Elems(c) else Elems(c) + [d] + Elems(s))
      && Nodes(t) == Nodes(c) + {n} + Nodes(s)
      && (Sep(t) <==> Sep(c) && Sep(s) && n !in Nodes(c) && n !in Nodes(s) && Nodes(c) !! Nodes(s))
  {
    ByChildren(Mk(dir, c, n, d, b, s), dir);
  }

  lemma MkHeights(dir: bool, c: Tree, n: Node, d: Ptr, b: int, s: Tree)
    ensures var t := Mk(dir, c, n, d, b, s);
      && t.Bin? && Child(t, dir) == c && Child(t, !dir) == s && t.n == n && t.d == d && t.b == b
      && Height(t) == 1 + Max(Height(c), Height(s))
      && (Balanced(t) <==> Balanced(c) && Balanced(s) && b == Lean(dir, Height(c), Height(s)) && -1 <= b <= 1)
  {
    Heights(Mk(dir, c, n, d, b, s), dir);
  }

  // The child in direction !dir comes up.
  ghost function Single(t: Tree, dir: bool): Tree
    requires t.Bin? && Child(t, !dir).Bin?
  {
    var s := Child(t, !dir);
    Mk(dir, Mk(!dir, Child(s, dir), t.n, t.d, t.b, Child(t, dir)), s.n, s.d, s.b, Child(s, !dir))
  }

  // The grandchild inside comes up.
  ghost function Double(t: Tree, dir: bool): Tree
    requires t.Bin? && Child(t, !dir).Bin? && Child(Child(t, !dir), dir).Bin?
  {
    var s := Child(t, !dir);
    var g := Child(s, dir);
    Mk(dir, Mk(!dir, Child(g, dir), t.n, t.d, t.b, Child(t, dir)),
       g.n, g.d, g.b, Mk(dir, Child(g, !dir), s.n, s.d, s.b, Child(s, !dir)))
  }

  ghost function WithBalance(t: Tree, b: int): Tree
    requires t.Bin?
  {
    Bin(t.l, t.n, t.d, b, t.r)
  }

  // New balances at t and at its child in direction dir.
  ghost function WithTwo(t: Tree, dir: bool, b: int, bc: int): Tree
    requires t.Bin? && Child(t, dir).Bin?
  {
    Mk(dir, WithBalance(Child(t, dir), bc), t.n, t.d, b, Child(t, !dir))
  }

  ghost function WithThree(t: Tree, dir: bool, b: int, bc: int, bg: int): Tree
    requires t.Bin? && Child(t, dir).Bin? && Child(Child(t, dir), !dir).Bin?
  {
    var s := Child(t, dir);
    Mk(dir, Mk(!dir, WithBalance(Child(s, !dir), bg), s.n, s.d, bc, Child(s, dir)), t.n, t.d, b, Child(t, !dir))
  }

  // jsw_adjust_balance
  ghost function Adjusted(t: Tree, dir: bool, bal: int): Tree
    requires t.Bin? && Child(t, dir).Bin? && Child(Child(t, dir), !dir).Bin?
  {
    var g := Child(Child(t, dir), !dir);
    if g.b == 0 then WithThree(t, dir, 0, 0, 0)
    else if g.b == bal then WithThree(t, dir, -bal, 0, 0)
    else WithThree(t, dir, 0, bal, 0)
  }

  lemma Assoc(a: seq<Ptr>, x: Ptr, b: seq<Ptr>, y: Ptr, c: seq<Ptr>)
    ensures (a + [x] + b) + [y] + c == a + [x] + (b + [y] + c)
  {
  }

  lemma SingleFacts(t: Tree, dir: bool)
    requires t.Bin? && Child(t, !dir).Bin?
    ensures Elems(Single(t, dir)) == Elems(t) && Nodes(Single(t, dir)) == Nodes(t)
    ensures Sep(t) ==> Sep(Single(t, dir))
  {
    var s := Child(t, !dir);
    ByChildren(t, dir);
    ByChildren(s, dir);
    MkParts(!dir, Child(s, dir), t.n, t.d, t.b, Child(t, dir));
    MkParts(dir, Mk(!dir, Child(s, dir), t.n, t.d, t.b, Child(t, dir)), s.n, s.d, s.b, Child(s, !dir));
    hide Mk, Child, Elems, Nodes, Sep, Height, Balanced;
    if dir {
      Assoc(Elems(Child(s, !dir)), s.d, Elems(Child(s, dir)), t.d, Elems(Child(t, dir)));
    } else {
      Assoc(Elems(Child(t, dir)), t.d, Elems(Child(s, dir)), s.d, Elems(Child(s, !dir)));
    }
  }

  // A double rotation is two single ones.
  lemma DoubleIsTwice(t: Tree, dir: bool)
    requires t.Bin? && Child(t, !dir).Bin? && Child(Child(t, !dir), dir).Bin?
    ensures var w := Mk(!dir, Single(Child(t, !dir), !dir), t.n, t.d, t.b, Child(t, dir));
      w.Bin? && Child(w, !dir).Bin? && Double(t, dir) == Single(w, dir)
  {
  }

  lemma DoubleFacts(t: Tree, dir: bool)
    requires t.Bin? && Child(t, !dir).Bin? && Child(Child(t, !dir), dir).Bin?
    ensures Elems(Double(t, dir)) == Elems(t) && Nodes(Double(t, dir)) == Nodes(t)
    ensures Sep(t) ==> Sep(Double(t, dir))
  {
    var s := Child(t, !dir);
    var w := Mk(!dir, Single(s, !dir), t.n, t.d, t.b, Child(t, dir));
    DoubleIsTwice(t, dir);
    SingleFacts(s, !dir);
    SingleFacts(w, dir);
    ByChildren(t, dir);
    MkParts(!dir, Single(s, !dir), t.n, t.d, t.b, Child(t, dir));
    hide Mk, Child, Elems, Nodes, Sep, Height, Balanced, Single, Double;
  }

  lemma WithBalanceFacts(t: Tree, b: int)
    requires t.Bin?
    ensures var u := WithBalance(t, b);
      && Elems(u) == Elems(t) && Nodes(u) == Nodes(t) && Height(u) == Height(t) && (Sep(u) <==> Sep(t))
      && u.Bin? && u.n == t.n && forall dir :: Child(u, dir) == Child(t, dir)
  {
  }

  lemma WithTwoFacts(t: Tree, dir: bool, b: int, bc: int)
    requires t.Bin? && Child(t, dir).Bin?
    ensures var u := WithTwo(t, dir, b, bc);
      && Elems(u) == Elems(t) && Nodes(u) == Nodes(t) && (Sep(t) ==> Sep(u))
      && u.Bin? && Child(u, !dir) == Child(t, !dir) && Child(u, dir) == WithBalance(Child(t, dir), bc)
  {
    var s := Child(t, dir);
    WithBalanceFacts(s, bc);
    ByChildren(t, dir);
    MkParts(dir, WithBalance(s, bc), t.n, t.d, b, Child(t, !dir));
    hide Mk, Child, Elems, Nodes, Sep, Height, Balanced, WithBalance;
  }

  lemma WithThreeFacts(t: Tree, dir: bool, b: int, bc: int, bg: int)
    requires t.Bin? && Child(t, dir).Bin? && Child(Child(t, dir), !dir).Bin?
    ensures var u := WithThree(t, dir, b, bc, bg);
      && Elems(u) == Elems(t) && Nodes(u) == Nodes(t) && (Sep(t) ==> Sep(u))
      && u.Bin? && Child(u, !dir) == Child(t, !dir)
      && Child(u, dir) == Mk(!dir, WithBalance(Child(Child(t, dir), !dir), bg), Child(t, dir).n,
                                Child(t, dir).d, bc, Child(Child(t, dir), dir))
  {
    var s := Child(t, dir);
    var g := Child(s, !dir);
    WithBalanceFacts(g, bg);
    ByChildren(t, dir);
    ByChildren(s, !dir);
    MkParts(!dir, WithBalance(g, bg), s.n, s.d, bc, Child(s, dir));
    MkParts(dir, Mk(!dir, WithBalance(g, bg), s.n, s.d, bc, Child(s, dir)), t.n, t.d, b, Child(t, !dir));
    hide Mk, Child, Elems, Nodes, Sep, Height, Balanced, WithBalance;
  }

  // What jsw_insert_balance finds: the child in direction dir has become too high.
  ghost predicate HeavyAfterInsert(t: Tree, dir: bool) {
    Tilted(t) && t.b == 2 * Sign(dir) && Child(t, dir).Bin? && Child(t, dir).b != 0
  }

  ghost function InsertBalanced(t: Tree, dir: bool): Tree
    requires HeavyAfterInsert(t, dir)
  {
    if Child(t, dir).b == Sign(dir) then Single(WithTwo(t, dir, 0, 0), !dir)
    else
      InnerExists(t, dir);
      Double(Adjusted(t, dir, Sign(dir)), !dir)
  }

  lemma InnerExists(t: Tree, dir: bool)
    requires t.Bin? && Child(t, dir).Bin? && Balanced(Child(t, dir)) && Child(t, dir).b == -Sign(dir)
    ensures Child(Child(t, dir), !dir).Bin?
  {
  }

  // Turning the higher child up, when it leans outward or not at all.
  lemma SingleBalances(t: Tree, dir: bool, b: int, bc: int)
    requires Tilted(t) && Child(t, dir).Bin? && t.b == 2 * Sign(dir)
    requires (Child(t, dir).b == Sign(dir) && b == bc == 0) ||
             (Child(t, dir).b == 0 && b == Sign(dir) && bc == -Sign(dir))
    ensures WithTwo(t, dir, b, bc).Bin? && Child(WithTwo(t, dir, b, bc), dir).Bin?
    ensures var u := Single(WithTwo(t, dir, b, bc), !dir);
      Balanced(u) && Height(u) == Height(t) - (if Child(t, dir).b == 0 then 0 else 1)
  {
    var s := Child(t, dir);
    assert t.b == Lean(dir, Height(s), Height(Child(t, !dir))) && Balanced(s) && Balanced(Child(t, !dir));
    Heights(t, dir);
    Heights(s, dir);
    WithTwoFacts(t, dir, b, bc);
    WithBalanceFacts(s, bc);
    MkHeights(dir, Child(s, !dir), t.n, t.d, b, Child(t, !dir));
    MkHeights(!dir, Mk(dir, Child(s, !dir), t.n, t.d, b, Child(t, !dir)), s.n, s.d, bc, Child(s, dir));
    SingleShape(t, dir, b, bc);
    hide Mk, Child, Elems, Nodes, Sep, Height, Balanced, WithBalance, Single, WithTwo;
  }

  lemma SingleShape(t: Tree, dir: bool, b: int, bc: int)
    requires t.Bin? && Child(t, dir).Bin?
    ensures var s := Child(t, dir);
      && WithTwo(t, dir, b, bc).Bin? && Child(WithTwo(t, dir, b, bc), dir).Bin?
      && Single(WithTwo(t, dir, b, bc), !dir) ==
           Mk(!dir, Mk(dir, Child(s, !dir), t.n, t.d, b, Child(t, !dir)), s.n, s.d, bc, Child(s, dir))
  {
  }

  lemma DoubleShape(t: Tree, dir: bool, b: int, bc: int, bg: int)
    requires t.Bin? && Child(t, dir).Bin? && Child(Child(t, dir), !dir).Bin?
    ensures var s := Child(t, dir);
      var g := Child(s, !dir);
      var w := WithThree(t, dir, b, bc, bg);
      && w.Bin? && Child(w, dir).Bin? && Child(Child(w, dir), !dir).Bin?
      && Double(w, !dir) ==
           Mk(!dir, Mk(dir, Child(g, !dir), t.n, t.d, b, Child(t, !dir)),
              g.n, g.d, bg, Mk(!dir, Child(g, dir), s.n, s.d, bc, Child(s, dir)))
  {
  }

  // Turning the inner grandchild up, when the higher child leans inward.
  lemma DoubleBalances(t: Tree, dir: bool)
    requires Tilted(t) && Child(t, dir).Bin? && t.b == 2 * Sign(dir) && Child(t, dir).b == -Sign(dir)
    ensures Child(Child(t, dir), !dir).Bin?
    ensures var u := Double(Adjusted(t, dir, Sign(dir)), !dir); Balanced(u) && Height(u) == Height(t) - 1
  {
    InnerExists(t, dir);
    var s := Child(t, dir);
    var g := Child(s, !dir);
    assert t.b == Lean(dir, Height(s), Height(Child(t, !dir))) && Balanced(s) && Balanced(Child(t, !dir));
    var b := if g.b == Sign(dir) then -Sign(dir) else 0;
    var bc := if g.b == 0 || g.b == Sign(dir) then 0 else Sign(dir);
    assert Adjusted(t, dir, Sign(dir)) == WithThree(t, dir, b, bc, 0);
    hide Adjusted, Mk, Child, Height, Balanced, WithThree, Double, Max, Lean, Tilted;
    Heights(t, dir);
    Heights(s, dir);
    Heights(g, dir);
    DoubleShape(t, dir, b, bc, 0);
    var x := Mk(dir, Child(g, !dir), t.n, t.d, b, Child(t, !dir));
    var y := Mk(!dir, Child(g, dir), s.n, s.d, bc, Child(s, dir));
    MkHeights(dir, Child(g, !dir), t.n, t.d, b, Child(t, !dir));
    MkHeights(!dir, Child(g, dir), s.n, s.d, bc, Child(s, dir));
    MkHeights(!dir, x, g.n, g.d, 0, y);
    DoubleHeights(dir, g.b, Height(Child(t, !dir)), Height(Child(s, dir)), Height(g),
                  Height(Child(g, !dir)), Height(Child(g, dir)));
  }

  // The arithmetic: t's other child has height o, s's outer child c, and g's children a and e.
  lemma DoubleHeights(dir: bool, gb: int, o: int, c: int, h: int, a: int, e: int)
    requires h == 1 + Max(a, e) && gb == Lean(dir, e, a) && -1 <= gb <= 1
    requires -Sign(dir) == Lean(dir, c, h) && 2 * Sign(dir) == Lean(dir, 1 + Max(c, h), o)
    ensures var b := if gb == Sign(dir) then -Sign(dir) else 0;
      var bc := if gb == 0 || gb == Sign(dir) then 0 else Sign(dir);
      && b == Lean(dir, a, o) && bc == Lean(!dir, e, c) && -1 <= b <= 1 && -1 <= bc <= 1
      && 0 == Lean(!dir, 1 + Max(a, o), 1 + Max(e, c))
      && 1 + Max(1 + Max(a, o), 1 + Max(e, c)) == Max(1 + Max(c, h), o)
  {
  }

  // One single or double rotation restores the balances, and the height from
  // before the insertion.
  lemma InsertBalancedFacts(t: Tree, dir: bool)
    requires HeavyAfterInsert(t, dir)
    ensures Balanced(InsertBalanced(t, dir)) && Height(InsertBalanced(t, dir)) == Height(t) - 1
  {
    if Child(t, dir).b == Sign(dir) {
      SingleBalances(t, dir, 0, 0);
    } else {
      DoubleBalances(t, dir);
    }
    hide Height, Balanced, Single, Double, WithTwo, WithThree;
  }

  // What jsw_remove_balance finds: the child in direction !dir is too high.
  ghost predicate HeavyAfterRemove(t: Tree, dir: bool) {
    Tilted(t) && t.b == -2 * Sign(dir) && Child(t, !dir).Bin?
  }

  ghost function RemoveBalanced(t: Tree, dir: bool): Tree
    requires HeavyAfterRemove(t, dir)
  {
    var s := Child(t, !dir);
    if s.b == -Sign(dir) then Single(WithTwo(t, !dir, 0, 0), dir)
    else if s.b == Sign(dir) then
      InnerExists(t, !dir);
      Double(Adjusted(t, !dir, -Sign(dir)), dir)
    else Single(WithTwo(t, !dir, -Sign(dir), Sign(dir)), dir)
  }

  // A rotation restores the balances; the height goes back to what it was
  // exactly when the sibling leant neither way.
  lemma RemoveBalancedFacts(t: Tree, dir: bool)
    requires HeavyAfterRemove(t, dir)
    ensures Balanced(RemoveBalanced(t, dir))
    ensures Height(RemoveBalanced(t, dir)) == Height(t) - (if Child(t, !dir).b == 0 then 0 else 1)
  {
    var s := Child(t, !dir);
    assert -1 <= s.b <= 1;
    if s.b == -Sign(dir) {
      SingleBalances(t, !dir, 0, 0);
    } else if s.b == Sign(dir) {
      DoubleBalances(t, !dir);
    } else {
      SingleBalances(t, !dir, -Sign(dir), Sign(dir));
    }
    hide Height, Balanced, Single, Double, WithTwo, WithThree;
  }

  lemma AdjustedFacts(t: Tree, dir: bool, bal: int)
    requires t.Bin? && Child(t, dir).Bin? && Child(Child(t, dir), !dir).Bin?
    ensures Elems(Adjusted(t, dir, bal)) == Elems(t) && Nodes(Adjusted(t, dir, bal)) == Nodes(t)
    ensures Sep(t) ==> Sep(Adjusted(t, dir, bal))
  {
    WithThreeFacts(t, dir, 0, 0, 0);
    WithThreeFacts(t, dir, -bal, 0, 0);
    WithThreeFacts(t, dir, 0, bal, 0);
    hide WithThree, Elems, Nodes, Sep;
  }

  // Rebalancing moves no item.
  lemma InsertBalancedSame(t: Tree, dir: bool)
    requires HeavyAfterInsert(t, dir)
    ensures Elems(InsertBalanced(t, dir)) == Elems(t) && Nodes(InsertBalanced(t, dir)) == Nodes(t)
    ensures Sep(t) ==> Sep(InsertBalanced(t, dir))
  {
    if Child(t, dir).b == Sign(dir) {
      WithTwoFacts(t, dir, 0, 0);
      SingleFacts(WithTwo(t, dir, 0, 0), !dir);
    } else {
      InnerExists(t, dir);
      AdjustedFacts(t, dir, Sign(dir));
      DoubleFacts(Adjusted(t, dir, Sign(dir)), !dir);
    }
    hide Elems, Nodes, Sep, Single, Double, WithThree, WithTwo, Balanced, Height;
  }

  lemma RemoveBalancedSame(t: Tree, dir: bool)
    requires HeavyAfterRemove(t, dir)
    ensures Elems(RemoveBalanced(t, dir)) == Elems(t) && Nodes(RemoveBalanced(t, dir)) == Nodes(t)
    ensures Sep(t) ==> Sep(RemoveBalanced(t, dir))
  {
    var s := Child(t, !dir);
    if s.b == -Sign(dir) {
      WithTwoFacts(t, !dir, 0, 0);
      SingleFacts(WithTwo(t, !dir, 0, 0), dir);
    } else if s.b == Sign(dir) {
      InnerExists(t, !dir);
      AdjustedFacts(t, !dir, -Sign(dir));
      DoubleFacts(Adjusted(t, !dir, -Sign(dir)), dir);
    } else {
      WithTwoFacts(t, !dir, -Sign(dir), Sign(dir));
      SingleFacts(WithTwo(t, !dir, -Sign(dir), Sign(dir)), dir);
    }
    hide Elems, Nodes, Sep, Single, Double, WithThree, WithTwo, Balanced, Height;
  }

  // ---------------------------------------------------------------- insertion

  // Whether the search for d goes right at t.
  ghost predicate GoesRight(cmp: Comparator, t: Tree, d: Ptr)
    requires t.Bin?
  {
    cmp(t.d, d) < 0
  }

  // t with a new node n hung in at the end of the search for d.
  ghost function Grown(cmp: Comparator, t: Tree, d: Ptr, n: Node): Tree {
    if t.Leaf? then Bin(Leaf, n, d, 0, Leaf)
    else
      var dir := GoesRight(cmp, t, d);
      Mk(dir, Grown(cmp, Child(t, dir), d, n), t.n, t.d, t.b, Child(t, !dir))
  }

  // The search for d comes to node q.
  ghost predicate Reaches(cmp: Comparator, t: Tree, d: Ptr, q: Node) {
    t.Bin? && (t.n == q || Reaches(cmp, Child(t, GoesRight(cmp, t, d)), d, q))
  }

  // t with the balances above node q moved one towards it.
  ghost function Counted(cmp: Comparator, t: Tree, d: Ptr, q: Node): Tree {
    if t.Leaf? || t.n == q then t
    else
      var dir := GoesRight(cmp, t, d);
      Mk(dir, Counted(cmp, Child(t, dir), d, q), t.n, t.d, t.b + Sign(dir), Child(t, !dir))
  }

  // Both at once.
  ghost function Bumped(cmp: Comparator, t: Tree, d: Ptr, n: Node): Tree {
    if t.Leaf? then Bin(Leaf, n, d, 0, Leaf)
    else
      var dir := GoesRight(cmp, t, d);
      Mk(dir, Bumped(cmp, Child(t, dir), d, n), t.n, t.d, t.b + Sign(dir), Child(t, !dir))
  }

  // All balances on the way of the search for d are zero.
  ghost predicate ZeroPath(cmp: Comparator, t: Tree, d: Ptr) {
    t.Bin? ==> t.b == 0 && ZeroPath(cmp, Child(t, GoesRight(cmp, t, d)), d)
  }

  lemma {:induction false} CountedGrown(cmp: Comparator, t: Tree, d: Ptr, n: Node)
    requires n !in Nodes(t)
    ensures Reaches(cmp, Grown(cmp, t, d, n), d, n)
    ensures Counted(cmp, Grown(cmp, t, d, n), d, n) == Bumped(cmp, t, d, n)
  {
    if t.Bin? {
      CountedGrown(cmp, Child(t, GoesRight(cmp, t, d)), d, n);
    }
  }

  // Below the rebalance point the new node makes every subtree on its way higher
  // by one, and leaning towards it.
  lemma {:induction false} BumpedZero(cmp: Comparator, t: Tree, d: Ptr, n: Node)
    requires Balanced(t) && ZeroPath(cmp, t, d)
    ensures var u := Bumped(cmp, t, d, n);
      Balanced(u) && Height(u) == Height(t) + 1 && (t.Bin? ==> u.b != 0)
  {
    if t.Bin? {
      var dir := GoesRight(cmp, t, d);
      BumpedZero(cmp, Child(t, dir), d, n);
      Heights(t, dir);
      MkHeights(dir, Bumped(cmp, Child(t, dir), d, n), t.n, t.d, t.b + Sign(dir), Child(t, !dir));
      hide Mk, Child, Elems, Nodes, Sep, Height, Balanced;
    }
  }

  // At the rebalance point: either the balance stays within one, and the height
  // is unchanged unless it was zero; or one rotation is due.
  lemma BumpedFacts(cmp: Comparator, t: Tree, d: Ptr, n: Node)
    requires t.Bin? && Balanced(t) && ZeroPath(cmp, Child(t, GoesRight(cmp, t, d)), d)
    ensures var u, dir := Bumped(cmp, t, d, n), GoesRight(cmp, t, d);
      && u.Bin? && u.n == t.n && u.d == t.d && -2 <= u.b <= 2
      && (-1 <= u.b <= 1 ==> Balanced(u) && Height(u) == Height(t) + (if t.b == 0 then 1 else 0))
      && (u.b < -1 || u.b > 1 ==> HeavyAfterInsert(u, dir) && Height(u) == Height(t) + 1)
  {
    var dir := GoesRight(cmp, t, d);
    var c := Child(t, dir);
    BumpedZero(cmp, c, d, n);
    Heights(t, dir);
    MkHeights(dir, Bumped(cmp, c, d, n), t.n, t.d, t.b + Sign(dir), Child(t, !dir));
    var u := Bumped(cmp, t, d, n);
    assert u == Mk(dir, Bumped(cmp, c, d, n), t.n, t.d, t.b + Sign(dir), Child(t, !dir));
    if t.b == Sign(dir) {
      assert c.Bin?;
      TiltedByChildren(u, dir);
    }
    hide Mk, Child, Elems, Nodes, Sep, Height, Balanced, Tilted, Bumped;
  }

  lemma TiltedByChildren(t: Tree, dir: bool)
    requires t.Bin?
    ensures Tilted(t) <==>
              && Balanced(Child(t, dir)) && Balanced(Child(t, !dir))
              && t.b == Lean(dir, Height(Child(t, dir)), Height(Child(t, !dir))) && -2 <= t.b <= 2
  {
  }

  // What insertion leaves at the rebalance point.
  ghost function Rebalanced(u: Tree, dir: bool): Tree
    requires u.Bin? && (u.b < -1 || u.b > 1 ==> HeavyAfterInsert(u, dir))
  {
    if u.b < -1 || u.b > 1 then InsertBalanced(u, dir) else u
  }

  // From the rebalance point (zs, ts) the search for d has come down to (z, t),
  // past nodes of balance zero only.
  ghost predicate OnPath(cmp: Comparator, zs: Ctx, ts: Tree, z: Ctx, t: Tree, d: Ptr)
    decreases z
  {
    || (z == zs && t == ts)
    || (z.In? && t.Bin? && t.b == 0 && z.dir == GoesRight(cmp, UpTree(z, t), d) &&
        OnPath(cmp, zs, ts, z.up, UpTree(z, t), d))
  }

  lemma {:induction false} PathFacts(cmp: Comparator, zs: Ctx, ts: Tree, z: Ctx, t: Tree, d: Ptr, n: Node)
    requires OnPath(cmp, zs, ts, z, t, d) && ts.Bin? && t.Bin? && Child(t, GoesRight(cmp, t, d)).Leaf?
    ensures Plug(zs, Grown(cmp, ts, d, n)) == Plug(z, Grown(cmp, t, d, n))
    ensures ZeroPath(cmp, Child(ts, GoesRight(cmp, ts, d)), d)
  {
    PathUp(cmp, zs, ts, z, t, d, n);
  }

  lemma {:induction false} PathUp(cmp: Comparator, zs: Ctx, ts: Tree, z: Ctx, t: Tree, d: Ptr, n: Node)
    requires OnPath(cmp, zs, ts, z, t, d) && ts.Bin? && t.Bin? && ZeroPath(cmp, Child(t, GoesRight(cmp, t, d)), d)
    ensures Plug(zs, Grown(cmp, ts, d, n)) == Plug(z, Grown(cmp, t, d, n))
    ensures ZeroPath(cmp, Child(ts, GoesRight(cmp, ts, d)), d)
    decreases z
  {
    if !(z == zs && t == ts) {
      PathUp(cmp, zs, ts, z.up, UpTree(z, t), d, n);
    }
  }

  // The new item is at its lower bound.
  lemma GrownElems(cmp: Comparator, z: Ctx, t: Tree, d: Ptr, n: Node, s: seq<Ptr>)
    requires LowerPlace(cmp, z, d) && s == Whole(z, Leaf)
    ensures InsertedInto(cmp, s, Whole(z, Bin(Leaf, n, d, 0, Leaf)), d)
  {
    var i := |Before(z)|;
    assert LowerBound(cmp, s, d, i);
    assert Elems(Bin(Leaf, n, d, 0, Leaf)) == [d];
    assert s[..i] == Before(z) && s[i..] == After(z);
  }

  lemma {:induction false} BumpedElems(cmp: Comparator, t: Tree, d: Ptr, n: Node)
    ensures Elems(Bumped(cmp, t, d, n)) == Elems(Grown(cmp, t, d, n))
    ensures Nodes(Bumped(cmp, t, d, n)) == Nodes(Grown(cmp, t, d, n))
  {
    if t.Bin? {
      BumpedElems(cmp, Child(t, GoesRight(cmp, t, d)), d, n);
    }
  }

  // ---------------------------------------------------------------- removal

  ghost function Depth(z: Ctx): nat {
    if z.Top? then 0 else 1 + Depth(z.up)
  }

  lemma {:induction false} DepthHeight(z: Ctx, t: Tree)
    ensures Depth(z) + Height(t) <= Height(Plug(z, t))
    decreases z
  {
    if z.In? {
      DepthHeight(z.up, UpTree(z, t));
    }
  }

  // The place of the leftmost node of t, and the tree there.
  ghost function LeftmostCtx(z: Ctx, t: Tree): Ctx
    requires t.Bin?
    decreases t
  {
    if t.l.Leaf? then z else LeftmostCtx(Down(z, t, false), t.l)
  }

  ghost function Leftmost(t: Tree): (h: Tree)
    requires t.Bin?
    ensures h.Bin? && h.l.Leaf?
  {
    if t.l.Leaf? then t else Leftmost(t.l)
  }

  lemma {:induction false} LeftmostFacts(z: Ctx, t: Tree)
    requires t.Bin?
    ensures Leftmost(t).Bin? && Leftmost(t).l.Leaf? && Leftmost(t).n in Nodes(t)
    ensures Plug(LeftmostCtx(z, t), Leftmost(t)) == Plug(z, t)
    ensures Whole(LeftmostCtx(z, t), Leftmost(t)) == Whole(z, t) && Before(LeftmostCtx(z, t)) == Before(z)
    decreases t
  {
    if t.l.Bin? {
      WholeDown(z, t, false);
      LeftmostFacts(Down(z, t, false), t.l);
    }
  }

  // The node above the leftmost one is in t, or t's own parent.
  lemma {:induction false} LeftmostParent(z: Ctx, t: Tree)
    requires t.Bin?
    ensures var y := LeftmostCtx(z, t); y == z || (y.In? && !y.dir && y.n in Nodes(t))
    decreases t
  {
    if t.l.Bin? {
      LeftmostParent(Down(z, t, false), t.l);
    }
  }

  // A node with a missing child, cut out: one item less.
  lemma CutElems(cmp: Comparator, z: Ctx, t: Tree, dir: bool, d: Ptr)
    requires t.Bin? && Child(t, !dir).Leaf? && cmp(t.d, d) == 0
    ensures Removed(cmp, Whole(z, t), Whole(z, Child(t, dir)), d)
  {
    var s, i := Whole(z, t), |Before(z)| + |Elems(t.l)|;
    SplitAt(Before(z), Elems(t.l), t.d, Elems(t.r), After(z));
    assert FoundAt(cmp, s, d, i);
    assert Elems(Child(t, !dir)) == [];
    hide Before, After;
    assert Whole(z, Child(t, dir)) == (Before(z) + Elems(t.l)) + (Elems(t.r) + After(z));
  }

  lemma CutHeight(t: Tree, dir: bool)
    requires t.Bin? && Child(t, !dir).Leaf?
    ensures Height(t) == Height(Child(t, dir)) + 1
    ensures Balanced(t) ==> Balanced(Child(t, dir))
  {
  }

  ghost function WithData(t: Tree, d: Ptr): Tree
    requires t.Bin?
  {
    Bin(t.l, t.n, d, t.b, t.r)
  }

  // The item of t is replaced by its heir's, and the heir cut out: one item less.
  lemma HeirElems(cmp: Comparator, z: Ctx, t: Tree, d: Ptr)
    requires t.Bin? && t.r.Bin? && cmp(t.d, d) == 0
    ensures var h, t' := Leftmost(t.r), WithData(t, Leftmost(t.r).d);
      Removed(cmp, Whole(z, t), Whole(LeftmostCtx(Down(z, t', true), t.r), h.r), d)
  {
    var h, t' := Leftmost(t.r), WithData(t, Leftmost(t.r).d);
    var y, s, i := LeftmostCtx(Down(z, t', true), t.r), Whole(z, t), |Before(z)| + |Elems(t.l)|;
    assert FoundAt(cmp, s, d, i) by { assert s[i] == t.d; }
    LeftmostFacts(Down(z, t', true), t.r);
    WholeDown(z, t', true);
    assert Elems(h) == [h.d] + Elems(h.r);
    assert Before(y) == Before(z) + Elems(t.l) + [h.d];
    assert Whole(z, t') == Before(z) + (Elems(t.l) + [h.d] + Elems(t.r)) + After(z);
    hide Elems, Before, After, LeftmostCtx, Leftmost;
    HeirSequence(Before(z), Elems(t.l), t.d, Elems(t.r), After(z), h.d, Elems(h.r), After(y));
  }

  lemma HeirSequence(a: seq<Ptr>, l: seq<Ptr>, x: Ptr, r: seq<Ptr>, b: seq<Ptr>, y: Ptr, q: seq<Ptr>, c: seq<Ptr>)
    requires a + (l + [y] + r) + b == (a + l + [y]) + ([y] + q) + c
    ensures (a + l + [y]) + q + c == Without(a + (l + [x] + r) + b, |a| + |l|)
  {
    var w := a + (l + [y] + r) + b;
    var i := |a| + |l|;
    assert w[i + 1..] == r + b;
    assert w[i + 1..] == [y] + q + c;
    assert (a + (l + [x] + r) + b)[..i] == a + l;
    assert (a + (l + [x] + r) + b)[i + 1..] == r + b;
  }

  lemma HeirBalanced(z: Ctx, t: Tree, d: Ptr)
    requires t.Bin? && t.r.Bin? && Balanced(Plug(z, t))
    ensures var h, y := Leftmost(t.r), LeftmostCtx(Down(z, WithData(t, d), true), t.r);
      Balanced(h.r) && CtxBalanced(y, Height(h.r) + 1)
  {
    var t' := WithData(t, d);
    var h, y := Leftmost(t.r), LeftmostCtx(Down(z, t', true), t.r);
    PlugBalanced(z, t);
    assert Balanced(t') && Height(t') == Height(t);
    PlugBalanced(z, t');
    LeftmostFacts(Down(z, t', true), t.r);
    assert Plug(Down(z, t', true), t.r) == Plug(z, t');
    PlugBalanced(y, h);
    CutHeight(h, true);
  }

  lemma CtxParts(z: Ctx, h: int)
    requires z.In? && CtxBalanced(z, h)
    ensures Balanced(z.side) && z.b == Lean(z.dir, h, Height(z.side)) && -1 <= z.b <= 1
    ensures CtxBalanced(z.up, 1 + Max(h, Height(z.side)))
  {
  }

  // The node above z once the subtree t there has become lower by one, its balance
  // updated.
  ghost function Shrunk(z: Ctx, t: Tree): Tree
    requires z.In?
  {
    Mk(z.dir, t, z.n, z.d, z.b - Sign(z.dir), z.side)
  }

  // One level of the walk back up.
  lemma WalkStep(z: Ctx, t: Tree)
    requires z.In? && Balanced(t) && CtxBalanced(z, Height(t) + 1)
    ensures var u := Shrunk(z, t);
      && -2 <= u.b <= 2
      && (u.b == 1 || u.b == -1 ==> Balanced(u) && CtxBalanced(z.up, Height(u)))
      && (u.b == 0 ==> Balanced(u) && CtxBalanced(z.up, Height(u) + 1))
      && (u.b < -1 || u.b > 1 ==> HeavyAfterRemove(u, z.dir) && CtxBalanced(z.up, Height(u)))
  {
    hide Balanced, CtxBalanced, Height, Mk, Child, Tilted, Max, Lean, Sign;
    var u := Shrunk(z, t);
    MkHeights(z.dir, t, z.n, z.d, z.b - Sign(z.dir), z.side);
    CtxParts(z, Height(t) + 1);
    TiltedByChildren(u, z.dir);
    HeightPositive(z.side);
    WalkHeights(z.dir, z.b, Height(t), Height(z.side));
  }

  lemma WalkHeights(dir: bool, b: int, h: int, s: int)
    requires h >= 0 && s >= 0 && b == Lean(dir, h + 1, s) && -1 <= b <= 1
    ensures var b' := b - Sign(dir);
      && b' == Lean(dir, h, s) && -2 <= b' <= 2
      && (b' == 1 || b' == -1 ==> Max(h, s) == Max(h + 1, s))
      && (b' == 0 ==> Max(h, s) + 1 == Max(h + 1, s))
      && (b' < -1 || b' > 1 ==> Max(h, s) == Max(h + 1, s) && s > 0 && b' == -2 * Sign(dir))
  {
  }

  // The same where a rotation is due: the subtree stays lower by one unless the
  // sibling leant neither way.
  lemma WalkTurn(z: Ctx, t: Tree)
    requires z.In? && Balanced(t) && CtxBalanced(z, Height(t) + 1) && (Shrunk(z, t).b < -1 || Shrunk(z, t).b > 1)
    ensures HeavyAfterRemove(Shrunk(z, t), z.dir)
    ensures var u := Shrunk(z, t);
      var v := RemoveBalanced(u, z.dir);
      Balanced(v) && CtxBalanced(z.up, Height(v) + (if Child(u, !z.dir).b == 0 then 0 else 1))
  {
    WalkStep(z, t);
    hide Shrunk, Balanced, CtxBalanced, Height, RemoveBalanced, HeavyAfterRemove;
    RemoveBalancedFacts(Shrunk(z, t), z.dir);
  }

  lemma HeightPositive(t: Tree)
    ensures Height(t) > 0 ==> t.Bin?
  {
  }

  // ---------------------------------------------------------------- the path stack

  // The first top entries of the path arrays are the way down to z.
  ghost predicate Stacked(z: Ctx, up: seq<Node?>, upd: seq<bool>, top: int) {
    if z.Top? then top == 0
    else
      && 1 <= top <= |up| && top <= |upd| && up[top - 1] == z.n && upd[top - 1] == z.dir
      && Stacked(z.up, up, upd, top - 1)
  }

  lemma {:induction false} StackedFrame(z: Ctx, up: seq<Node?>, upd: seq<bool>, up': seq<Node?>, upd': seq<bool>,
                                      top: int)
    requires Stacked(z, up, upd, top) && top <= |up'| && top <= |upd'|
    requires forall i :: 0 <= i < top && i < |up| && i < |upd| ==> up'[i] == up[i] && upd'[i] == upd[i]
    ensures Stacked(z, up', upd', top)
    decreases z
  {
    if z.In? {
      StackedFrame(z.up, up, upd, up', upd', top - 1);
    }
  }

  lemma {:induction false} StackedDepth(z: Ctx, up: seq<Node?>, upd: seq<bool>, top: int)
    requires Stacked(z, up, upd, top)
    ensures top == Depth(z) && top <= |up| && top <= |upd|
    decreases z
  {
    if z.In? {
      StackedDepth(z.up, up, upd, top - 1);
    }
  }

  // ---------------------------------------------------------------- how high

  ghost function Fib(k: nat): nat {
    if k < 2 then k else Fib(k - 1) + Fib(k - 2)
  }

  lemma {:induction false} FibGrows(j: nat, k: nat)
    requires j <= k
    ensures Fib(j) <= Fib(k)
    decreases k
  {
    if j < k {
      FibGrows(j, k - 1);
      assert k >= 2 ==> Fib(k) == Fib(k - 1) + Fib(k - 2);
    }
  }

  // An AVL tree of height h has at least Fib(h + 2) - 1 items.
  lemma {:induction false} HeightNeedsItems(t: Tree)
    requires Balanced(t)
    ensures |Elems(t)| >= Fib(Height(t) + 2) - 1
  {
    if t.Bin? {
      HeightNeedsItems(t.l);
      HeightNeedsItems(t.r);
      var hl, hr, h := Height(t.l), Height(t.r), Height(t);
      FibGrows(h, hl + 2);
      FibGrows(h, hr + 2);
      assert Fib(h + 2) == Fib(h + 1) + Fib(h);
    }
  }

  // So a tree of few enough items is no higher than the limit.
  lemma FewItemsLowTree(t: Tree, limit: nat)
    requires Balanced(t) && |Elems(t)| < Fib(limit + 3) - 1
    ensures Height(t) <= limit
  {
    HeightNeedsItems(t);
    if Height(t) > limit {
      FibGrows(limit + 3, Height(t) + 2);
    }
  }

  // One item more is too many: a tree of height h with no item to spare.
  lemma {:induction false} Sparsest(h: nat, n: Node) returns (t: Tree)
    ensures Balanced(t) && Height(t) == h && |Elems(t)| == Fib(h + 2) - 1
  {
    if h == 0 {
      t := Leaf;
    } else if h == 1 {
      t := Bin(Leaf, n, NULL, 0, Leaf);
      assert Fib(2) == 1 && Fib(3) == 2;
    } else {
      var l := Sparsest(h - 1, n);
      var r := Sparsest(h - 2, n);
      t := Bin(l, n, NULL, -1, r);
      assert Fib(h + 2) == Fib(h + 1) + Fib(h);
    }
  }

  // For a limit on the height of all trees of up to m items, the bound is exact.
  lemma ItemsBoundIsSharp(m: nat, limit: nat, n: Node)
    ensures (forall t :: Balanced(t) && |Elems(t)| <= m ==> Height(t) <= limit) <==> m < Fib(limit + 3) - 1
  {
    if m < Fib(limit + 3) - 1 {
      forall t | Balanced(t) && |Elems(t)| <= m
        ensures Height(t) <= limit
      {
        FewItemsLowTree(t, limit);
      }
    } else {
      var t := Sparsest(limit + 1, n);
    }
  }
}
