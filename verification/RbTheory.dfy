// What a red-black tree means (its sorted bindings) and what keeps it shallow
// (its colours), as facts about tree values.
module RbTheory {
  import opened Common
  import opened Compare
  import opened RbShape

  type Binding = (Ptr, Ptr)

  // ---------------------------------------------------------------- contents

  ghost function Elems(t: Tree): seq<Binding> {
    if t.Bin? then Elems(t.l) + [(t.k, t.v)] + Elems(t.r) else []
  }

  ghost function Before(z: Ctx): seq<Binding> {
    match z
    case Top => []
    case InLeft(up, _, _, _, _, _) => Before(up)
    case InRight(l, _, k, v, _, up) => Before(up) + Elems(l) + [(k, v)]
  }

  ghost function After(z: Ctx): seq<Binding> {
    match z
    case Top => []
    case InLeft(up, _, k, v, _, r) => [(k, v)] + Elems(r) + After(up)
    case InRight(_, _, _, _, _, up) => After(up)
  }

  // The bindings of the whole tree, seen from a position.
  ghost function Whole(z: Ctx, t: Tree): seq<Binding> {
    Before(z) + Elems(t) + After(z)
  }

  lemma WholeUp(z: Ctx, t: Tree)
    requires !z.Top?
    ensures Whole(z.up, UpTree(z, t)) == Whole(z, t)
  {
    if z.InLeft? {
      assert Elems(UpTree(z, t)) == Elems(t) + [(z.k, z.v)] + Elems(z.r);
    } else {
      assert Elems(UpTree(z, t)) == Elems(z.l) + [(z.k, z.v)] + Elems(t);
    }
  }

  lemma WholeDown(z: Ctx, t: Tree)
    requires t.Bin?
    ensures Whole(DownLeft(z, t), t.l) == Whole(z, t)
    ensures Whole(DownRight(z, t), t.r) == Whole(z, t)
  {
  }

  lemma {:induction false} WholePlug(z: Ctx, t: Tree)
    ensures Elems(Plug(z, t)) == Whole(z, t)
    decreases z
  {
    if !z.Top? {
      WholeUp(z, t);
      WholePlug(z.up, UpTree(z, t));
    }
  }

  lemma {:induction false} PlugBin(z: Ctx, t: Tree)
    ensures t.Bin? || !z.Top? ==> Plug(z, t).Bin?
    decreases z
  {
    if !z.Top? {
      PlugBin(z.up, UpTree(z, t));
    }
  }

  // Rotations and new colours leave the bindings alone.
  lemma RotElems(t: Tree)
    ensures t.Bin? && t.r.Bin? ==> Elems(RotL(t)) == Elems(t) && Hollows(RotL(t)) == Hollows(t)
    ensures t.Bin? && t.l.Bin? ==> Elems(RotR(t)) == Elems(t) && Hollows(RotR(t)) == Hollows(t)
  {
  }

  lemma RecoloredElems(t: Tree, c: Color, cl: Color, cr: Color)
    requires t.Bin?
    ensures Elems(Recolored(t, c, cl, cr)) == Elems(t)
    ensures Hollows(Recolored(t, c, cl, cr)) == Hollows(t)
  {
    assert Elems(Painted(t.l, cl)) == Elems(t.l) && Elems(Painted(t.r, cr)) == Elems(t.r);
    assert Hollows(Painted(t.l, cl)) == Hollows(t.l) && Hollows(Painted(t.r, cr)) == Hollows(t.r);
  }

  lemma {:induction false} HollowsPlug(z: Ctx, t: Tree)
    ensures Hollows(Plug(z, t)) == CtxHollows(z) + Hollows(t)
    decreases z
  {
    if !z.Top? {
      HollowsPlug(z.up, UpTree(z, t));
    }
  }

  lemma HollowsInNodes(t: Tree)
    ensures Hollows(t) <= Nodes(t)
  {
  }

  lemma CtxHollowsInNodes(z: Ctx)
    ensures CtxHollows(z) <= CtxNodes(z)
  {
    if !z.Top? {
      HollowsInNodes(Side(z));
      CtxHollowsInNodes(z.up);
    }
  }

  // ---------------------------------------------------------------- search

  ghost predicate Sorted(cmp: Comparator, s: seq<Binding>) {
    forall i, j :: 0 <= i < j < |s| ==> cmp(s[i].0, s[j].0) < 0
  }

  // Every binding before the position is below k, every one after it above.
  ghost predicate Between(cmp: Comparator, z: Ctx, k: Ptr) {
    && (forall i :: 0 <= i < |Before(z)| ==> cmp(k, Before(z)[i].0) > 0)
    && (forall i :: 0 <= i < |After(z)| ==> cmp(k, After(z)[i].0) < 0)
  }

  ghost predicate Absent(cmp: Comparator, s: seq<Binding>, k: Ptr) {
    forall i :: 0 <= i < |s| ==> cmp(k, s[i].0) != 0
  }

  // Index i of s holds a key that compares equal to k.
  ghost predicate FoundAt(cmp: Comparator, s: seq<Binding>, k: Ptr, i: int) {
    0 <= i < |s| && cmp(k, s[i].0) == 0
  }

  // s' is s with e put in at one place.
  ghost predicate InsertedInto(s: seq<Binding>, s': seq<Binding>, e: Binding) {
    exists i: nat | i <= |s| :: s' == With(s, i, e)
  }

  // s' is s without the binding of k.
  ghost predicate Unbound(cmp: Comparator, s: seq<Binding>, s': seq<Binding>, k: Ptr) {
    exists i :: FoundAt(cmp, s, k, i) && s' == Without(s, i)
  }

  // s' is s with k bound to v, under the key it already had.
  ghost predicate Rebound(cmp: Comparator, s: seq<Binding>, s': seq<Binding>, k: Ptr, v: Ptr) {
    exists i :: FoundAt(cmp, s, k, i) && s' == s[i := (s[i].0, v)]
  }

  // ---------------------------------------------------------------- as a finite map

  datatype Option<+T> = None | Some(value: T) {
    function GetOr(default: T): T {
      if Some? then value else default
    }
  }

  // The value bound to a key that compares equal to k.
  ghost function Find(cmp: Comparator, s: seq<Binding>, k: Ptr): Option<Ptr> {
    if exists i :: FoundAt(cmp, s, k, i) then (var i :| FoundAt(cmp, s, k, i); Some(s[i].1)) else None
  }

  lemma FindsIt(cmp: Comparator, s: seq<Binding>, k: Ptr, i: int)
    requires TotalPreorder(cmp) && Sorted(cmp, s) && FoundAt(cmp, s, k, i)
    ensures Find(cmp, s, k) == Some(s[i].1)
  {
    var j :| FoundAt(cmp, s, k, j) && Find(cmp, s, k) == Some(s[j].1);
    OnlyOne(cmp, s, k, i, j);
  }

  lemma OnlyOne(cmp: Comparator, s: seq<Binding>, k: Ptr, i: int, j: int)
    requires TotalPreorder(cmp) && Sorted(cmp, s) && FoundAt(cmp, s, k, i) && FoundAt(cmp, s, k, j)
    ensures i == j
  {
    Flip(cmp, k, s[i].0);
    Flip(cmp, k, s[j].0);
    LessTrans(cmp, s[i].0, k, s[j].0);
    LessTrans(cmp, s[j].0, k, s[i].0);
  }

  // Where the search for j can end after (k, v) has come in at i.
  lemma FoundWith(cmp: Comparator, s: seq<Binding>, i: nat, e: Binding, j: Ptr, x: int)
    requires i <= |s|
    ensures FoundAt(cmp, With(s, i, e), j, x) <==>
              if x == i then cmp(j, e.0) == 0 else FoundAt(cmp, s, j, if x < i then x else x - 1)
  {
  }

  // A successful insertion binds k and no other key.
  lemma InsertLaw(cmp: Comparator, s: seq<Binding>, s': seq<Binding>, k: Ptr, v: Ptr, j: Ptr)
    requires TotalPreorder(cmp) && Sorted(cmp, s) && Sorted(cmp, s') && InsertedInto(s, s', (k, v))
    ensures Find(cmp, s', j) == if cmp(j, k) == 0 then Some(v) else Find(cmp, s, j)
  {
    hide TotalPreorder, Sorted;
    var i: nat :| i <= |s| && s' == With(s, i, (k, v));
    hide FoundAt;
    forall x { FoundWith(cmp, s, i, (k, v), j, x); }
    if cmp(j, k) == 0 {
      FindsIt(cmp, s', j, i);
    } else if x :| FoundAt(cmp, s, j, x) {
      var y := if x < i then x else x + 1;
      FoundBounds(cmp, s, j, x);
      FindsIt(cmp, s, j, x);
      FindsIt(cmp, s', j, y);
    }
  }

  lemma FoundBounds(cmp: Comparator, s: seq<Binding>, k: Ptr, i: int)
    requires FoundAt(cmp, s, k, i)
    ensures 0 <= i < |s| && cmp(k, s[i].0) == 0
  {
  }

  // A deletion unbinds the key it was asked for and no other.
  lemma DeleteLaw(cmp: Comparator, s: seq<Binding>, s': seq<Binding>, k: Ptr, j: Ptr)
    requires TotalPreorder(cmp) && Sorted(cmp, s) && Unbound(cmp, s, s', k)
    ensures Find(cmp, s', j) == if cmp(j, k) == 0 then None else Find(cmp, s, j)
  {
    hide TotalPreorder, Sorted;
    var i :| FoundAt(cmp, s, k, i) && s' == Without(s, i);
    WithoutSorted(cmp, s, i);
    if cmp(j, k) == 0 {
      SameClass(cmp, j, k, s[i].0);
      if x :| FoundAt(cmp, s', j, x) {
        OnlyOne(cmp, s, j, i, if x < i then x else x + 1);
      }
    } else if x :| FoundAt(cmp, s, j, x) {
      SameClass(cmp, j, s[x].0, k);
      Flip(cmp, k, s[i].0);
      FindsIt(cmp, s, j, x);
      FindsIt(cmp, s', j, if x < i then x else x - 1);
    } else {
      assert forall x :: FoundAt(cmp, s', j, x) ==> FoundAt(cmp, s, j, if x < i then x else x + 1);
    }
  }

  // An update rebinds k.
  lemma UpdateLaw(cmp: Comparator, s: seq<Binding>, s': seq<Binding>, k: Ptr, v: Ptr, j: Ptr)
    requires TotalPreorder(cmp) && Sorted(cmp, s) && Rebound(cmp, s, s', k, v)
    ensures Find(cmp, s', j) == if cmp(j, k) == 0 then Some(v) else Find(cmp, s, j)
  {
    var i :| FoundAt(cmp, s, k, i) && s' == s[i := (s[i].0, v)];
    assert Sorted(cmp, s');
    hide TotalPreorder, Sorted;
    assert forall x :: FoundAt(cmp, s', j, x) <==> FoundAt(cmp, s, j, x);
    if cmp(j, k) == 0 {
      SameClass(cmp, j, k, s[i].0);
      FindsIt(cmp, s', j, i);
    } else if x :| FoundAt(cmp, s, j, x) {
      SameClass(cmp, j, s[x].0, k);
      Flip(cmp, k, s[i].0);
      FindsIt(cmp, s, j, x);
      FindsIt(cmp, s', j, x);
    }
  }

  lemma WithoutSorted(cmp: Comparator, s: seq<Binding>, i: nat)
    requires Sorted(cmp, s) && i < |s|
    ensures Sorted(cmp, Without(s, i))
  {
  }

  // Where the binding at the root of t sits in the whole sequence.
  ghost function Rank(z: Ctx, t: Tree): nat
    requires t.Bin?
  {
    |Before(z)| + |Elems(t.l)|
  }

  lemma RankIsIndex(z: Ctx, t: Tree)
    requires t.Bin?
    ensures Rank(z, t) < |Whole(z, t)| && Whole(z, t)[Rank(z, t)] == (t.k, t.v)
    ensures Whole(z, t)[..Rank(z, t)] == Before(z) + Elems(t.l)
    ensures Whole(z, t)[Rank(z, t) + 1..] == Elems(t.r) + After(z)
  {
    assert Elems(t) == Elems(t.l) + [(t.k, t.v)] + Elems(t.r);
    hide Elems, Before, After;
    SplitAt(Before(z), Elems(t.l), (t.k, t.v), Elems(t.r), After(z));
  }

  lemma GoLeft(cmp: Comparator, z: Ctx, t: Tree, k: Ptr)
    requires TotalPreorder(cmp) && Sorted(cmp, Whole(z, t)) && Between(cmp, z, k)
    requires t.Bin? && cmp(k, t.k) < 0
    ensures Between(cmp, DownLeft(z, t), k)
  {
    RankIsIndex(z, t);
    StepSequences(z, t);
    hide Before, After, Elems, Sorted, Whole, Rank;
    AllGreater(cmp, Whole(z, t), Rank(z, t), k);
    var s, i, a := Whole(z, t), Rank(z, t), After(DownLeft(z, t));
    forall j | 0 <= j < |a|
      ensures cmp(k, a[j].0) < 0
    {
      assert a[j] == s[i + j];
    }
  }

  lemma StepSequences(z: Ctx, t: Tree)
    requires t.Bin?
    ensures Before(DownLeft(z, t)) == Before(z)
    ensures Rank(z, t) < |Whole(z, t)| && After(DownLeft(z, t)) == Whole(z, t)[Rank(z, t)..]
    ensures After(DownRight(z, t)) == After(z)
    ensures Before(DownRight(z, t)) == Whole(z, t)[..Rank(z, t) + 1]
  {
    assert After(DownLeft(z, t)) == [(t.k, t.v)] + Elems(t.r) + After(z);
    assert Before(DownRight(z, t)) == Before(z) + Elems(t.l) + [(t.k, t.v)];
    assert Elems(t) == Elems(t.l) + [(t.k, t.v)] + Elems(t.r);
    assert Before(DownLeft(z, t)) == Before(z) && After(DownRight(z, t)) == After(z);
    hide Elems, Before, After;
    SplitAt(Before(z), Elems(t.l), (t.k, t.v), Elems(t.r), After(z));
  }

  lemma AllGreater(cmp: Comparator, s: seq<Binding>, i: nat, k: Ptr)
    requires TotalPreorder(cmp) && Sorted(cmp, s) && i < |s| && cmp(k, s[i].0) < 0
    ensures forall j :: i <= j < |s| ==> cmp(k, s[j].0) < 0
  {
    forall j | i < j < |s|
      ensures cmp(k, s[j].0) < 0
    {
      LessTrans(cmp, k, s[i].0, s[j].0);
    }
  }

  lemma GoRight(cmp: Comparator, z: Ctx, t: Tree, k: Ptr)
    requires TotalPreorder(cmp) && Sorted(cmp, Whole(z, t)) && Between(cmp, z, k)
    requires t.Bin? && cmp(k, t.k) > 0
    ensures Between(cmp, DownRight(z, t), k)
  {
    RankIsIndex(z, t);
    StepSequences(z, t);
    hide Before, After, Elems, Sorted, Whole, Rank;
    AllLess(cmp, Whole(z, t), Rank(z, t), k);
    var s, i, a := Whole(z, t), Rank(z, t), Before(DownRight(z, t));
    forall j | 0 <= j < |a|
      ensures cmp(k, a[j].0) > 0
    {
      assert a[j] == s[j];
    }
  }

  lemma AllLess(cmp: Comparator, s: seq<Binding>, i: nat, k: Ptr)
    requires TotalPreorder(cmp) && Sorted(cmp, s) && i < |s| && cmp(k, s[i].0) > 0
    ensures forall j :: 0 <= j <= i ==> cmp(k, s[j].0) > 0
  {
    Flip(cmp, s[i].0, k);
    forall j | 0 <= j < i
      ensures cmp(k, s[j].0) > 0
    {
      LessTrans(cmp, s[j].0, s[i].0, k);
      Flip(cmp, s[j].0, k);
    }
  }

  // An empty place with k between its neighbours: k occurs nowhere, and
  // inserting there keeps the order.
  lemma EmptyPlace(cmp: Comparator, z: Ctx, k: Ptr, v: Ptr)
    requires TotalPreorder(cmp) && Sorted(cmp, Whole(z, Leaf)) && Between(cmp, z, k)
    ensures Absent(cmp, Whole(z, Leaf), k)
    ensures Sorted(cmp, Before(z) + [(k, v)] + After(z))
    ensures Whole(z, Leaf) == Before(z) + After(z)
  {
    var a, b := Before(z), After(z);
    assert Elems(Leaf) == [] && Whole(z, Leaf) == a + b;
    assert Absent(cmp, Whole(z, Leaf), k);
    forall i | 0 <= i < |a|
      ensures cmp(a[i].0, k) < 0
    {
      Flip(cmp, a[i].0, k);
    }
    hide Before, After, Elems, Whole, Absent;
    SortedAround(cmp, a, (k, v), b);
  }

  lemma SortedAround(cmp: Comparator, a: seq<Binding>, e: Binding, b: seq<Binding>)
    requires Sorted(cmp, a + b)
    requires forall i :: 0 <= i < |a| ==> cmp(a[i].0, e.0) < 0
    requires forall i :: 0 <= i < |b| ==> cmp(e.0, b[i].0) < 0
    ensures Sorted(cmp, a + [e] + b)
  {
    var s := a + [e] + b;
    forall i, j | 0 <= i < j < |s|
      ensures cmp(s[i].0, s[j].0) < 0
    {
      if i != |a| && j != |a| {
        var i', j' := if i < |a| then i else i - 1, if j < |a| then j else j - 1;
        assert s[i] == (a + b)[i'] && s[j] == (a + b)[j'];
      }
    }
  }

  // ---------------------------------------------------------------- colours

  // Every path down from t meets h black nodes.
  ghost predicate BlackHeight(t: Tree, h: int) {
    if t.Bin? then
      var h' := if t.c == Black then h - 1 else h;
      BlackHeight(t.l, h') && BlackHeight(t.r, h')
    else
      h == 0
  }

  ghost predicate NoRedRed(t: Tree) {
    t.Bin? ==>
      && NoRedRed(t.l) && NoRedRed(t.r)
      && (t.c == Red ==> ColorOf(t.l) == Black && ColorOf(t.r) == Black)
  }

  // The colour above a position. Above the root counts as red, so that a root
  // under no red must be black.
  ghost function Above(z: Ctx): Color {
    if z.Top? then Red else z.c
  }

  // Everything around a position is in order if a subtree of black height h is
  // put there, up to the colour of that subtree's root.
  ghost predicate Balanced(z: Ctx, h: int) {
    !z.Top? ==>
      && BlackHeight(Side(z), h) && NoRedRed(Side(z))
      && (z.c == Red ==> ColorOf(Side(z)) == Black && Above(z.up) == Black)
      && Balanced(z.up, if z.c == Black then h + 1 else h)
  }

  // A red-black tree: black root, no red node under a red one, one black height.
  ghost predicate RedBlack(t: Tree) {
    && ColorOf(t) == Black
    && NoRedRed(t)
    && exists h :: BlackHeight(t, h)
  }

  lemma HeightNat(t: Tree, h: int)
    requires BlackHeight(t, h)
    ensures h >= 0
  {
  }

  // A subtree of the right height at a position, under no red parent, completes
  // a red-black tree.
  lemma {:induction false} PlugRedBlack(z: Ctx, t: Tree, h: int)
    requires BlackHeight(t, h) && NoRedRed(t) && Balanced(z, h)
    requires ColorOf(t) == Red ==> Above(z) == Black
    ensures RedBlack(Plug(z, t))
    decreases z
  {
    if !z.Top? {
      PlugRedBlack(z.up, UpTree(z, t), if z.c == Black then h + 1 else h);
    }
  }

  // Conversely a red-black tree is balanced around each of its positions.
  lemma {:induction false} PlugBalanced(z: Ctx, t: Tree) returns (h: int)
    requires RedBlack(Plug(z, t))
    ensures BlackHeight(t, h) && NoRedRed(t) && Balanced(z, h)
    ensures ColorOf(t) == Red ==> Above(z) == Black
    decreases z
  {
    if z.Top? {
      h :| BlackHeight(t, h);
    } else {
      h := PlugBalanced(z.up, UpTree(z, t));
      h := if z.c == Black then h - 1 else h;
    }
  }

  // ---------------------------------------------------------------- height

  ghost function Size(t: Tree): nat {
    if t.Bin? then Size(t.l) + 1 + Size(t.r) else 0
  }

  ghost function Height(t: Tree): nat {
    if t.Bin? then 1 + (if Height(t.l) < Height(t.r) then Height(t.r) else Height(t.l)) else 0
  }

  lemma {:induction false} SizeFromBlackHeight(t: Tree, h: nat)
    requires BlackHeight(t, h)
    ensures Size(t) + 1 >= Pow2(h)
    decreases t
  {
    if t.Bin? {
      HeightNat(t.l, if t.c == Black then h - 1 else h);
      SizeFromBlackHeight(t.l, if t.c == Black then h - 1 else h);
      SizeFromBlackHeight(t.r, if t.c == Black then h - 1 else h);
    }
  }

  lemma {:induction false} HeightFromBlackHeight(t: Tree, h: nat)
    requires BlackHeight(t, h) && NoRedRed(t)
    ensures Height(t) <= 2 * h + (if ColorOf(t) == Red then 1 else 0)
    decreases t
  {
    if t.Bin? {
      HeightNat(t.l, if t.c == Black then h - 1 else h);
      HeightFromBlackHeight(t.l, if t.c == Black then h - 1 else h);
      HeightFromBlackHeight(t.r, if t.c == Black then h - 1 else h);
    }
  }

  lemma {:induction false} Pow2Double(h: nat)
    ensures Pow2(2 * h) == Pow2(h) * Pow2(h)
  {
    if h > 0 {
      Pow2Double(h - 1);
      assert Pow2(2 * h) == 2 * (2 * Pow2(2 * (h - 1)));
    }
  }

  lemma {:induction false} Pow2Mono(a: nat, b: nat)
    requires a <= b
    ensures Pow2(a) <= Pow2(b)
    decreases b
  {
    if a < b {
      Pow2Mono(a, b - 1);
    }
  }

  lemma SquareMono(a: nat, b: nat)
    requires a <= b
    ensures a * a <= b * b
  {
    assert a * a <= a * b;
    assert a * b <= b * b;
  }

  // A search path in a red-black tree of n bindings has at most 2*log2(n + 1) nodes.
  lemma RedBlackIsShallow(t: Tree)
    requires RedBlack(t)
    ensures Pow2(Height(t)) <= (Size(t) + 1) * (Size(t) + 1)
  {
    var h :| BlackHeight(t, h);
    hide NoRedRed;
    HeightNat(t, h);
    SizeFromBlackHeight(t, h);
    HeightFromBlackHeight(t, h);
    Pow2Mono(Height(t), 2 * h);
    Pow2Double(h);
    SquareMono(Pow2(h), Size(t) + 1);
  }
}
