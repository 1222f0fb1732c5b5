// list.c: a sorted singly linked list behind a head node, in the build without
// duplicates, holding key/data pairs as the buckets of the hash table do.
module List {
  import opened Common
  import opened Compare

  // pair.h; the lists and tables compare pairs by their first pointer.
  datatype Pair = Pair(first: Ptr, second: Ptr)

  class Node {
    var data: Pair
    var next: Node?

    // allocNode
    constructor (data: Pair)
      ensures this.data == data && next == null
    {
      this.data := data;
      next := null;
    }
  }

  ghost predicate Sorted(cmp: Comparator, s: seq<Pair>) {
    forall i, j :: 0 <= i < j < |s| ==> cmp(s[i].first, s[j].first) < 0
  }

  // Position i is where the pairs with keys not less than k begin.
  ghost predicate LowerBound(cmp: Comparator, s: seq<Pair>, k: Ptr, i: int) {
    && 0 <= i <= |s|
    && (forall j :: 0 <= j < i ==> cmp(s[j].first, k) < 0)
    && (i < |s| ==> cmp(s[i].first, k) >= 0)
  }

  ghost predicate Has(cmp: Comparator, s: seq<Pair>, k: Ptr) {
    exists p :: p in s && cmp(p.first, k) == 0
  }

  // s' is s with p put in at its place.
  ghost predicate InsertedInto(cmp: Comparator, s: seq<Pair>, s': seq<Pair>, p: Pair) {
    exists i :: LowerBound(cmp, s, p.first, i) && s' == With(s, i, p)
  }

  ghost predicate FoundAt(cmp: Comparator, s: seq<Pair>, k: Ptr, i: int) {
    0 <= i < |s| && cmp(s[i].first, k) == 0
  }

  // s' is s without the pair of k.
  ghost predicate RemovedFrom(cmp: Comparator, s: seq<Pair>, s': seq<Pair>, k: Ptr) {
    exists i :: FoundAt(cmp, s, k, i) && s' == Without(s, i)
  }

  lemma IsInserted(cmp: Comparator, s: seq<Pair>, p: Pair, i: int)
    requires LowerBound(cmp, s, p.first, i)
    ensures InsertedInto(cmp, s, With(s, i, p), p)
  {
  }

  lemma IsRemoved(cmp: Comparator, s: seq<Pair>, k: Ptr, i: int)
    requires 0 <= i < |s| && cmp(s[i].first, k) == 0
    ensures RemovedFrom(cmp, s, Without(s, i), k)
  {
    assert FoundAt(cmp, s, k, i);
  }

  // In a sorted list the first candidate is the only one.
  lemma OnlyAtLowerBound(cmp: Comparator, s: seq<Pair>, k: Ptr, i: int)
    requires TotalPreorder(cmp) && Sorted(cmp, s) && LowerBound(cmp, s, k, i)
    ensures Has(cmp, s, k) <==> i < |s| && cmp(s[i].first, k) == 0
    ensures forall j :: 0 <= j < |s| && cmp(s[j].first, k) == 0 ==> j == i
  {
    forall j | i < j < |s|
      ensures cmp(s[j].first, k) != 0
    {
      Flip(cmp, s[i].first, k);
      Flip(cmp, s[j].first, k);
      LessTrans(cmp, k, s[i].first, s[j].first);
    }
  }

  lemma InsertKeepsSorted(cmp: Comparator, s: seq<Pair>, p: Pair, i: int)
    requires TotalPreorder(cmp) && Sorted(cmp, s) && LowerBound(cmp, s, p.first, i) && !Has(cmp, s, p.first)
    ensures Sorted(cmp, With(s, i, p))
  {
    var t := With(s, i, p);
    forall x, y | 0 <= x < y < |t|
      ensures cmp(t[x].first, t[y].first) < 0
    {
      if x == i {
        assert t[y] == s[y - 1] && s[i] in s;
        Flip(cmp, p.first, s[i].first);
        if y - 1 > i { LessTrans(cmp, p.first, s[i].first, s[y - 1].first); }
      }
    }
  }

  lemma RemoveKeepsSorted(cmp: Comparator, s: seq<Pair>, i: int)
    requires Sorted(cmp, s) && 0 <= i < |s|
    ensures Sorted(cmp, Without(s, i))
  {
  }

  ghost predicate Distinct(c: seq<Node>) {
    forall i, j :: 0 <= i < j < |c| ==> c[i] != c[j]
  }

  lemma WithNode(c: seq<Node>, i: nat, n: Node)
    requires Distinct(c) && i < |c| && n !in c
    ensures var c' := c[..i + 1] + [n] + c[i + 1..];
      && Distinct(c') && |c'| == |c| + 1 && (forall x :: x in c' ==> x in c || x == n)
      && forall j :: 0 <= j < |c'| ==> c'[j] == if j <= i then c[j] else if j == i + 1 then n else c[j - 1]
  {
  }

  lemma WithoutNode(c: seq<Node>, i: nat)
    requires Distinct(c) && i + 1 < |c|
    ensures var c' := c[..i + 1] + c[i + 2..];
      && Distinct(c') && |c'| == |c| - 1 && c[i + 1] !in c'
      && forall j :: 0 <= j < |c'| ==> c'[j] in c && c'[j] == if j <= i then c[j] else c[j + 1]
  {
  }

  // What the nodes after the head hold.
  ghost function DataOf(c: seq<Node>): (s: seq<Pair>)
    requires |c| >= 1
    reads c
    ensures |s| == |c| - 1 && forall i :: 0 <= i < |s| ==> s[i] == c[i + 1].data
  {
    seq(|c| - 1, i requires 0 <= i < |c| - 1 reads c => c[i + 1].data)
  }

  lemma DataWith(c: seq<Node>, i: nat, n: Node)
    requires i < |c|
    ensures DataOf(c[..i + 1] + [n] + c[i + 1..]) == With(DataOf(c), i, n.data)
  {
  }

  lemma DataWithout(c: seq<Node>, i: nat)
    requires i + 1 < |c|
    ensures DataOf(c[..i + 1] + c[i + 2..]) == Without(DataOf(c), i)
  {
  }

  class List {
    const head: Node
    const cmp: Comparator
    var size: int

    // The nodes in order, the head first.
    ghost var chain: seq<Node>

    ghost function Repr(): (r: set<object>)
      reads `chain
      ensures this in r && (forall n :: n in chain ==> n in r)
      ensures forall o: object :: o in r ==> o == this || exists n :: n in chain && o == n
    {
      (set n: Node | n in chain :: n as object) + {this}
    }

    ghost predicate Linked()
      reads `chain, Repr()
    {
      && |chain| >= 1 && chain[0] == head
      && Distinct(chain)
      && (forall i :: 0 <= i < |chain| - 1 ==> chain[i].next == chain[i + 1])
      && chain[|chain| - 1].next == null
    }

    ghost predicate Valid(): (v: bool)
      reads this, Repr()
      ensures v ==> |chain| >= 1
    {
      Linked() && size == |chain| - 1 && TotalPreorder(cmp) && Sorted(cmp, Items())
    }

    ghost function Items(): seq<Pair>
      requires |chain| >= 1
      reads `chain, Repr()
    {
      DataOf(chain)
    }

    // list_alloc
    constructor (cmp: Comparator)
      requires TotalPreorder(cmp)
      ensures Valid() && Items() == [] && this.cmp == cmp && fresh(Repr())
    {
      var h := new Node(Pair(NULL, NULL));
      head := h;
      this.cmp := cmp;
      size := 0;
      chain := [h];
    }

    // list_getSize
    method GetSize() returns (n: int)
      requires Valid()
      ensures n == |Items()|
    {
      n := size;
    }

    // A list iterator is a node; it is at index i when i items lie behind it.
    ghost predicate IterAt(it: Node, i: int)
      reads `chain
    {
      0 <= i < |chain| && it == chain[i]
    }

    // list_iter_reset
    method IterReset() returns (it: Node)
      requires Valid()
      ensures IterAt(it, 0)
    {
      it := head;
    }

    // list_iter_hasNext
    method IterHasNext(it: Node, ghost i: int) returns (more: bool)
      requires Valid() && IterAt(it, i)
      ensures i <= |Items()| && (more <==> i < |Items()|)
    {
      more := it.next != null;
      assert i < |chain| - 1 ==> chain[i].next == chain[i + 1];
    }

    // list_iter_next
    method IterNext(it: Node, ghost i: int) returns (it': Node, data: Pair)
      requires Valid() && IterAt(it, i) && i < |Items()|
      ensures IterAt(it', i + 1) && data == Items()[i]
    {
      assert chain[i].next == chain[i + 1];
      it' := it.next;
      data := it'.data;
    }

    // findPrevious: the node before the place of key k.
    method FindPrevious(k: Ptr) returns (prev: Node, ghost i: int)
      requires Valid()
      ensures LowerBound(cmp, Items(), k, i) && prev == chain[i]
    {
      prev := head;
      i := 0;
      var node := prev.next;
      while node != null
        invariant 0 <= i < |chain| && prev == chain[i] && node == prev.next
        invariant forall j :: 0 <= j < i ==> cmp(Items()[j].first, k) < 0
        decreases |chain| - i
      {
        assert node == chain[i + 1] && node.data == Items()[i];
        if cmp(node.data.first, k) >= 0 {
          return;
        }
        prev := node;
        i := i + 1;
        node := node.next;
      }
    }

    // What follows the node before the place of k.
    lemma AfterPrevious(k: Ptr, i: int)
      requires Valid() && LowerBound(cmp, Items(), k, i)
      ensures 0 <= i < |chain| && |chain| == |Items()| + 1
      ensures chain[i].next == (if i < |Items()| then chain[i + 1] else null)
      ensures i < |Items()| ==> chain[i + 1].data == Items()[i]
      ensures Has(cmp, Items(), k) <==> i < |Items()| && cmp(Items()[i].first, k) == 0
    {
      OnlyAtLowerBound(cmp, Items(), k, i);
    }

    // list_find: the pair whose key compares equal, if there is one.
    method Find(k: Ptr) returns (found: bool, p: Pair)
      requires Valid()
      ensures found <==> Has(cmp, Items(), k)
      ensures found ==> p in Items() && cmp(p.first, k) == 0
    {
      var prev; ghost var i;
      prev, i := FindPrevious(k);
      AfterPrevious(k, i);
      var node := prev.next;
      if node == null || cmp(node.data.first, k) != 0 {
        return false, Pair(NULL, NULL);
      }
      return true, node.data;
    }

    // list_insert
    method Insert(p: Pair) returns (ok: bool)
      requires Valid()
      modifies Repr()
      ensures Valid() && fresh(Repr() - old(Repr()))
      ensures ok <==> !Has(cmp, old(Items()), p.first)
      ensures ok ==> InsertedInto(cmp, old(Items()), Items(), p)
      ensures !ok ==> unchanged(old(Repr()))
    {
      hide Sorted, Has, Linked, Repr, DataOf, InsertedInto, LowerBound, With, TotalPreorder;
      var prev; ghost var i;
      prev, i := FindPrevious(p.first);
      ghost var s := Items();
      AfterPrevious(p.first, i);
      var curr := prev.next;
      if curr != null && cmp(curr.data.first, p.first) == 0 {
        return false;
      }
      InsertKeepsSorted(cmp, s, p, i);
      IsInserted(cmp, s, p, i);
      LinkIn(prev, curr, p, i);
      ok := true;
    }

    // A new node for p is linked in between prev and curr.
    method LinkIn(prev: Node, curr: Node?, p: Pair, ghost i: int)
      requires Linked() && 0 <= i < |chain| && prev == chain[i] && curr == prev.next
      modifies `chain, `size, prev
      ensures Linked() && 0 <= i <= |old(Items())| && Items() == With(old(Items()), i, p)
      ensures size == old(size) + 1 && |chain| == |old(chain)| + 1 && fresh(Repr() - old(Repr()))
    {
      ghost var was := chain;
      var node := new Node(p);
      WithNode(was, i, node);
      DataWith(was, i, node);
      assert forall j :: 0 <= j < |was| && j != i ==> was[j] != prev;
      assert i + 1 < |was| ==> curr == was[i + 1];
      ghost var s := DataOf(was);
      hide Distinct, With, DataOf;
      node.next := curr;
      prev.next := node;
      size := size + 1;
      chain := was[..i + 1] + [node] + was[i + 1..];
      assert Repr() <= old(Repr()) + {node};
      forall j | 0 <= j < |chain| - 1
        ensures chain[j].next == chain[j + 1]
      {
        if j < i {
          assert chain[j] == was[j] != prev && chain[j + 1] == was[j + 1];
        } else if j == i {
          assert chain[j] == prev && chain[j + 1] == node;
        } else if j == i + 1 {
          assert chain[j] == node && chain[j + 1] == was[i + 1];
        } else {
          assert chain[j] == was[j - 1] != prev && chain[j + 1] == was[j];
        }
      }
      DataWith(was, i, node);
      assert DataOf(was) == s;
    }

    // The node after prev is linked out.
    method LinkOut(prev: Node, node: Node, ghost i: int)
      requires Linked() && 0 <= i < |chain| - 1 && prev == chain[i] && node == chain[i + 1]
      modifies `chain, `size, prev, node
      ensures Linked() && 0 <= i < |old(Items())| && Items() == Without(old(Items()), i)
      ensures size == old(size) - 1 && |chain| == |old(chain)| - 1 && Repr() <= old(Repr())
    {
      ghost var was := chain;
      WithoutNode(was, i);
      DataWithout(was, i);
      assert forall j :: 0 <= j < |was| && j != i ==> was[j] != prev;
      assert forall j :: 0 <= j < |was| && j != i + 1 ==> was[j] != node;
      ghost var s := DataOf(was);
      hide Distinct, Without, DataOf;
      prev.next := node.next;
      node.next := null;
      size := size - 1;
      chain := was[..i + 1] + was[i + 2..];
      DataWithout(was, i);
      assert DataOf(was) == s;
    }

    // list_remove
    method Remove(k: Ptr) returns (ok: bool)
      requires Valid()
      modifies Repr()
      ensures Valid() && Repr() <= old(Repr())
      ensures ok <==> Has(cmp, old(Items()), k)
      ensures ok ==> RemovedFrom(cmp, old(Items()), Items(), k)
      ensures !ok ==> unchanged(old(Repr()))
    {
      hide Sorted, Has, Linked, Repr, DataOf, RemovedFrom, LowerBound, Without, TotalPreorder;
      var prev; ghost var i;
      prev, i := FindPrevious(k);
      ghost var s := Items();
      AfterPrevious(k, i);
      var node := prev.next;
      if node != null && cmp(node.data.first, k) == 0 {
        RemoveKeepsSorted(cmp, s, i);
        IsRemoved(cmp, s, k, i);
        LinkOut(prev, node, i);
        return true;
      }
      return false;
    }
  }
}
