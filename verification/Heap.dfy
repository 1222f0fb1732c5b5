// heap.c: a binary heap in an array, the elements from index 1, the largest first.
module Heap {
  import opened Common
  import opened Compare

  // The parent of every element from index 2 up is no less, the element at hole and
  // its children apart.
  ghost predicate OrderedUp(cmp: Comparator, e: seq<Ptr>, size: int, hole: int)
    requires 0 <= size < |e|
  {
    && (forall i :: 2 <= i <= size && i != hole ==> cmp(e[i / 2], e[i]) >= 0)
    && (forall i :: 2 <= i <= size && i / 2 == hole && hole >= 2 ==> cmp(e[hole / 2], e[i]) >= 0)
  }

  ghost predicate OrderedDown(cmp: Comparator, e: seq<Ptr>, size: int, hole: int)
    requires 0 <= size < |e|
  {
    && (forall i :: 2 <= i <= size && i / 2 != hole ==> cmp(e[i / 2], e[i]) >= 0)
    && (forall i :: 2 <= i <= size && i / 2 == hole && hole >= 2 ==> cmp(e[hole / 2], e[i]) >= 0)
  }

  ghost predicate Ordered(cmp: Comparator, e: seq<Ptr>, size: int)
    requires 0 <= size < |e|
  {
    forall i :: 2 <= i <= size ==> cmp(e[i / 2], e[i]) >= 0
  }

  ghost function Items(e: seq<Ptr>, size: int): multiset<Ptr>
    requires 0 <= size < |e|
  {
    multiset(e[1..size + 1])
  }

  lemma EmptyItems(e: seq<Ptr>, size: int)
    requires 0 <= size < |e|
    ensures Items(e, size) == multiset{} <==> size == 0
  {
    assert |Items(e, size)| == size;
  }

  lemma SwappedItems(e: seq<Ptr>, size: int, i: int, j: int)
    requires 0 <= size < |e| && 1 <= i <= size && 1 <= j <= size
    ensures Items(Swapped(e, i, j), size) == Items(e, size)
  {
    assert Swapped(e, i, j)[1..size + 1] == e[1..size + 1][i - 1 := e[j]][j - 1 := e[i]];
  }

  lemma AtLeastTrans(cmp: Comparator, a: Ptr, b: Ptr, c: Ptr)
    requires TotalPreorder(cmp) && cmp(a, b) >= 0 && cmp(b, c) >= 0
    ensures cmp(a, c) >= 0
  {
    Flip(cmp, a, b);
    Flip(cmp, b, c);
    Flip(cmp, a, c);
    LessTrans(cmp, c, b, a);
  }

  // An element moves up past its parent.
  lemma UpStep(cmp: Comparator, e: seq<Ptr>, size: int, i: int)
    requires TotalPreorder(cmp) && 0 <= size < |e| && 2 <= i <= size && OrderedUp(cmp, e, size, i) &&
             cmp(e[i / 2], e[i]) < 0
    ensures OrderedUp(cmp, Swapped(e, i, i / 2), size, i / 2)
  {
    var p, e' := i / 2, Swapped(e, i, i / 2);
    Flip(cmp, e[p], e[i]);
    forall j | 2 <= j <= size && j != p
      ensures cmp(e'[j / 2], e'[j]) >= 0
    {
      if j / 2 == p && j != i {
        AtLeastTrans(cmp, e[i], e[p], e[j]);
      }
    }
    forall j | 2 <= j <= size && j / 2 == p && p >= 2
      ensures cmp(e'[p / 2], e'[j]) >= 0
    {
      if j != i {
        AtLeastTrans(cmp, e[p / 2], e[p], e[j]);
      }
    }
  }

  // An element moves down to its larger child c.
  lemma DownStep(cmp: Comparator, e: seq<Ptr>, size: int, i: int, c: int)
    requires TotalPreorder(cmp) && 0 <= size < |e| && 1 <= i <= size && OrderedDown(cmp, e, size, i)
    requires i < c <= size && c / 2 == i && cmp(e[c], e[i]) > 0
    requires forall j :: 2 <= j <= size && j / 2 == i ==> cmp(e[c], e[j]) >= 0
    ensures OrderedDown(cmp, Swapped(e, i, c), size, c)
  {
    var e' := Swapped(e, i, c);
    forall j | 2 <= j <= size && j / 2 != c
      ensures cmp(e'[j / 2], e'[j]) >= 0
    {
    }
    forall j | 2 <= j <= size && j / 2 == c
      ensures cmp(e'[c / 2], e'[j]) >= 0
    {
      assert j != i && j != c;
    }
  }

  // The first element of a heap is a largest one.
  lemma {:induction false} RootIsLargest(cmp: Comparator, e: seq<Ptr>, size: int, i: int)
    requires TotalPreorder(cmp) && 0 <= size < |e| && Ordered(cmp, e, size) && 1 <= i <= size
    ensures cmp(e[1], e[i]) >= 0
    decreases i
  {
    if i == 1 {
      Flip(cmp, e[1], e[1]);
    } else {
      RootIsLargest(cmp, e, size, i / 2);
      AtLeastTrans(cmp, e[1], e[i / 2], e[i]);
    }
  }

  class Heap {
    var elements: array<Ptr>
    var size: int
    var capacity: int
    const cmp: Comparator

    ghost predicate Shape()
      reads this
    {
      TotalPreorder(cmp) && elements.Length == capacity && 0 <= size < capacity
    }

    ghost predicate Valid()
      reads this, elements
    {
      Shape() && Ordered(cmp, elements[..], size)
    }

    ghost function Contents(): multiset<Ptr>
      requires Shape()
      reads this, elements
    {
      Items(elements[..], size)
    }

    // heap_alloc
    constructor (initCapacity: int, cmp: Comparator)
      requires TotalPreorder(cmp)
      ensures Valid() && Contents() == multiset{} && fresh(elements) && this.cmp == cmp
      ensures capacity == if initCapacity > 0 then initCapacity else 1
    {
      var n := if initCapacity > 0 then initCapacity else 1;
      elements := new Ptr[n];
      size := 0;
      capacity := n;
      this.cmp := cmp;
    }

    method Swap(i: int, j: int)
      requires Shape() && 1 <= i <= size && 1 <= j <= size
      modifies elements
      ensures elements[..] == Swapped(old(elements[..]), i, j) && Contents() == old(Contents())
    {
      SwappedItems(elements[..], size, i, j);
      elements[i], elements[j] := elements[j], elements[i];
      assert elements[..] == Swapped(old(elements[..]), i, j);
    }

    // siftUp
    method SiftUp(startIndex: int)
      requires Shape() && 1 <= startIndex <= size && OrderedUp(cmp, elements[..], size, startIndex)
      modifies elements
      ensures Valid() && Contents() == old(Contents())
    {
      hide OrderedUp, Items, Swapped;
      var index := startIndex;
      while index > 1
        invariant 1 <= index <= size && OrderedUp(cmp, elements[..], size, index) && Contents() == old(Contents())
      {
        var parentIndex := index / 2;
        if cmp(elements[parentIndex], elements[index]) >= 0 {
          break;
        }
        UpStep(cmp, elements[..], size, index);
        Swap(index, parentIndex);
        index := parentIndex;
      }
      UpDone(cmp, elements[..], size, index);
    }

    // heapify
    method Heapify(startIndex: int)
      requires Shape() && 1 <= startIndex && (size >= 1 ==> startIndex <= size) &&
               OrderedDown(cmp, elements[..], size, startIndex)
      modifies elements
      ensures Valid() && Contents() == old(Contents())
    {
      hide OrderedDown, Items, Swapped;
      var index := startIndex;
      while true
        invariant 1 <= index && (size >= 1 ==> index <= size)
        invariant OrderedDown(cmp, elements[..], size, index) && Contents() == old(Contents())
        decreases size + 1 - index
      {
        var leftIndex := 2 * index;
        var rightIndex := 2 * index + 1;
        var maxIndex := if leftIndex <= size && cmp(elements[leftIndex], elements[index]) > 0 then leftIndex else index;
        if rightIndex <= size && cmp(elements[rightIndex], elements[maxIndex]) > 0 {
          maxIndex := rightIndex;
        }
        LargestOfThree(cmp, elements[..], size, index, maxIndex);
        if maxIndex == index {
          DownDone(cmp, elements[..], size, index);
          break;
        } else {
          DownStep(cmp, elements[..], size, index, maxIndex);
          Swap(index, maxIndex);
          index := maxIndex;
        }
      }
    }

    // heap_insert: the array doubles when it is about to be full.
    method Insert(data: Ptr) returns (ok: bool)
      requires Valid()
      modifies this, elements
      ensures Valid() && ok && Contents() == old(Contents()) + multiset{data}
      ensures capacity == old(capacity) * (if old(size) + 1 >= old(capacity) then 2 else 1)
      ensures elements == old(elements) || fresh(elements)
    {
      hide Ordered, OrderedUp, Items;
      ghost var e := elements[..];
      if size + 1 >= capacity {
        Grow();
      }
      size := size + 1;
      elements[size] := data;
      assert e[..size] == elements[..][..size];
      InsertReady(cmp, e, elements[..], size - 1, data);
      SiftUp(size);
      ok := true;
    }

    method Grow()
      requires Shape()
      modifies `elements, `capacity
      ensures Shape() && fresh(elements) && capacity == old(capacity) * 2
      ensures elements[..size + 1] == old(elements[..size + 1])
    {
      var size0 := size;
      var newCapacity := capacity * 2;
      var newElements := new Ptr[newCapacity];
      var i := 0;
      while i <= size0
        invariant 0 <= i <= size0 + 1 && newElements[..i] == elements[..i]
        modifies newElements
      {
        newElements[i] := elements[i];
        i := i + 1;
      }
      capacity := newCapacity;
      elements := newElements;
    }

    // heap_remove: a largest element, NULL when there is none.
    method Remove() returns (data: Ptr)
      requires Valid()
      modifies this, elements
      ensures Valid() && elements == old(elements)
      ensures old(Contents()) == multiset{} ==> data == NULL && Contents() == multiset{}
      ensures old(Contents()) != multiset{} ==>
                && data in old(Contents()) && Contents() == old(Contents()) - multiset{data}
                && forall x :: x in old(Contents()) ==> cmp(data, x) >= 0
    {
      hide Ordered, OrderedDown, Items;
      EmptyItems(elements[..], size);
      if size < 1 {
        return NULL;
      }
      RemoveReady(cmp, elements[..], size);
      ghost var e := elements[..];
      data := elements[1];
      elements[1] := elements[size];
      assert elements[..] == e[1 := e[size]];
      size := size - 1;
      Heapify(1);
    }

    // heap_isValid
    method IsValid() returns (valid: bool)
      requires Shape()
      ensures valid <==> Valid()
    {
      var i := 1;
      while i < size
        invariant 1 <= i <= (if size >= 1 then size else 1)
        invariant forall j :: 2 <= j <= i ==> cmp(elements[j / 2], elements[j]) >= 0
      {
        Flip(cmp, elements[i + 1], elements[(i + 1) / 2]);
        if cmp(elements[i + 1], elements[(i + 1) / 2]) > 0 {
          return false;
        }
        i := i + 1;
      }
      return true;
    }
  }

  // In order from the largest down, and nothing in m is larger than any of it.
  ghost predicate Descending(cmp: Comparator, s: seq<Ptr>, m: multiset<Ptr>) {
    && (forall i, j :: 0 <= i < j < |s| ==> cmp(s[i], s[j]) >= 0)
    && (forall i, x :: 0 <= i < |s| && x in m ==> cmp(s[i], x) >= 0)
  }

  lemma NextLargest(cmp: Comparator, s: seq<Ptr>, m: multiset<Ptr>, data: Ptr)
    requires Descending(cmp, s, m) && data in m && forall x :: x in m ==> cmp(data, x) >= 0
    ensures Descending(cmp, s + [data], m - multiset{data})
    ensures multiset(s + [data]) + (m - multiset{data}) == multiset(s) + m
  {
  }

  // Removing until nothing is left gives the elements from the largest down.
  method Drain(heap: Heap) returns (s: seq<Ptr>)
    requires heap.Valid()
    modifies heap, heap.elements
    ensures multiset(s) == old(heap.Contents()) && heap.Valid() && heap.Contents() == multiset{}
    ensures forall i, j :: 0 <= i < j < |s| ==> heap.cmp(s[i], s[j]) >= 0
  {
    hide Ordered, Items;
    s := [];
    EmptyItems(heap.elements[..], heap.size);
    while heap.size > 0
      invariant heap.Valid() && heap.elements == old(heap.elements)
      invariant multiset(s) + heap.Contents() == old(heap.Contents())
      invariant heap.Contents() == multiset{} <==> heap.size == 0
      invariant Descending(heap.cmp, s, heap.Contents())
      decreases |heap.Contents()|
    {
      ghost var m := heap.Contents();
      var data := heap.Remove();
      hide Descending;
      NextLargest(heap.cmp, s, m, data);
      s := s + [data];
      EmptyItems(heap.elements[..], heap.size);
    }
  }

  lemma UpDone(cmp: Comparator, e: seq<Ptr>, size: int, i: int)
    requires 0 <= size < |e| && 1 <= i <= size && OrderedUp(cmp, e, size, i) && (i >= 2 ==> cmp(e[i / 2], e[i]) >= 0)
    ensures Ordered(cmp, e, size)
  {
  }

  lemma DownDone(cmp: Comparator, e: seq<Ptr>, size: int, i: int)
    requires 0 <= size < |e| && 1 <= i && OrderedDown(cmp, e, size, i)
    requires forall j :: 2 <= j <= size && j / 2 == i ==> cmp(e[i], e[j]) >= 0
    ensures Ordered(cmp, e, size)
  {
  }

  // The index that heapify's two tests select holds a largest of an element and its children.
  lemma LargestOfThree(cmp: Comparator, e: seq<Ptr>, size: int, i: int, m: int)
    requires TotalPreorder(cmp) && 0 <= size < |e| && 1 <= i && (size >= 1 ==> i <= size)
    requires var l := if 2 * i <= size && cmp(e[2 * i], e[i]) > 0 then 2 * i else i;
      m == if 2 * i + 1 <= size && cmp(e[2 * i + 1], e[l]) > 0 then 2 * i + 1 else l
    ensures m == i || (i < m <= size && m / 2 == i && cmp(e[m], e[i]) > 0)
    ensures size >= 1 ==> forall j :: 2 <= j <= size && j / 2 == i ==> cmp(e[m], e[j]) >= 0
  {
    var l := if 2 * i <= size && cmp(e[2 * i], e[i]) > 0 then 2 * i else i;
    assert (2 * i) / 2 == i && (2 * i + 1) / 2 == i;
    assert forall j :: j / 2 == i ==> j == 2 * i || j == 2 * i + 1;
    if size >= 1 {
      Flip(cmp, e[i], e[i]);
      if 2 * i <= size { Flip(cmp, e[2 * i], e[i]); Flip(cmp, e[2 * i], e[2 * i]); }
      if 2 * i + 1 <= size {
        Flip(cmp, e[2 * i + 1], e[l]);
        Flip(cmp, e[2 * i + 1], e[i]);
        Flip(cmp, e[2 * i + 1], e[2 * i]);
        Flip(cmp, e[2 * i + 1], e[2 * i + 1]);
        if l != i && cmp(e[2 * i + 1], e[l]) > 0 { LessTrans(cmp, e[i], e[l], e[2 * i + 1]); }
        if l == i && cmp(e[2 * i + 1], e[i]) > 0 { LessTrans(cmp, e[2 * i], e[i], e[2 * i + 1]); }
      }
    }
  }

  lemma InsertReady(cmp: Comparator, e: seq<Ptr>, e': seq<Ptr>, size: int, data: Ptr)
    requires 0 <= size && size + 1 < |e'| && size < |e| && Ordered(cmp, e, size)
    requires e'[..size + 1] == e[..size + 1] && e'[size + 1] == data
    ensures OrderedUp(cmp, e', size + 1, size + 1) && Items(e', size + 1) == Items(e, size) + multiset{data}
  {
    assert forall i :: 0 <= i <= size ==> e'[i] == e'[..size + 1][i] == e[..size + 1][i] == e[i];
    assert e'[1..size + 2] == e[1..size + 1] + [data];
  }

  lemma RemoveReady(cmp: Comparator, e: seq<Ptr>, size: int)
    requires TotalPreorder(cmp) && 1 <= size < |e| && Ordered(cmp, e, size)
    ensures var e' := e[1 := e[size]];
      OrderedDown(cmp, e', size - 1, 1) && Items(e', size - 1) == Items(e, size) - multiset{e[1]}
    ensures e[1] in Items(e, size) && forall x :: x in Items(e, size) ==> cmp(e[1], x) >= 0
  {
    var s, e' := e[1..size + 1], e[1 := e[size]];
    assert s[0] == e[1];
    forall x | x in s
      ensures cmp(e[1], x) >= 0
    {
      var k :| 0 <= k < |s| && s[k] == x;
      RootIsLargest(cmp, e, size, k + 1);
    }
    hide Ordered, TotalPreorder;
    LastToRoot(e, size);
  }

  lemma LastToRoot(e: seq<Ptr>, size: int)
    requires 1 <= size < |e|
    ensures Items(e[1 := e[size]], size - 1) == Items(e, size) - multiset{e[1]}
  {
    var e' := e[1 := e[size]];
    if size == 1 {
      assert e'[1..size] == [] && e[1..size + 1] == [e[1]];
    } else {
      var mid := e[2..size];
      assert e[1..size + 1] == [e[1]] + mid + [e[size]];
      assert e'[1..size] == [e[size]] + mid;
    }
  }
}
