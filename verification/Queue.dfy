// queue.c: a growing ring buffer. One slot stays free, so pop and push never meet.
module Queue {
  import opened Common
  import opened Compare
  import opened MersenneTwister

  const GROWTH_FACTOR := 2

  // i modulo n, for indices that wrap around at most once.
  function Wrap(i: int, n: int): int {
    if i < n then i else i - n
  }

  lemma WrapIsModulo(i: int, n: int)
    requires 0 <= i < 2 * n
    ensures i % n == Wrap(i, n)
  {
    if i >= n {
      assert i == (i - n) + n * 1;
    }
  }

  lemma RingIndex(i: int, n: int)
    requires 0 <= i < 2 * n
    ensures i % n == Wrap(i, n) && 0 <= Wrap(i, n) < n
  {
    WrapIsModulo(i, n);
  }

  // The elements after position pop up to before position push.
  ghost function Ring(e: seq<Ptr>, pop: int, push: int): (s: seq<Ptr>)
    requires 0 <= pop < |e| && 0 <= push < |e| && pop != push
    ensures |s| == Held(|e|, pop, push)
  {
    seq(Held(|e|, pop, push), i requires 0 <= i < Held(|e|, pop, push) => e[Wrap(pop + 1 + i, |e|)])
  }

  ghost function Held(n: int, pop: int, push: int): nat
    requires 0 <= pop < n && 0 <= push < n && pop != push
  {
    if pop < push then push - pop - 1 else push + n - pop - 1
  }

  // What the first rounds of a shuffle make of s, with the outputs from the d-th on:
  // each round swaps two places, the two next outputs modulo the length.
  ghost function Shuffled(s: seq<Ptr>, seed: Word, d: nat, rounds: nat): (s': seq<Ptr>)
    ensures |s'| == |s|
  {
    if rounds == 0 || s == [] then s
    else
      var i := rounds - 1;
      Swapped(Shuffled(s, seed, d, i), Output(seed, d + 2 * i) as int % |s|, Output(seed, d + 2 * i + 1) as int % |s|)
  }

  lemma NotShuffled(s: seq<Ptr>, seed: Word, d: nat)
    ensures Shuffled(s, seed, d, 0) == s
  {
  }

  lemma {:induction false} ShuffledSame(s: seq<Ptr>, seed: Word, d: nat, rounds: nat)
    ensures multiset(Shuffled(s, seed, d, rounds)) == multiset(s)
  {
    hide Output, Swapped;
    if rounds > 0 && s != [] {
      var i := rounds - 1;
      ShuffledSame(s, seed, d, i);
      SwappedSame(Shuffled(s, seed, d, i), Output(seed, d + 2 * i) as int % |s|,
                  Output(seed, d + 2 * i + 1) as int % |s|);
    }
  }

  lemma HeldIs(n: int, pop: int, push: int)
    requires 0 <= pop < n && 0 <= push < n && pop != push
    ensures Held(n, pop, push) == (if pop < push then push - (pop + 1) else n - (pop - push + 1))
    ensures 0 <= Held(n, pop, push) < n
  {
  }

  // Swapping two slots of the ring swaps two elements of the queue.
  lemma RingSwap(e: seq<Ptr>, pop: int, push: int, i: int, j: int)
    requires 0 <= pop < |e| && 0 <= push < |e| && pop != push
    requires 0 <= i < Held(|e|, pop, push) && 0 <= j < Held(|e|, pop, push)
    ensures var x, y := Wrap(pop + 1 + i, |e|), Wrap(pop + 1 + j, |e|);
      0 <= x < |e| && 0 <= y < |e| && Ring(Swapped(e, x, y), pop, push) == Swapped(Ring(e, pop, push), i, j)
  {
    var x, y := Wrap(pop + 1 + i, |e|), Wrap(pop + 1 + j, |e|);
    var a, b := Ring(Swapped(e, x, y), pop, push), Swapped(Ring(e, pop, push), i, j);
    forall k | 0 <= k < |a|
      ensures a[k] == b[k]
    {
      var z := Wrap(pop + 1 + k, |e|);
      assert (z == x <==> k == i) && (z == y <==> k == j);
    }
  }

  // Taking the first element.
  lemma RingPop(e: seq<Ptr>, pop: int, push: int)
    requires 0 <= pop < |e| && 0 <= push < |e| && pop != push
    ensures Ring(e, pop, push) == [] <==> Wrap(pop + 1, |e|) == push
    ensures Ring(e, pop, push) != [] ==>
              && Ring(e, pop, push)[0] == e[Wrap(pop + 1, |e|)]
              && Ring(e, Wrap(pop + 1, |e|), push) == Ring(e, pop, push)[1..]
  {
    if Ring(e, pop, push) != [] {
      var a, b := Ring(e, Wrap(pop + 1, |e|), push), Ring(e, pop, push)[1..];
      forall k | 0 <= k < |a|
        ensures a[k] == b[k]
      {
        assert Wrap(Wrap(pop + 1, |e|) + 1 + k, |e|) == Wrap(pop + 1 + (k + 1), |e|);
      }
    }
  }

  // Adding a last element.
  lemma RingPush(e: seq<Ptr>, pop: int, push: int, x: Ptr)
    requires 0 <= pop < |e| && 0 <= push < |e| && pop != push && Wrap(push + 1, |e|) != pop
    ensures Ring(e[push := x], pop, Wrap(push + 1, |e|)) == Ring(e, pop, push) + [x]
  {
    var a, b := Ring(e[push := x], pop, Wrap(push + 1, |e|)), Ring(e, pop, push) + [x];
    forall k | 0 <= k < |a|
      ensures a[k] == b[k]
    {
      assert Wrap(pop + 1 + k, |e|) == push <==> k == |a| - 1;
    }
  }

  // A buffer filled from the front.
  lemma RingFront(e: seq<Ptr>, push: int)
    requires 1 <= push < |e| - 1
    ensures Ring(e, |e| - 1, push) == e[..push]
  {
    RingSlices(e, |e| - 1, push);
  }

  lemma RingSlices(e: seq<Ptr>, pop: int, push: int)
    requires 0 <= pop < |e| && 0 <= push < |e| && pop != push
    ensures Ring(e, pop, push) == if pop < push then e[pop + 1..push] else e[pop + 1..|e|] + e[0..push]
  {
    var a, b := Ring(e, pop, push), if pop < push then e[pop + 1..push] else e[pop + 1..|e|] + e[0..push];
    forall k | 0 <= k < |a|
      ensures a[k] == b[k]
    {
      assert a[k] == e[Wrap(pop + 1 + k, |e|)];
      if pop < push {
        assert b[k] == e[pop + 1 + k];
      } else if k < |e| - pop - 1 {
        assert b[k] == e[pop + 1..|e|][k];
      } else {
        assert b[k] == e[0..push][k - (|e| - pop - 1)];
      }
    }
  }

  // random_generate(...) % n
  method Draw(random: Generator, n: int) returns (r: int)
    requires random.Valid() && n > 0
    modifies random, random.mt
    ensures random.Valid() && random.seed == old(random.seed) && random.Drawn() == old(random.Drawn()) + 1
    ensures r == Output(random.seed, old(random.Drawn())) as int % n && 0 <= r < n
  {
    hide Generator.Valid, Generator.Drawn, Output;
    var y := random.Generate();
    r := y as int % n;
  }

  class Queue {
    var pop: int
    var push: int
    var capacity: int
    var elements: array<Ptr>

    ghost predicate Valid()
      reads this
    {
      capacity >= 2 && elements.Length == capacity && 0 <= pop < capacity && 0 <= push < capacity && pop != push
    }

    // First in first.
    ghost function Contents(): seq<Ptr>
      requires Valid()
      reads this, elements
    {
      Ring(elements[..], pop, push)
    }

    // queue_alloc
    constructor (initCapacity: int)
      ensures Valid() && Contents() == [] && fresh(elements)
      ensures capacity == if initCapacity < 2 then 2 else initCapacity
    {
      var n := if initCapacity < 2 then 2 else initCapacity;
      elements := new Ptr[n];
      pop := n - 1;
      push := 0;
      capacity := n;
    }

    // queue_isEmpty
    method IsEmpty() returns (empty: bool)
      requires Valid()
      ensures empty <==> Contents() == []
    {
      WrapIsModulo(pop + 1, capacity);
      RingPop(elements[..], pop, push);
      empty := (pop + 1) % capacity == push;
    }

    // queue_clear
    method Clear()
      requires Valid()
      modifies `pop, `push
      ensures Valid() && Contents() == []
    {
      pop := capacity - 1;
      push := 0;
    }

    // queue_front: NULL when empty.
    method Front() returns (data: Ptr)
      requires Valid()
      ensures data == if Contents() == [] then NULL else Contents()[0]
    {
      WrapIsModulo(pop + 1, capacity);
      RingPop(elements[..], pop, push);
      hide Ring;
      var newPop := (pop + 1) % capacity;
      if newPop == push {
        return NULL;
      }
      data := elements[newPop];
    }

    // queue_pop: NULL when empty.
    method Pop() returns (data: Ptr)
      requires Valid()
      modifies `pop
      ensures Valid()
      ensures old(Contents()) == [] ==> data == NULL && Contents() == []
      ensures old(Contents()) != [] ==> data == old(Contents())[0] && Contents() == old(Contents())[1..]
    {
      WrapIsModulo(pop + 1, capacity);
      RingPop(elements[..], pop, push);
      hide Ring;
      var newPop := (pop + 1) % capacity;
      if newPop == push {
        return NULL;
      }
      data := elements[newPop];
      pop := newPop;
    }

    // queue_push: the buffer doubles when the last but one slot is about to be filled.
    method Push(data: Ptr) returns (ok: bool)
      requires Valid()
      modifies this, elements
      ensures Valid() && ok && Contents() == old(Contents()) + [data]
      ensures capacity == old(capacity) * (if |old(Contents())| + 2 == old(capacity) then 2 else 1)
      ensures elements == old(elements) || fresh(elements)
    {
      assert pop != push;
      WrapIsModulo(push + 1, capacity);
      var newPush := (push + 1) % capacity;
      var at := push;
      ghost var was := Contents();
      if newPush == pop {
        at := Grow();
        newPush := at + 1;
        RingFront(elements[..][at := data], newPush);
      } else {
        RingPush(elements[..], pop, push, data);
      }
      elements[at] := data;
      push := newPush;
      ok := true;
    }

    // The elements move in order to the front of a buffer twice as large.
    method Grow() returns (dst: int)
      requires Valid() && Wrap(push + 1, capacity) == pop
      modifies `elements, `pop, `capacity
      ensures capacity == old(capacity) * 2 && elements.Length == capacity && fresh(elements)
      ensures pop == capacity - 1 && dst == |old(Contents())| && dst + 1 < capacity
      ensures elements[..dst] == old(Contents())
    {
      hide Ring, Held;
      var pop0, push0, capacity0 := pop, push, capacity;
      var newCapacity := capacity0 * GROWTH_FACTOR;
      var newElements := new Ptr[newCapacity];
      ghost var s := Contents();
      ghost var e := elements[..];
      RingSlices(e, pop0, push0);
      hide Wrap;
      if pop0 < push0 {
        dst := CopyOut(newElements, pop0 + 1, push0, 0);
        assert elements[pop0 + 1..push0] == e[pop0 + 1..push0];
      } else {
        dst := CopyOut(newElements, pop0 + 1, capacity0, 0);
        assert elements[pop0 + 1..capacity0] == e[pop0 + 1..capacity0];
        dst := CopyOut(newElements, 0, push0, dst);
        assert elements[0..push0] == e[0..push0];
      }
      assert newElements[..dst] == s;
      elements := newElements;
      pop := newCapacity - 1;
      capacity := newCapacity;
    }

    // The slots src up to before end, copied to where dst says.
    method CopyOut(newElements: array<Ptr>, start: int, end: int, dst0: int) returns (dst: int)
      requires newElements != elements && 0 <= start <= end <= elements.Length && 0 <= dst0 &&
               dst0 + end - start <= newElements.Length
      modifies newElements
      ensures dst == dst0 + end - start
      ensures newElements[..dst] == old(newElements[..dst0]) + elements[start..end]
    {
      dst := dst0;
      var src := start;
      while src < end
        invariant start <= src <= end && dst == dst0 + src - start
        invariant newElements[..dst] == old(newElements[..dst0]) + elements[start..src]
      {
        newElements[dst] := elements[src];
        src, dst := src + 1, dst + 1;
      }
    }

    // queue_shuffle: as many swaps as there are elements, each of two places drawn.
    method Shuffle(random: Generator)
      requires Valid() && random.Valid() && random.mt as object != elements
      modifies elements, random, random.mt
      ensures Valid() && random.Valid() && random.seed == old(random.seed)
      ensures Contents() == Shuffled(old(Contents()), random.seed, old(random.Drawn()), |old(Contents())|)
      ensures multiset(Contents()) == multiset(old(Contents()))
      ensures random.Drawn() == old(random.Drawn()) + 2 * |old(Contents())|
    {
      hide Ring, Held, Generator.Valid, Generator.Drawn, Shuffled;
      var numElement := if pop < push then push - (pop + 1) else capacity - (pop - push + 1);
      var base := pop + 1;
      var i := 0;
      ghost var s, seed, d := Contents(), random.seed, random.Drawn();
      HeldIs(capacity, pop, push);
      NotShuffled(s, seed, d);
      while i < numElement
        invariant 0 <= i <= numElement == |Contents()| == |s| < capacity && random.Valid() && random.seed == seed
        invariant random.Drawn() == d + 2 * i
        invariant Contents() == Shuffled(s, seed, d, i)
      {
        Round(random, base, numElement, s, d, i);
        i := i + 1;
      }
      ShuffledSame(s, seed, d, i);
    }

    // One round of it, the i-th from 0.
    method Round(random: Generator, base: int, numElement: int, ghost s: seq<Ptr>, ghost d: nat, ghost i: nat)
      requires Valid() && random.Valid() && random.mt as object != elements
      requires base == pop + 1 && 0 < numElement == |Contents()| == |s| < capacity
      requires random.Drawn() == d + 2 * i && Contents() == Shuffled(s, random.seed, d, i)
      modifies elements, random, random.mt
      ensures Valid() && random.Valid() && random.seed == old(random.seed) && random.Drawn() == d + 2 * (i + 1)
      ensures Contents() == Shuffled(s, random.seed, d, i + 1)
    {
      hide Ring, Held, Generator.Valid, Generator.Drawn, Output, Swapped;
      var r1 := Draw(random, numElement);
      var r2 := Draw(random, numElement);
      SwapAt(base, r1, r2);
    }

    method SwapAt(base: int, r1: int, r2: int)
      requires Valid() && base == pop + 1 && 0 <= r1 < |Contents()| && 0 <= r2 < |Contents()| && |Contents()| < capacity
      modifies elements
      ensures Contents() == Swapped(old(Contents()), r1, r2) && multiset(Contents()) == multiset(old(Contents()))
    {
      hide Ring, Held, Wrap;
      RingIndex(base + r1, capacity);
      RingIndex(base + r2, capacity);
      RingSwap(elements[..], pop, push, r1, r2);
      SwappedSame(Contents(), r1, r2);
      var i1, i2 := (base + r1) % capacity, (base + r2) % capacity;
      var tmp := elements[i1];
      elements[i1] := elements[i2];
      elements[i2] := tmp;
      assert elements[..] == Swapped(old(elements[..]), i1, i2);
    }
  }
}
