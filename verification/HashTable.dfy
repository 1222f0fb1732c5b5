// hashtable.c: chained buckets of sorted lists, resized by rehashing, in the build
// with resizing and without the size field.
module HashTable {
  import opened Common
  import opened Compare
  import L = List

  type Pair = L.Pair
  type Hash = Ptr -> nat

  const DEFAULT_RESIZE_RATIO := 3
  const DEFAULT_GROWTH_FACTOR := 3

  // Keys that compare equal hash alike.
  ghost predicate Consistent(hash: Hash, cmp: Comparator) {
    forall a, b :: cmp(a, b) == 0 ==> hash(a) == hash(b)
  }

  // What a call comes to: its result, or the division by zero that ends the program.
  datatype Outcome<+T> = Returned(value: T) | DividedByZero

  // The bucket of key k among n.
  function Bucket(hash: Hash, k: Ptr, n: nat): Outcome<nat> {
    if n == 0 then DividedByZero else Returned(hash(k) % n)
  }

  // It is the number by which the hash is above a multiple of theirs.
  lemma BucketIs(hash: Hash, k: Ptr, n: nat, q: nat, i: nat)
    requires i < n && hash(k) == q * n + i
    ensures Bucket(hash, k, n) == Returned(i)
  {
    var h: nat := hash(k);
    RemainderLaw(h, n);
    MultipleBelow(h, n, h / n, h % n, q, i);
  }

  lemma RemainderLaw(h: nat, n: nat)
    requires n > 0
    ensures h == (h / n) * n + h % n && h % n < n
  {
  }

  lemma MultipleBelow(h: int, n: int, a: int, r: int, q: int, i: int)
    requires h == a * n + r == q * n + i && 0 <= r < n && 0 <= i < n
    ensures r == i
  {
    var d := a - q;
    assert d * n == i - r;
    assert d >= 1 ==> d * n >= n;
    assert d <= -1 ==> d * n <= -n;
  }

  // ---------------------------------------------------------------- rows of pairs

  // The rows one after the other.
  ghost function Flat(rows: seq<seq<Pair>>): seq<Pair> {
    if rows == [] then [] else Flat(rows[..|rows| - 1]) + rows[|rows| - 1]
  }

  lemma {:induction false} FlatSplit(rows: seq<seq<Pair>>, i: nat)
    requires i < |rows|
    ensures Flat(rows) == Flat(rows[..i]) + rows[i] + Flat(rows[i + 1..])
  {
    var n := |rows| - 1;
    if i == n {
      assert rows[i + 1..] == [];
    } else {
      FlatSplit(rows[..n], i);
      assert rows[..n][..i] == rows[..i] && rows[..n][i + 1..] == rows[i + 1..n];
      var back := rows[i + 1..];
      assert back[..|back| - 1] == rows[i + 1..n] && back[|back| - 1] == rows[n];
    }
  }

  // One row changes.
  lemma FlatUpdate(rows: seq<seq<Pair>>, i: nat, row: seq<Pair>)
    requires i < |rows|
    ensures Flat(rows[i := row]) == Flat(rows[..i]) + row + Flat(rows[i + 1..])
    ensures Flat(rows) == Flat(rows[..i]) + rows[i] + Flat(rows[i + 1..])
  {
    FlatSplit(rows, i);
    FlatSplit(rows[i := row], i);
    assert rows[i := row][..i] == rows[..i] && rows[i := row][i + 1..] == rows[i + 1..];
  }

  lemma {:induction false} FlatHas(rows: seq<seq<Pair>>, p: Pair)
    ensures p in Flat(rows) <==> exists i :: 0 <= i < |rows| && p in rows[i]
  {
    if rows != [] {
      var n := |rows| - 1;
      FlatHas(rows[..n], p);
      if i :| 0 <= i < |rows| && p in rows[i] {
        if i < n { assert p in rows[..n][i]; }
      }
    }
  }

  // Every pair is in the row its key hashes to; the last row is the dummy.
  ghost predicate Placed(rows: seq<seq<Pair>>, hash: Hash, n: int) {
    && n >= 0 && |rows| == n + 1 && rows[n] == []
    && forall i, p :: 0 <= i < n && p in rows[i] ==> hash(p.first) % n == i
  }

  ghost predicate SortedRows(rows: seq<seq<Pair>>, cmp: Comparator) {
    forall i :: 0 <= i < |rows| ==> L.Sorted(cmp, rows[i])
  }

  // A key is in the table exactly if it is in its row.
  lemma InItsRow(rows: seq<seq<Pair>>, hash: Hash, cmp: Comparator, n: int, k: Ptr)
    requires Placed(rows, hash, n) && Consistent(hash, cmp) && n >= 1
    ensures L.Has(cmp, Flat(rows), k) <==> L.Has(cmp, rows[hash(k) % n], k)
    ensures forall p :: p in Flat(rows) && cmp(p.first, k) == 0 ==> p in rows[hash(k) % n]
  {
    var j := hash(k) % n;
    forall p | p in Flat(rows) && cmp(p.first, k) == 0
      ensures p in rows[j]
    {
      FlatHas(rows, p);
    }
    forall p | p in rows[j]
      ensures p in Flat(rows)
    {
      FlatHas(rows, p);
    }
  }

  // No two pairs compare equal.
  ghost predicate KeysDistinct(cmp: Comparator, s: seq<Pair>) {
    forall i, j :: 0 <= i < j < |s| ==> cmp(s[i].first, s[j].first) != 0
  }

  lemma {:induction false} RowsDistinct(rows: seq<seq<Pair>>, hash: Hash, cmp: Comparator, n: int, k: nat)
    requires Placed(rows, hash, n) && Consistent(hash, cmp) && SortedRows(rows, cmp) && k <= |rows|
    ensures KeysDistinct(cmp, Flat(rows[..k]))
  {
    if k > 0 {
      RowsDistinct(rows, hash, cmp, n, k - 1);
      var a: seq<Pair>, b: seq<Pair> := Flat(rows[..k - 1]), rows[k - 1];
      assert rows[..k][..k - 1] == rows[..k - 1] && Flat(rows[..k]) == a + b;
      forall p, q | p in a && q in b
        ensures cmp(p.first, q.first) != 0
      {
        RowsApart(rows, hash, cmp, n, k, p, q);
      }
      hide Placed, Consistent, Flat;
      assert L.Sorted(cmp, b);
    }
  }

  lemma RowsApart(rows: seq<seq<Pair>>, hash: Hash, cmp: Comparator, n: int, k: nat, p: Pair, q: Pair)
    requires Placed(rows, hash, n) && Consistent(hash, cmp) && 0 < k <= |rows|
    requires p in Flat(rows[..k - 1]) && q in rows[k - 1]
    ensures cmp(p.first, q.first) != 0
  {
    FlatHas(rows[..k - 1], p);
    var x :| 0 <= x < k - 1 && p in rows[..k - 1][x];
    assert p in rows[x] && k - 1 < n;
    assert hash(p.first) % n == x && hash(q.first) % n == k - 1;
  }

  // ---------------------------------------------------------------- chains on the heap

  // The lists are valid and share no node; foot covers them all.
  ghost predicate Chains(bs: seq<L.List>, cmp: Comparator, foot: set<object>)
    reads foot
  {
    && (forall i :: 0 <= i < |bs| ==> bs[i] in foot && bs[i].Repr() <= foot && bs[i].Valid() && bs[i].cmp == cmp)
    && (forall i, j :: 0 <= i < j < |bs| ==> bs[i].Repr() !! bs[j].Repr())
  }

  ghost function Rows(bs: seq<L.List>, cmp: Comparator, foot: set<object>): (rows: seq<seq<Pair>>)
    requires Chains(bs, cmp, foot)
    reads foot
    ensures |rows| == |bs| && SortedRows(rows, cmp)
  {
    seq(|bs|, i requires 0 <= i < |bs| && Chains(bs, cmp, foot) reads foot => bs[i].Items())
  }

  // allocBuckets: one more list than asked for, the dummy.
  method AllocBuckets(numBucket: int, cmp: Comparator) returns (bs: seq<L.List>, ghost foot: set<object>)
    requires numBucket >= 0 && TotalPreorder(cmp)
    ensures |bs| == numBucket + 1 && Chains(bs, cmp, foot) && fresh(foot)
    ensures forall i :: 0 <= i < |bs| ==> Rows(bs, cmp, foot)[i] == []
  {
    hide L.List.Valid, L.List.Items, L.List.Repr;
    bs, foot := [], {};
    var i := 0;
    while i < numBucket + 1
      invariant 0 <= i <= numBucket + 1 && |bs| == i && Chains(bs, cmp, foot) && fresh(foot)
      invariant forall j :: 0 <= j < |bs| ==> bs[j].Items() == []
    {
      var chain := new L.List(cmp);
      bs := bs + [chain];
      foot := foot + chain.Repr();
      i := i + 1;
    }
  }

  // list_insert into one of the chains; the others are not touched.
  method InsertInto(bs: seq<L.List>, i: int, p: Pair, cmp: Comparator, ghost foot: set<object>)
    returns (ok: bool, ghost foot': set<object>)
    requires 0 <= i < |bs| && Chains(bs, cmp, foot)
    modifies foot
    ensures foot <= foot' && fresh(foot' - foot) && Chains(bs, cmp, foot')
    ensures ok <==> !L.Has(cmp, old(Rows(bs, cmp, foot))[i], p.first)
    ensures var was, rows := old(Rows(bs, cmp, foot)), Rows(bs, cmp, foot');
      && rows == was[i := rows[i]]
      && (if ok then L.InsertedInto(cmp, was[i], rows[i], p) else rows == was)
  {
    hide L.List.Valid, L.List.Items, L.List.Repr, L.Has, L.InsertedInto, L.RemovedFrom;
    ghost var was := Rows(bs, cmp, foot);
    ok := bs[i].Insert(p);
    foot' := foot + bs[i].Repr();
    forall j | 0 <= j < |bs| && j != i
      ensures bs[j].Repr() == old(bs[j].Repr()) && bs[j].Valid() && bs[j].Items() == was[j]
    {
      assert old(bs[j].Repr()) !! old(bs[i].Repr());
    }
    assert Chains(bs, cmp, foot');
    assert Rows(bs, cmp, foot') == was[i := bs[i].Items()];
  }

  method RemoveFrom(bs: seq<L.List>, i: int, k: Ptr, cmp: Comparator, ghost foot: set<object>) returns (ok: bool)
    requires 0 <= i < |bs| && Chains(bs, cmp, foot)
    modifies foot
    ensures Chains(bs, cmp, foot)
    ensures ok <==> L.Has(cmp, old(Rows(bs, cmp, foot))[i], k)
    ensures var was, rows := old(Rows(bs, cmp, foot)), Rows(bs, cmp, foot);
      && rows == was[i := rows[i]]
      && (if ok then L.RemovedFrom(cmp, was[i], rows[i], k) else rows == was)
  {
    hide L.List.Valid, L.List.Items, L.List.Repr, L.Has, L.InsertedInto, L.RemovedFrom;
    ghost var was := Rows(bs, cmp, foot);
    ok := bs[i].Remove(k);
    forall j | 0 <= j < |bs| && j != i
      ensures bs[j].Repr() == old(bs[j].Repr()) && bs[j].Valid() && bs[j].Items() == was[j]
    {
      assert old(bs[j].Repr()) !! old(bs[i].Repr());
    }
    assert Chains(bs, cmp, foot);
    assert Rows(bs, cmp, foot) == was[i := bs[i].Items()];
  }

  // ---------------------------------------------------------------- what the operations do to the contents

  lemma InsertedPairs(rows: seq<seq<Pair>>, i: int, row: seq<Pair>, cmp: Comparator, p: Pair)
    requires 0 <= i < |rows| && L.InsertedInto(cmp, rows[i], row, p)
    ensures multiset(Flat(rows[i := row])) == multiset(Flat(rows)) + multiset{p} &&
            |Flat(rows[i := row])| == |Flat(rows)| + 1
    ensures forall q :: q in row <==> q == p || q in rows[i]
  {
    FlatUpdate(rows, i, row);
    var x :| L.LowerBound(cmp, rows[i], p.first, x) && row == With(rows[i], x, p);
    hide Flat, L.LowerBound, L.InsertedInto, With;
    OneMore(Flat(rows[..i]), rows[i], x, p, Flat(rows[i + 1..]));
    forall q { WithHas(rows[i], x, p, q); }
  }

  lemma RemovedPairs(rows: seq<seq<Pair>>, i: int, row: seq<Pair>, cmp: Comparator, k: Ptr) returns (p: Pair)
    requires 0 <= i < |rows| && L.RemovedFrom(cmp, rows[i], row, k)
    ensures p in Flat(rows) && cmp(p.first, k) == 0
    ensures multiset(Flat(rows[i := row])) == multiset(Flat(rows)) - multiset{p} &&
            |Flat(rows[i := row])| == |Flat(rows)| - 1
    ensures forall q :: q in row ==> q in rows[i]
  {
    FlatUpdate(rows, i, row);
    var x :| L.FoundAt(cmp, rows[i], k, x) && row == Without(rows[i], x);
    hide Flat, L.RemovedFrom;
    p := rows[i][x];
    OneLess(Flat(rows[..i]), rows[i], x, Flat(rows[i + 1..]));
  }

  lemma {:induction false} AllEmpty(rows: seq<seq<Pair>>)
    requires forall i :: 0 <= i < |rows| ==> rows[i] == []
    ensures Flat(rows) == []
  {
    if rows != [] { AllEmpty(rows[..|rows| - 1]); }
  }

  lemma FlatNext(rows: seq<seq<Pair>>, i: nat)
    requires i < |rows|
    ensures Flat(rows[..i + 1]) == Flat(rows[..i]) + rows[i]
  {
    assert rows[..i + 1][..i] == rows[..i];
  }

  // What resizing is for: the size ratio.
  ghost predicate Bounded(size: int, numBucket: int, resizeRatio: int, growthFactor: int) {
    numBucket >= 1 && resizeRatio >= 1 && growthFactor >= 2 ==> size < numBucket * resizeRatio
  }

  lemma NotNegative(a: int, b: int)
    requires a >= 1
    ensures b >= 1 ==> a * b >= 1
  {
  }

  lemma StaysBounded(size: int, numBucket: int, resizeRatio: int, growthFactor: int)
    requires numBucket >= 1 && resizeRatio >= 0 && growthFactor >= 0 &&
             Bounded(size, numBucket, resizeRatio, growthFactor)
    ensures size + 1 >= numBucket * resizeRatio ==>
            Bounded(size + 1, numBucket * growthFactor, resizeRatio, growthFactor)
    ensures size + 1 < numBucket * resizeRatio ==> Bounded(size + 1, numBucket, resizeRatio, growthFactor)
    ensures growthFactor >= 1 ==> numBucket * growthFactor >= 1
  {
    if resizeRatio >= 1 && growthFactor >= 2 {
      var m := numBucket * resizeRatio;
      assert m >= 1;
      assert numBucket * growthFactor * resizeRatio == m * growthFactor >= m * 2;
    }
  }

  class HashTable {
    var buckets: seq<L.List>
    var numBucket: int
    const hash: Hash
    const cmp: Comparator
    const resizeRatio: int
    const growthFactor: int
    ghost var foot: set<object>

    ghost predicate Valid(): (v: bool)
      reads this, foot
      ensures v ==> Chains(buckets, cmp, foot)
    {
      && TotalPreorder(cmp) && Consistent(hash, cmp) && resizeRatio >= 0 && growthFactor >= 0
      && this !in foot && Chains(buckets, cmp, foot)
      && Placed(Rows(buckets, cmp, foot), hash, numBucket)
      && Bounded(|Contents()|, numBucket, resizeRatio, growthFactor)
    }

    ghost function Table(): seq<seq<Pair>>
      requires Chains(buckets, cmp, foot)
      reads this, foot
    {
      Rows(buckets, cmp, foot)
    }

    // All pairs, bucket by bucket.
    ghost function Contents(): seq<Pair>
      requires Chains(buckets, cmp, foot)
      reads this, foot
    {
      Flat(Rows(buckets, cmp, foot))
    }

    // hashtable_alloc: negative values select the defaults.
    constructor (initNumBucket: int, hash: Hash, cmp: Comparator, resizeRatio: int, growthFactor: int)
      requires TotalPreorder(cmp) && Consistent(hash, cmp) && initNumBucket >= 0
      ensures Valid() && Contents() == [] && numBucket == initNumBucket && fresh(foot)
      ensures this.hash == hash && this.cmp == cmp
      ensures this.resizeRatio == (if resizeRatio < 0 then 3 else resizeRatio)
      ensures this.growthFactor == (if growthFactor < 0 then 3 else growthFactor)
    {
      hide L.List.Valid, L.List.Items, L.List.Repr, L.Sorted, Consistent, TotalPreorder;
      var bs; ghost var f;
      bs, f := AllocBuckets(initNumBucket, cmp);
      AllEmpty(Rows(bs, cmp, f));
      if initNumBucket >= 1 {
        NotNegative(initNumBucket, if resizeRatio < 0 then DEFAULT_RESIZE_RATIO else resizeRatio);
      }
      hide Flat;
      buckets := bs;
      foot := f;
      numBucket := initNumBucket;
      this.hash := hash;
      this.cmp := cmp;
      this.resizeRatio := if resizeRatio < 0 then DEFAULT_RESIZE_RATIO else resizeRatio;
      this.growthFactor := if growthFactor < 0 then DEFAULT_GROWTH_FACTOR else growthFactor;
    }

    // hashtable_getSize
    method GetSize() returns (size: int)
      requires Valid()
      ensures size == |Contents()|
    {
      hide Valid, Rows, Flat, KeysDistinct, L.List.Valid, L.List.Items, L.List.Repr;
      size := 0;
      var i := 0;
      AllRows();
      while i < numBucket
        invariant 0 <= i <= numBucket && size == |Flat(Table()[..i])|
      {
        ChainFacts(i);
        var n := buckets[i].GetSize();
        size := size + n;
        i := i + 1;
      }
    }

    // hashtable_containsKey
    method ContainsKey(key: Ptr) returns (r: Outcome<bool>)
      requires Valid()
      ensures r == if numBucket == 0 then DividedByZero else Returned(L.Has(cmp, Contents(), key))
    {
      hide L.List.Valid, L.List.Items, L.List.Repr, L.Has, L.Sorted;
      var i := Bucket(hash, key, numBucket);
      if i.DividedByZero? {
        return DividedByZero;
      }
      InItsRow(Table(), hash, cmp, numBucket, key);
      var found, p := buckets[i.value].Find(key);
      return Returned(found);
    }

    // hashtable_find
    method Find(key: Ptr) returns (r: Outcome<Ptr>)
      requires Valid()
      ensures r.DividedByZero? <==> numBucket == 0
      ensures r.Returned? && !L.Has(cmp, Contents(), key) ==> r.value == NULL
      ensures forall p :: r.Returned? && p in Contents() && cmp(p.first, key) == 0 ==> r.value == p.second
    {
      hide L.List.Valid, L.List.Items, L.List.Repr, L.Sorted;
      var i := Bucket(hash, key, numBucket);
      if i.DividedByZero? {
        return DividedByZero;
      }
      InItsRow(Table(), hash, cmp, numBucket, key);
      var found, p := buckets[i.value].Find(key);
      if !found {
        return Returned(NULL);
      }
      OnlyPair(cmp, Table()[i.value], key);
      return Returned(p.second);
    }

    // The n buckets hold exactly the pairs of s, each where its key hashes to.
    ghost predicate Holds(bs: seq<L.List>, n: int, f: set<object>, s: seq<Pair>)
      reads this, f
    {
      Chains(bs, cmp, f) && Placed(Rows(bs, cmp, f), hash, n) && multiset(Flat(Rows(bs, cmp, f))) == multiset(s)
    }

    // rehash: every pair goes to its bucket in a new array of lists. No list refuses
    // one, for no two of the table's pairs compare equal. With a growth factor of zero
    // the first pair met is divided by no buckets.
    method Rehash() returns (r: Outcome<bool>, newBuckets: seq<L.List>, ghost f: set<object>)
      requires Valid()
      ensures r.DividedByZero? <==> growthFactor * numBucket == 0 && Contents() != []
      ensures r.Returned? ==> r.value && fresh(f) && Holds(newBuckets, growthFactor * numBucket, f, Contents())
    {
      hide Valid, Holds, Rows, Flat, KeysDistinct, TotalPreorder, L.List.Valid, L.List.Items, L.List.Repr;
      var newNumBucket := growthFactor * numBucket;
      SomeBuckets();
      newBuckets, f := EmptyBuckets(newNumBucket);
      r := Returned(true);
      var i := 0;
      AllRows();
      while i < numBucket
        invariant 0 <= i <= numBucket < |Table()| && Valid() && fresh(f) && r == Returned(true)
        invariant Holds(newBuckets, newNumBucket, f, Flat(Table()[..i]))
        invariant newNumBucket == 0 ==> Flat(Table()[..i]) == []
      {
        ChainFacts(i);
        r, f := Transfer(newBuckets, newNumBucket, i, f);
        if r.DividedByZero? {
          return;
        }
        i := i + 1;
      }
    }

    method EmptyBuckets(n: int) returns (bs: seq<L.List>, ghost f: set<object>)
      requires TotalPreorder(cmp) && n >= 0
      ensures fresh(f) && Holds(bs, n, f, [])
    {
      hide L.List.Valid, L.List.Items, L.List.Repr, L.Sorted, Placed;
      bs, f := AllocBuckets(n, cmp);
      EmptyPlaced(Rows(bs, cmp, f), hash, n);
    }

    lemma SomeBuckets()
      requires Valid()
      ensures 0 <= numBucket == |buckets| - 1 && growthFactor * numBucket >= 0 && TotalPreorder(cmp) && this !in foot
      ensures growthFactor >= 1 && numBucket >= 1 ==> growthFactor * numBucket >= 1
    {
      if growthFactor >= 1 { NotNegative(growthFactor, numBucket); }
    }

    lemma AllRows()
      requires Valid()
      ensures 0 <= numBucket == |Table()| - 1
      ensures Flat(Table()[..numBucket]) == Contents() && Flat(Table()[..0]) == []
    {
      FlatNext(Table(), numBucket);
      assert Table()[..numBucket + 1] == Table();
    }

    // What the table knows of one of its chains.
    lemma ChainFacts(i: int)
      requires Valid() && 0 <= i < numBucket
      ensures |buckets| == numBucket + 1 && |Table()| == numBucket + 1
      ensures buckets[i].Valid() && buckets[i].Repr() <= foot && buckets[i].Items() == Table()[i]
      ensures KeysDistinct(cmp, Flat(Table()[..i]) + Table()[i])
      ensures Flat(Table()[..i + 1]) == Flat(Table()[..i]) + Table()[i]
      ensures |Table()[i]| <= |Contents()|
    {
      hide L.List.Valid, L.List.Items, L.List.Repr, L.Sorted, KeysDistinct, Flat;
      RowsDistinct(Table(), hash, cmp, numBucket, i + 1);
      FlatNext(Table(), i);
      FlatSplit(Table(), i);
    }

    // One chain of the old table moves over.
    method Transfer(newBuckets: seq<L.List>, n: int, i: int, ghost f0: set<object>)
      returns (r: Outcome<bool>, ghost f: set<object>)
      requires Valid() && 0 <= i < numBucket < |Table()| && f0 !! foot && this !in f0 && n >= 0
      requires Holds(newBuckets, n, f0, Flat(Table()[..i]))
      modifies f0
      ensures r.DividedByZero? <==> n == 0 && Table()[i] != []
      ensures r.Returned? ==> r.value && f0 <= f && fresh(f - f0)
      ensures r.Returned? ==> Holds(newBuckets, n, f, Flat(Table()[..i + 1]))
    {
      hide Valid, Chains, Rows, Holds, Flat, KeysDistinct, L.List.Valid, L.List.Items, L.List.Repr;
      ChainFacts(i);
      r, f := TransferList(newBuckets, n, buckets[i], f0, Flat(Table()[..i]));
    }

    // All pairs of a list move over, after those of s.
    method TransferList(newBuckets: seq<L.List>, n: int, chain: L.List, ghost f0: set<object>, ghost s: seq<Pair>)
      returns (r: Outcome<bool>, ghost f: set<object>)
      requires chain.Valid() && chain.Repr() !! f0 && this !in f0 && n >= 0
      requires Holds(newBuckets, n, f0, s) && KeysDistinct(cmp, s + chain.Items())
      modifies f0
      ensures r.DividedByZero? <==> n == 0 && old(chain.Items()) != []
      ensures r.Returned? ==> r.value && f0 <= f && fresh(f - f0)
      ensures r.Returned? ==> Holds(newBuckets, n, f, s + old(chain.Items()))
    {
      hide Holds, KeysDistinct, L.List.Valid, L.List.Items, L.List.Repr, L.List.IterAt;
      f := f0;
      r := Returned(true);
      ghost var row := chain.Items();
      var it := chain.IterReset();
      ghost var j := 0;
      var more := chain.IterHasNext(it, j);
      assert s + row[..0] == s;
      while more
        invariant 0 <= j <= |row| && chain.Valid() && chain.IterAt(it, j) && (more <==> j < |row|)
        invariant f0 <= f && fresh(f - f0) && chain.Items() == row && chain.Repr() == old(chain.Repr())
        invariant Holds(newBuckets, n, f, s + row[..j]) && r == Returned(true) && (n == 0 ==> j == 0)
        decreases |row| - j
      {
        var transfer;
        it, transfer := chain.IterNext(it, j);
        r, f := Place(newBuckets, n, transfer, f, s, row, j);
        if r.DividedByZero? {
          return;
        }
        j := j + 1;
        more := chain.IterHasNext(it, j);
      }
      assert row[..j] == row;
    }

    method Place(newBuckets: seq<L.List>, n: int, p: Pair, ghost f0: set<object>,
                 ghost before: seq<Pair>, ghost row: seq<Pair>, ghost j: int)
      returns (r: Outcome<bool>, ghost f: set<object>)
      requires 0 <= j < |row| && p == row[j] && KeysDistinct(cmp, before + row) && this !in f0 && n >= 0
      requires Holds(newBuckets, n, f0, before + row[..j])
      modifies f0
      ensures r.DividedByZero? <==> n == 0
      ensures r.Returned? ==> r.value && f0 <= f && fresh(f - f0)
      ensures r.Returned? ==> Holds(newBuckets, n, f, before + row[..j + 1])
    {
      hide Chains, Rows, Flat, Placed, KeysDistinct, L.Has, L.InsertedInto, L.Sorted;
      f := f0;
      var b := Bucket(hash, p.first, n);
      if b.DividedByZero? {
        return DividedByZero, f;
      }
      ghost var rows := Rows(newBuckets, cmp, f0);
      NotYetThere(rows, before, row, j, cmp);
      PlacedLength(rows, hash, n);
      var ok;
      ok, f := InsertInto(newBuckets, b.value, p, cmp, f0);
      r := Returned(ok);
      InsertedPairs(rows, b.value, Rows(newBuckets, cmp, f)[b.value], cmp, p);
      InsertPlaced(rows, hash, n, b.value, Rows(newBuckets, cmp, f)[b.value], p);
      assert before + row[..j + 1] == before + row[..j] + [p];
    }

    // hashtable_insert, with the resizing that keeps the size ratio. It divides by zero
    // if there is no bucket, and if a growth factor of zero leaves none.
    method Insert(key: Ptr, data: Ptr) returns (r: Outcome<bool>)
      requires Valid()
      modifies this, foot
      ensures r.DividedByZero? <==>
                || old(numBucket) == 0
                || (growthFactor == 0 && !L.Has(cmp, old(Contents()), key)
                    && |old(Contents())| + 1 >= old(numBucket) * resizeRatio)
      ensures r.Returned? ==> Valid() && fresh(foot - old(foot)) && r.value == !L.Has(cmp, old(Contents()), key)
      ensures r == Returned(true) ==> multiset(Contents()) == multiset(old(Contents())) + multiset{L.Pair(key, data)}
      ensures r == Returned(false) ==> unchanged(this) && unchanged(old(foot))
      ensures r == Returned(true) ==>
                numBucket == if |old(Contents())| + 1 >= old(numBucket) * resizeRatio
                             then old(numBucket) * growthFactor else old(numBucket)
    {
      hide L.Has, Flat, Placed, Bounded, Chains, Rows, L.Sorted;
      SomeBuckets();
      var found := ContainsKey(key);
      if found != Returned(false) {
        return if found.Returned? then Returned(false) else DividedByZero;
      }
      var newSize := GetSize();
      newSize := newSize + 1;
      StaysBounded(newSize - 1, numBucket, resizeRatio, growthFactor);
      ghost var before := Contents();
      if newSize >= numBucket * resizeRatio {
        var grown := Grow();
        if grown.DividedByZero? {
          return DividedByZero;
        }
        SamePairs(cmp, before, Contents(), key);
      }
      var i := Bucket(hash, key, numBucket);
      if i.DividedByZero? {
        return DividedByZero;
      }
      AddEntry(i.value, key, data);
      return Returned(true);
    }

    // Everything Valid says but the size ratio.
    ghost predicate Sound()
      reads this, foot
    {
      && TotalPreorder(cmp) && Consistent(hash, cmp) && resizeRatio >= 0 && growthFactor >= 0
      && this !in foot && Chains(buckets, cmp, foot)
      && Placed(Rows(buckets, cmp, foot), hash, numBucket)
    }

    method Grow() returns (r: Outcome<bool>)
      requires Valid()
      modifies this
      ensures r.DividedByZero? <==> growthFactor * old(numBucket) == 0 && old(Contents()) != []
      ensures r.Returned? ==> Sound() && fresh(foot) && numBucket == old(numBucket) * growthFactor >= 0
      ensures r.Returned? ==> multiset(Contents()) == multiset(old(Contents()))
    {
      hide Flat, Placed, Bounded, Chains, Rows, L.Sorted;
      SomeBuckets();
      var newBuckets; ghost var f;
      r, newBuckets, f := Rehash();
      if r.DividedByZero? {
        return;
      }
      assert r.value;
      numBucket := numBucket * growthFactor;
      buckets := newBuckets;
      foot := f;
    }

    method AddEntry(i: int, key: Ptr, data: Ptr)
      requires Sound() && numBucket >= 1 && i == hash(key) % numBucket && !L.Has(cmp, Contents(), key)
      modifies `foot, foot
      ensures Sound() && fresh(foot - old(foot))
      ensures multiset(Contents()) == multiset(old(Contents())) + multiset{L.Pair(key, data)}
      ensures |Contents()| == |old(Contents())| + 1
    {
      hide Flat, Placed, Bounded, Chains, Rows, L.Sorted, L.Has, L.InsertedInto, Consistent;
      ghost var rows := Table();
      InItsRow(rows, hash, cmp, numBucket, key);
      PlacedLength(rows, hash, numBucket);
      var p := L.Pair(key, data);
      ghost var f; var ok;
      ok, f := InsertInto(buckets, i, p, cmp, foot);
      assert ok;
      foot := f;
      InsertedPairs(rows, i, Table()[i], cmp, p);
      InsertPlaced(rows, hash, numBucket, i, Table()[i], p);
    }

    // hashtable_remove
    method Remove(key: Ptr) returns (r: Outcome<bool>)
      requires Valid()
      modifies foot
      ensures Valid() && (r.DividedByZero? <==> numBucket == 0)
      ensures r.Returned? ==> r.value == L.Has(cmp, old(Contents()), key)
      ensures r == Returned(true) ==>
                exists p :: p in old(Contents()) && cmp(p.first, key) == 0
                         && multiset(Contents()) == multiset(old(Contents())) - multiset{p}
      ensures r != Returned(true) ==> unchanged(old(foot))
    {
      hide Flat, Placed, Bounded, Chains, Rows, L.Sorted, L.Has, L.RemovedFrom, Consistent;
      ghost var rows := Table();
      PlacedLength(rows, hash, numBucket);
      var b := Bucket(hash, key, numBucket);
      if b.DividedByZero? {
        return DividedByZero;
      }
      var i := b.value;
      InItsRow(rows, hash, cmp, numBucket, key);
      var found, pair := InRow(i, key);
      if !found {
        return Returned(false);
      }
      var ok := RemoveFrom(buckets, i, key, cmp, foot);
      assert ok;
      ghost var p := RemovedPairs(rows, i, Table()[i], cmp, key);
      RemovePlaced(rows, hash, numBucket, i, Table()[i]);
      FewerBounded(|Flat(rows)|, |Contents()|, numBucket, resizeRatio, growthFactor);
      return Returned(true);
    }

    // list_find in one bucket.
    method InRow(i: int, key: Ptr) returns (found: bool, p: Pair)
      requires Chains(buckets, cmp, foot) && 0 <= i < |buckets|
      ensures found <==> L.Has(cmp, Table()[i], key)
    {
      found, p := buckets[i].Find(key);
    }
  }

  // A growth factor of zero divides by zero at the first insertion into a table of
  // one bucket, whatever the key.
  method GrowToNothing(hash: Hash, cmp: Comparator, key: Ptr, data: Ptr) returns (r: Outcome<bool>)
    requires TotalPreorder(cmp) && Consistent(hash, cmp)
    ensures r.DividedByZero?
  {
    var table := new HashTable(1, hash, cmp, 1, 0);
    r := table.Insert(key, data);
  }

  // In a sorted row at most one pair has the key.
  lemma OnlyPair(cmp: Comparator, s: seq<Pair>, k: Ptr)
    requires TotalPreorder(cmp) && L.Sorted(cmp, s)
    ensures forall p, q :: p in s && q in s && cmp(p.first, k) == 0 && cmp(q.first, k) == 0 ==> p == q
  {
    forall i, j | 0 <= i < j < |s| && cmp(s[i].first, k) == 0
      ensures cmp(s[j].first, k) != 0
    {
      Flip(cmp, s[i].first, k);
      Flip(cmp, s[j].first, k);
      LessTrans(cmp, k, s[i].first, s[j].first);
    }
  }

  lemma EmptyPlaced(rows: seq<seq<Pair>>, hash: Hash, n: int)
    requires n >= 0 && |rows| == n + 1 && forall i :: 0 <= i < |rows| ==> rows[i] == []
    ensures Placed(rows, hash, n) && Flat(rows) == []
  {
    AllEmpty(rows);
  }

  lemma PlacedLength(rows: seq<seq<Pair>>, hash: Hash, n: int)
    requires Placed(rows, hash, n)
    ensures n >= 0 && |rows| == n + 1
  {
  }

  lemma InsertPlaced(rows: seq<seq<Pair>>, hash: Hash, n: int, b: int, row: seq<Pair>, p: Pair)
    requires Placed(rows, hash, n) && 0 <= b < n && b == hash(p.first) % n
    requires forall q :: q in row ==> q == p || q in rows[b]
    ensures Placed(rows[b := row], hash, n)
  {
  }

  // A pair still to be moved has no equal among those moved before it.
  lemma NotYetThere(rows: seq<seq<Pair>>, before: seq<Pair>, row: seq<Pair>, j: int, cmp: Comparator)
    requires 0 <= j < |row| && KeysDistinct(cmp, before + row) && multiset(Flat(rows)) == multiset(before + row[..j])
    ensures forall b :: 0 <= b < |rows| ==> !L.Has(cmp, rows[b], row[j].first)
  {
    var s := before + row;
    assert s[|before| + j] == row[j];
    forall b, q | 0 <= b < |rows| && q in rows[b]
      ensures cmp(q.first, row[j].first) != 0
    {
      FlatHas(rows, q);
      assert q in multiset(Flat(rows));
      assert q in before + row[..j];
      var x :| 0 <= x < |before| + j && (before + row[..j])[x] == q;
      assert s[x] == q;
    }
  }

  lemma RemovePlaced(rows: seq<seq<Pair>>, hash: Hash, n: int, b: int, row: seq<Pair>)
    requires Placed(rows, hash, n) && 0 <= b < n && forall q :: q in row ==> q in rows[b]
    ensures Placed(rows[b := row], hash, n)
  {
  }

  lemma FewerBounded(size: int, size': int, numBucket: int, resizeRatio: int, growthFactor: int)
    requires size' <= size && Bounded(size, numBucket, resizeRatio, growthFactor)
    ensures Bounded(size', numBucket, resizeRatio, growthFactor)
  {
  }

  lemma SamePairs(cmp: Comparator, s: seq<Pair>, s': seq<Pair>, k: Ptr)
    requires multiset(s) == multiset(s')
    ensures |s| == |s'| && (L.Has(cmp, s, k) <==> L.Has(cmp, s', k))
  {
    assert |multiset(s)| == |s| && |multiset(s')| == |s'|;
    forall p
      ensures p in s <==> p in s'
    {
      assert p in s <==> p in multiset(s);
      assert p in s' <==> p in multiset(s');
    }
  }
}
