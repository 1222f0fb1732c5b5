// hashtable.c, the iterators: a bucket and a list iterator in it, helped over the
// last bucket by the dummy.
module HashTableIterator {
  import opened Compare
  import L = List
  import opened HashTable

  class Iterator {
    var bucket: int
    var it: L.Node
    ghost var pos: int

    // index pairs of the table's contents lie behind the iterator.
    ghost predicate At(table: HashTable, index: int)
      reads this, table, table.foot
    {
      table.Valid() && this !in table.foot && InBucket(table, bucket, it, pos, index)
    }

    // hashtable_iter_reset
    constructor (table: HashTable)
      requires table.Valid()
      ensures At(table, 0)
    {
      hide L.List.Valid, L.List.Items, L.List.Repr, L.List.IterAt, L.Sorted, Placed, Bounded;
      table.SomeBuckets();
      Chain(table, 0);
      bucket := 0;
      it := table.buckets[0].head;
      pos := 0;
      new;
      FirstNode(table.buckets[0]);
    }

    // hashtable_iter_hasNext
    method HasNext(table: HashTable, ghost index: int) returns (more: bool)
      requires At(table, index)
      ensures index <= |table.Contents()| && (more <==> index < |table.Contents()|)
    {
      hide HashTable.Valid, L.List.Valid, L.List.Items, L.List.IterAt, Rows, InBucket;
      var b, i := bucket, it;
      ghost var p := pos;
      while b < table.numBucket
        invariant table.Valid() && InBucket(table, b, i, p, index)
        decreases table.numBucket - b
      {
        Unpack(table, b, i, p, index);
        var chain := table.buckets[b];
        more := chain.IterHasNext(i, p);
        if more {
          return;
        }
        i := table.buckets[b + 1].IterReset();
        NextBucket(table, b, p, index, i);
        b := b + 1;
        p := 0;
      }
      AtDummy(table, b, i, p, index);
      more := false;
    }

    // hashtable_iter_next: the data of the next pair, NULL if there is none.
    method Next(table: HashTable, ghost index: int) returns (data: Ptr)
      requires At(table, index)
      modifies this
      ensures index <= |table.Contents()|
      ensures if index < |table.Contents()| then data == table.Contents()[index].second && At(table, index + 1)
              else data == NULL && At(table, index)
    {
      hide HashTable.Valid, HashTable.Contents, L.List.Valid, L.List.Items, L.List.IterAt, Rows, InBucket;
      var b, i := bucket, it;
      ghost var p := pos;
      data := NULL;
      while b < table.numBucket
        invariant table.Valid() && InBucket(table, b, i, p, index) && data == NULL
        decreases table.numBucket - b
      {
        Unpack(table, b, i, p, index);
        var chain := table.buckets[b];
        var more := chain.IterHasNext(i, p);
        if more {
          var pair;
          i, pair := chain.IterNext(i, p);
          Advance(table, b, p, index, i);
          data := pair.second;
          Store(table, b, i, p + 1, index + 1);
          return;
        }
        i := table.buckets[b + 1].IterReset();
        NextBucket(table, b, p, index, i);
        b := b + 1;
        p := 0;
      }
      AtDummy(table, b, i, p, index);
      Store(table, b, i, p, index);
    }

    method Store(table: HashTable, b: int, i: L.Node, ghost p: int, ghost index: int)
      requires table.Valid() && this !in table.foot && InBucket(table, b, i, p, index)
      modifies this
      ensures At(table, index) && table.Valid() && table.Contents() == old(table.Contents())
    {
      hide HashTable.Valid, L.List.Valid, L.List.Items, L.List.IterAt, Rows;
      bucket, it, pos := b, i, p;
    }
  }

  ghost predicate InBucket(table: HashTable, b: int, it: L.Node, pos: int, index: int)
    requires table.Valid()
    reads table, table.foot
  {
    && 0 <= b <= table.numBucket && b < |table.buckets| && b <= |table.Table()|
    && table.buckets[b] in table.foot
    && table.buckets[b].IterAt(it, pos) && pos >= 0 && index == |Flat(table.Table()[..b])| + pos
  }

  lemma FirstNode(list: L.List)
    requires list.Valid()
    ensures list.IterAt(list.head, 0)
  {
  }

  // What the table knows of a bucket, the dummy included.
  lemma Chain(table: HashTable, b: int)
    requires table.Valid() && 0 <= b <= table.numBucket
    ensures |table.buckets| == |table.Table()| == table.numBucket + 1 && table.buckets[b] in table.foot
    ensures table.buckets[b].Valid() && table.buckets[b].Items() == table.Table()[b]
    ensures Flat(table.Table()[..b + 1]) == Flat(table.Table()[..b]) + table.Table()[b]
  {
    hide L.List.Valid, L.List.Items, L.List.Repr, L.Sorted, Flat;
    FlatNext(table.Table(), b);
  }

  lemma IndexInside(table: HashTable, b: int, pos: int)
    requires table.Valid() && 0 <= b < table.numBucket && b < |table.Table()| && 0 <= pos < |table.Table()[b]|
    ensures var i := |Flat(table.Table()[..b])| + pos;
      i < |table.Contents()| && table.Contents()[i] == table.Table()[b][pos]
  {
    hide L.List.Valid, L.List.Items, L.List.Repr, L.Sorted;
    FlatSplit(table.Table(), b);
  }

  lemma Unpack(table: HashTable, b: int, it: L.Node, pos: int, index: int)
    requires table.Valid() && InBucket(table, b, it, pos, index) && b < table.numBucket
    ensures 0 <= b && |table.buckets| == |table.Table()| == table.numBucket + 1 && pos >= 0
    ensures table.buckets[b].Valid() && table.buckets[b].IterAt(it, pos) && table.buckets[b].Items() == table.Table()[b]
    ensures table.buckets[b + 1].Valid()
    ensures index == |Flat(table.Table()[..b])| + pos
    ensures pos < |table.Table()[b]| ==> index < |table.Contents()| && table.Contents()[index] == table.Table()[b][pos]
  {
    hide L.List.Valid, L.List.Items, L.List.Repr, L.List.IterAt, Flat, Rows, HashTable.Valid;
    Chain(table, b);
    Chain(table, b + 1);
    if pos < |table.Table()[b]| { IndexInside(table, b, pos); }
  }

  lemma Advance(table: HashTable, b: int, pos: int, index: int, it': L.Node)
    requires table.Valid() && 0 <= b < table.numBucket && b < |table.Table()| && pos >= 0
    requires index == |Flat(table.Table()[..b])| + pos && b < |table.buckets| && table.buckets[b].IterAt(it', pos + 1)
    ensures InBucket(table, b, it', pos + 1, index + 1)
  {
    hide L.List.Valid, L.List.Items, L.List.Repr, L.List.IterAt, Flat, Rows, HashTable.Valid;
    Chain(table, b);
  }

  lemma NextBucket(table: HashTable, b: int, pos: int, index: int, it': L.Node)
    requires table.Valid() && 0 <= b < table.numBucket && b < |table.Table()|
    requires index == |Flat(table.Table()[..b])| + pos && pos == |table.Table()[b]|
    requires b + 1 < |table.buckets| && table.buckets[b + 1].IterAt(it', 0)
    ensures InBucket(table, b + 1, it', 0, index)
  {
    hide L.List.Valid, L.List.Items, L.List.Repr, L.List.IterAt, Flat, Rows, HashTable.Valid;
    Chain(table, b);
    Chain(table, b + 1);
  }

  // At the dummy bucket all pairs lie behind.
  lemma AtDummy(table: HashTable, b: int, it: L.Node, pos: int, index: int)
    requires table.Valid() && b >= table.numBucket && InBucket(table, b, it, pos, index)
    ensures index == |table.Contents()|
  {
    hide L.Sorted, Flat;
    table.AllRows();
    Chain(table, b);
  }

  ghost function Seconds(s: seq<L.Pair>): seq<Ptr> {
    seq(|s|, i requires 0 <= i < |s| => s[i].second)
  }

  // Alternating hasNext and next from a reset returns the data of every pair once,
  // as many as hashtable_getSize says.
  method AllData(table: HashTable) returns (data: seq<Ptr>)
    requires table.Valid()
    ensures data == Seconds(table.Contents())
  {
    hide HashTable.Valid, HashTable.Contents, Iterator.At;
    var iter := new Iterator(table);
    data := [];
    var more := iter.HasNext(table, 0);
    while more
      invariant table.Valid() && |data| <= |table.Contents()| && data == Seconds(table.Contents())[..|data|]
      invariant iter.At(table, |data|) && (more <==> |data| < |table.Contents()|) && fresh(iter)
      decreases |table.Contents()| - |data|
    {
      var d := iter.Next(table, |data|);
      data := data + [d];
      more := iter.HasNext(table, |data|);
    }
  }
}
