// The hash table's contents read as a finite map from keys to data.
module HashTableMap {
  import opened Compare
  import L = List
  import opened HashTable

  // A key that compares equal to k is bound to v.
  ghost predicate Binds(cmp: Comparator, s: seq<Pair>, k: Ptr, v: Ptr) {
    exists p :: p in s && cmp(p.first, k) == 0 && p.second == v
  }

  // An insertion binds its key and leaves every other one.
  lemma InsertLaw(cmp: Comparator, s: seq<Pair>, s': seq<Pair>, p: Pair, k: Ptr, v: Ptr)
    requires TotalPreorder(cmp) && multiset(s') == multiset(s) + multiset{p} && !L.Has(cmp, s, p.first)
    ensures Binds(cmp, s', k, v) <==> if cmp(p.first, k) == 0 then v == p.second else Binds(cmp, s, k, v)
  {
    forall q
      ensures q in s' <==> q in s || q == p
    {
      assert q in s' <==> q in multiset(s');
      assert q in s <==> q in multiset(s);
    }
    if cmp(p.first, k) == 0 {
      forall q | q in s
        ensures cmp(q.first, k) != 0
      {
        SameClass(cmp, p.first, k, q.first);
        Flip(cmp, p.first, q.first);
        Flip(cmp, k, q.first);
      }
      assert p in s';
    }
  }

  // A removal unbinds its key and leaves every other one.
  lemma RemoveLaw(cmp: Comparator, s: seq<Pair>, s': seq<Pair>, p: Pair, k: Ptr, v: Ptr)
    requires TotalPreorder(cmp) && KeysDistinct(cmp, s) && p in s && multiset(s') == multiset(s) - multiset{p}
    ensures Binds(cmp, s', k, v) <==> cmp(p.first, k) != 0 && Binds(cmp, s, k, v)
  {
    OthersRemain(cmp, s, s', p);
    forall q | q in s'
      ensures cmp(p.first, k) == 0 ==> cmp(q.first, k) != 0
    {
      if cmp(p.first, k) == 0 {
        SameClass(cmp, p.first, k, q.first);
        Flip(cmp, k, q.first);
      }
    }
  }

  lemma OthersRemain(cmp: Comparator, s: seq<Pair>, s': seq<Pair>, p: Pair)
    requires TotalPreorder(cmp) && KeysDistinct(cmp, s) && p in s && multiset(s') == multiset(s) - multiset{p}
    ensures forall q :: q in s' <==> q in s && q != p
    ensures forall q :: q in s' ==> cmp(p.first, q.first) != 0
  {
    var i :| 0 <= i < |s| && s[i] == p;
    Flip(cmp, p.first, p.first);
    RestDiffers(cmp, s, i);
    hide KeysDistinct, TotalPreorder;
    assert s == s[..i] + [p] + s[i + 1..];
    var rest := s[..i] + s[i + 1..];
    assert multiset(rest) == multiset(s');
    forall q
      ensures q in s' <==> q in rest
    {
      assert q in s' <==> q in multiset(s');
      assert q in rest <==> q in multiset(rest);
    }
  }

  lemma RestDiffers(cmp: Comparator, s: seq<Pair>, i: nat)
    requires TotalPreorder(cmp) && KeysDistinct(cmp, s) && i < |s|
    ensures forall q :: q in s[..i] + s[i + 1..] ==> q in s && cmp(s[i].first, q.first) != 0
    ensures forall q :: q in s && q != s[i] ==> q in s[..i] + s[i + 1..]
  {
    forall q | q in s[..i] + s[i + 1..]
      ensures q in s && cmp(s[i].first, q.first) != 0
    {
      var j :| 0 <= j < |s| && j != i && s[j] == q;
      Flip(cmp, s[i].first, q.first);
    }
    forall q | q in s && q != s[i]
      ensures q in s[..i] + s[i + 1..]
    {
      var j :| 0 <= j < |s| && s[j] == q;
      assert (s[..i] + s[i + 1..])[if j < i then j else j - 1] == q;
    }
  }
}
