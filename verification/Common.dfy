// Small definitions that several modules share.
module Common {

  ghost function Pow2(n: nat): (p: nat)
    ensures p >= 1
  {
    if n == 0 then 1 else 2 * Pow2(n - 1)
  }

  ghost function Swapped<T>(s: seq<T>, i: int, j: int): seq<T>
    requires 0 <= i < |s| && 0 <= j < |s|
  {
    s[i := s[j]][j := s[i]]
  }

  lemma SwappedSame<T>(s: seq<T>, i: int, j: int)
    requires 0 <= i < |s| && 0 <= j < |s|
    ensures multiset(Swapped(s, i, j)) == multiset(s)
  {
  }

  // A sequence cut at one of its elements.
  lemma SplitAt<T>(a: seq<T>, l: seq<T>, x: T, r: seq<T>, b: seq<T>)
    ensures var s, k := a + (l + [x] + r) + b, |a| + |l|;
      && s[k] == x && s[..k] == a + l && s[k + 1..] == r + b
      && s[..k + 1] == a + l + [x] && s[k..] == [x] + r + b
  {
    var s, k := a + (l + [x] + r) + b, |a| + |l|;
    assert s == (a + l) + ([x] + (r + b));
  }

  // s without its element at i.
  ghost function Without<T>(s: seq<T>, i: nat): seq<T>
    requires i < |s|
  {
    s[..i] + s[i + 1..]
  }

  // s with x put in before its element at i.
  ghost function With<T>(s: seq<T>, i: nat, x: T): seq<T>
    requires i <= |s|
  {
    s[..i] + [x] + s[i..]
  }

  // Sequences that agree around one place.
  lemma ChangedAt<T>(s: seq<T>, s': seq<T>, i: nat)
    requires i < |s| == |s'| && s'[..i] == s[..i] && s'[i + 1..] == s[i + 1..]
    ensures s' == s[i := s'[i]]
  {
    forall k | 0 <= k < |s| && k != i
      ensures s'[k] == s[k]
    {
      if k < i {
        assert s'[..i][k] == s[..i][k];
      } else {
        assert s'[i + 1..][k - i - 1] == s[i + 1..][k - i - 1];
      }
    }
  }

  lemma WithHas<T>(s: seq<T>, i: nat, x: T, y: T)
    requires i <= |s|
    ensures y in With(s, i, x) <==> y == x || y in s
  {
    assert s == s[..i] + s[i..];
    assert y in s <==> y in s[..i] || y in s[i..];
  }

  // One element more, wherever it is put in.
  lemma OneMore<T>(a: seq<T>, s: seq<T>, i: nat, x: T, b: seq<T>)
    requires i <= |s|
    ensures multiset(a + With(s, i, x) + b) == multiset(a + s + b) + multiset{x}
    ensures |a + With(s, i, x) + b| == |a + s + b| + 1
  {
    var u, v := s[..i], s[i..];
    assert s == u + v;
    assert multiset(With(s, i, x)) == multiset(s) + multiset{x};
  }

  lemma OneLess<T>(a: seq<T>, s: seq<T>, i: nat, b: seq<T>)
    requires i < |s|
    ensures multiset(a + Without(s, i) + b) == multiset(a + s + b) - multiset{s[i]}
    ensures |a + Without(s, i) + b| == |a + s + b| - 1 && s[i] in a + s + b
  {
    assert With(Without(s, i), i, s[i]) == s;
    OneMore(a, Without(s, i), i, s[i], b);
    assert s[i] in multiset(a + s + b);
  }
}
