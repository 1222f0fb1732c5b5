// thread.c, thread_barrier_alloc: worker threads 1..n-1 are split into groups,
// each with one coordinator; thread 0, the primary, belongs to none.
module BarrierGroups {
  import opened Common

  // The least k with 2^k >= m: ceil(log2(m)).
  function CeilLog2(m: nat): (k: nat)
    requires m >= 1
    ensures m <= Pow2(k) && (k > 0 ==> Pow2(k - 1) < m)
  {
    if m == 1 then 0 else 1 + CeilLog2((m + 1) / 2)
  }

  function CeilDiv(a: nat, b: nat): (q: nat)
    requires b >= 1
    ensures q * b >= a && (q > 0 ==> (q - 1) * b < a)
  {
    (a + b - 1) / b
  }

  // One, or from two workers on the least g with 2^g workers or more.
  function ThreadsPerGroup(n: nat): (g: nat)
    ensures g >= 1 && (n >= 4 ==> g >= 2) && (n <= 3 ==> g == 1)
    ensures n >= 3 ==> Pow2(g - 1) < n - 1 <= Pow2(g)
  {
    if n <= 2 then 1 else CeilLog2(n - 1)
  }

  function NumGroups(n: nat): nat {
    if n <= 2 then 1 else CeilDiv(n - 1, ThreadsPerGroup(n))
  }

  function LastGroupCoordId(n: nat): int {
    (NumGroups(n) - 1) * ThreadsPerGroup(n) + 1
  }

  function LastGroupSize(n: nat): int {
    n - LastGroupCoordId(n)
  }

  // The test by which a worker takes itself for a group coordinator.
  predicate IsCoordinator(n: nat, t: nat) {
    n <= 3 || t % ThreadsPerGroup(n) == 1
  }

  // The coordinator a group member reports to.
  function CoordinatorOf(n: nat, t: nat): int
    requires t >= 1
  {
    1 + ThreadsPerGroup(n) * ((t - 1) / ThreadsPerGroup(n))
  }

  // The coordinator of group i, as the primary counts the groups.
  function Coordinator(n: nat, i: int): int {
    i * ThreadsPerGroup(n) + 1
  }

  function GroupSize(n: nat, c: int): int {
    if c == LastGroupCoordId(n) then LastGroupSize(n) else ThreadsPerGroup(n)
  }

  // ---------------------------------------------------------------- the partition

  lemma DivModUnique(a: int, g: int, q: int, r: int)
    requires g >= 1 && a == q * g + r && 0 <= r < g
    ensures a / g == q && a % g == r
  {
    var d := a / g - q;
    DivModLaw(a, g);
    assert d * g == r - a % g;
    assert d >= 1 ==> d * g >= g;
    assert d <= -1 ==> d * g <= -g;
  }

  lemma DivModLaw(a: int, g: int)
    requires g >= 1
    ensures a == (a / g) * g + a % g && 0 <= a % g < g
    ensures a >= 0 ==> a / g >= 0
  {
  }

  lemma MulMono(a: int, b: int, g: int)
    requires g >= 0 && a <= b
    ensures a * g <= b * g
  {
  }

  lemma GroupCount(n: nat)
    requires n >= 2
    ensures NumGroups(n) >= 1
    ensures (NumGroups(n) - 1) * ThreadsPerGroup(n) < n - 1 <= NumGroups(n) * ThreadsPerGroup(n)
  {
    var g := ThreadsPerGroup(n);
    hide ThreadsPerGroup, CeilDiv;
    if n >= 3 {
      assert NumGroups(n) * g >= n - 1;
    }
  }

  lemma CoordinatorTest(t: int, g: int, q: int, r: int)
    requires g >= 1 && t == 1 + q * g + r && 0 <= r < g
    ensures g >= 2 ==> (t % g == 1 <==> r == 0)
  {
    if r + 1 < g {
      DivModUnique(t, g, q, r + 1);
    } else {
      assert t == (q + 1) * g;
      DivModUnique(t, g, q + 1, 0);
    }
  }

  // Worker t sits at place r of group q.
  lemma WorkerPlace(n: nat, t: nat) returns (q: nat, r: nat)
    requires n >= 2 && 1 <= t < n
    ensures t == 1 + q * ThreadsPerGroup(n) + r && r < ThreadsPerGroup(n) && q < NumGroups(n)
    ensures IsCoordinator(n, t) <==> r == 0
    ensures CoordinatorOf(n, t) == Coordinator(n, q) == t - r
  {
    var g, m := ThreadsPerGroup(n), NumGroups(n);
    GroupCount(n);
    hide ThreadsPerGroup, NumGroups;
    DivModLaw(t - 1, g);
    q, r := (t - 1) / g, (t - 1) % g;
    QuotientBelow(q, r, g, m, t - 1);
    CoordinatorTest(t, g, q, r);
  }

  lemma QuotientBelow(q: int, r: int, g: int, m: int, a: int)
    requires g >= 1 && r >= 0 && a == q * g + r && a < m * g
    ensures q < m
  {
    if q >= m {
      MulMono(m, q, g);
    }
  }

  // Group q is the run of workers that starts at its coordinator.
  lemma GroupRange(n: nat, q: nat)
    requires n >= 2 && q < NumGroups(n)
    ensures var c, s := Coordinator(n, q), GroupSize(n, Coordinator(n, q));
      && 1 <= c && 1 <= s <= ThreadsPerGroup(n) && c + s <= n
      && (c == LastGroupCoordId(n) <==> q == NumGroups(n) - 1)
      && (c == LastGroupCoordId(n) ==> c + s == n)
      && (c != LastGroupCoordId(n) ==> s == ThreadsPerGroup(n))
  {
    var g, m := ThreadsPerGroup(n), NumGroups(n);
    GroupCount(n);
    MulMono(0, q, g);
    if q < m - 1 {
      MulMono(q + 1, m - 1, g);
      assert (q + 1) * g == q * g + g;
    } else {
      assert m * g == (m - 1) * g + g;
    }
  }

  // The workers split into groups: each worker is in the group of exactly one
  // coordinator, and is a coordinator exactly if that is itself.
  lemma GroupsPartitionWorkers(n: nat, t: nat)
    requires n >= 2 && 1 <= t < n
    ensures var c := CoordinatorOf(n, t);
      && 1 <= c <= t < c + GroupSize(n, c) <= n
      && IsCoordinator(n, c) && (IsCoordinator(n, t) <==> t == c)
      && (exists q: nat :: q < NumGroups(n) && Coordinator(n, q) == c)
    ensures forall q: nat ::
              q < NumGroups(n) && Coordinator(n, q) <= t < Coordinator(n, q) + GroupSize(n, Coordinator(n, q)) ==>
                Coordinator(n, q) == CoordinatorOf(n, t)
  {
    hide ThreadsPerGroup, NumGroups, Pow2;
    var g := ThreadsPerGroup(n);
    var q, r := WorkerPlace(n, t);
    GroupRange(n, q);
    var c: nat := Coordinator(n, q);
    var q', r' := WorkerPlace(n, c);
    DivModUnique(c - 1, g, q', r');
    DivModUnique(c - 1, g, q, 0);
    forall p: nat | p < NumGroups(n) && Coordinator(n, p) <= t < Coordinator(n, p) + GroupSize(n, Coordinator(n, p))
      ensures Coordinator(n, p) == CoordinatorOf(n, t)
    {
      GroupRange(n, p);
      DivModUnique(t - 1, g, p, t - Coordinator(n, p));
    }
  }
}
