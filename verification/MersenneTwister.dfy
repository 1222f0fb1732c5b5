// mt19937ar.c, init_genrand and genrand_int32, as random.c uses them. Words are
// 64 bits wide, as unsigned long is; every word in use fits in 32.
module MersenneTwister {

  type Word = bv64

  const N: nat := 624
  const M: nat := 397
  const MATRIX_A: Word := 0x9908b0df
  const UPPER_MASK: Word := 0x80000000
  const LOWER_MASK: Word := 0x7fffffff
  const DEFAULT_SEED: Word := 5489

  // ---------------------------------------------------------------- the sequence

  function FirstWord(seed: Word): Word {
    seed & 0xffffffff
  }

  // The k-th seed word from the one before.
  function InitWord(previous: Word, k: nat): Word
    requires k < N
  {
    (1812433253 * (previous ^ (previous >> 30)) + (k as Word)) & 0xffffffff
  }

  // The top bit of one word with the other bits of the next.
  function Joined(upper: Word, lower: Word): Word {
    (upper & UPPER_MASK) | (lower & LOWER_MASK)
  }

  // The matrix's last row, if y's lowest bit selects it.
  function Mag01(y: Word): Word {
    if y & 1 == 1 then MATRIX_A else 0
  }

  // y times the matrix, added to the word further on.
  function Twisted(far: Word, y: Word): Word {
    far ^ (y >> 1) ^ Mag01(y)
  }

  // One step of the linear recurrence over the field of two elements:
  // x[k+N] from x[k], x[k+1] and x[k+M].
  function Twist(upper: Word, lower: Word, far: Word): Word {
    Twisted(far, Joined(upper, lower))
  }

  function Temper1(y: Word): Word {
    y ^ (y >> 11)
  }

  function Temper2(y: Word): Word {
    y ^ ((y << 7) & 0x9d2c5680)
  }

  function Temper3(y: Word): Word {
    y ^ ((y << 15) & 0xefc60000)
  }

  function Temper4(y: Word): Word {
    y ^ (y >> 18)
  }

  function Temper(y: Word): Word {
    Temper4(Temper3(Temper2(Temper1(y))))
  }

  // The infinite sequence started by a seed: N words of its own, then the recurrence.
  ghost function X(seed: Word, k: nat): Word {
    if k == 0 then FirstWord(seed)
    else if k < N then InitWord(X(seed, k - 1), k)
    else Twist(X(seed, k - N), X(seed, k - N + 1), X(seed, k - N + M))
  }

  // What the generator is for: its i-th output, counted from 0.
  ghost function Output(seed: Word, i: nat): Word {
    Temper(X(seed, N + i))
  }

  // The joined word has its top bit from one word and the others from the next.
  lemma JoinedBits(upper: Word, lower: Word)
    requires upper <= 0xffffffff && lower <= 0xffffffff
    ensures Joined(upper, lower) >> 31 == upper >> 31
    ensures Joined(upper, lower) << 33 == lower << 33
    ensures Joined(upper, lower) <= 0xffffffff
  {
  }

  lemma StepsFit(y: Word)
    requires y <= 0xffffffff
    ensures Temper1(y) <= 0xffffffff && Temper2(y) <= 0xffffffff && Temper3(y) <= 0xffffffff && Temper4(y) <= 0xffffffff
  {
  }

  lemma TwistFits(upper: Word, lower: Word, far: Word)
    requires upper <= 0xffffffff && lower <= 0xffffffff && far <= 0xffffffff
    ensures Twist(upper, lower, far) <= 0xffffffff
  {
  }

  lemma TemperFits(y: Word)
    requires y <= 0xffffffff
    ensures Temper(y) <= 0xffffffff
  {
    hide Temper1, Temper2, Temper3, Temper4;
    StepsFit(y);
    StepsFit(Temper1(y));
    StepsFit(Temper2(Temper1(y)));
    StepsFit(Temper3(Temper2(Temper1(y))));
  }

  lemma InitFits(previous: Word, k: nat)
    requires k < N
    ensures InitWord(previous, k) <= 0xffffffff
  {
    MaskFits(1812433253 * (previous ^ (previous >> 30)) + (k as Word));
  }

  lemma MaskFits(x: Word)
    ensures x & 0xffffffff <= 0xffffffff
  {
  }

  lemma {:induction false} WordsFit(seed: Word, k: nat)
    ensures X(seed, k) <= 0xffffffff
    decreases k
  {
    hide Twist, InitWord, FirstWord;
    if k == 0 {
      FirstFits(seed);
    } else if k < N {
      InitFits(X(seed, k - 1), k);
    } else {
      WordsFit(seed, k - N);
      WordsFit(seed, k - N + 1);
      WordsFit(seed, k - N + M);
      TwistFits(X(seed, k - N), X(seed, k - N + 1), X(seed, k - N + M));
    }
  }

  lemma FirstFits(seed: Word)
    ensures FirstWord(seed) <= 0xffffffff
  {
    MaskFits(seed);
  }

  lemma OutputsFit(seed: Word, i: nat)
    ensures Output(seed, i) <= 0xffffffff
  {
    hide Temper, X;
    WordsFit(seed, N + i);
    TemperFits(X(seed, N + i));
  }

  // The recurrence, of degree 624 with middle word 397.
  lemma Recurrence(seed: Word, k: nat)
    ensures X(seed, k + 624) == Twisted(X(seed, k + 397), Joined(X(seed, k), X(seed, k + 1)))
  {
    hide Twisted, Joined, InitWord, FirstWord;
  }

  // Its matrix A: a row vector times A is the vector shifted down, with the last row,
  // 0x9908b0df, added for its lowest bit; the word further on is added to the product.
  lemma TimesMatrix(far: Word, y: Word)
    requires far <= 0xffffffff && y <= 0xffffffff
    ensures Twisted(far, y) ^ far == Twisted(0, y)
    ensures Twisted(0, y) ^ (if y & 1 == 1 then 0x9908b0df else 0) == y >> 1
  {
    TimesMatrixOnly(y);
  }

  lemma TimesMatrixOnly(y: Word)
    requires y <= 0xffffffff
    ensures Twisted(0, y) ^ (if y & 1 == 1 then 0x9908b0df else 0) == y >> 1
  {
  }

  // ---------------------------------------------------------------- the generator

  class Generator {
    const mt: array<Word>
    var mti: nat
    // The seed in force, the words mt[0..N] start at in its sequence, and so the
    // number of outputs drawn.
    ghost var seed: Word
    ghost var base: nat

    ghost predicate Valid()
      reads this, mt
    {
      && mt.Length == N && mti <= N && base + mti >= N
      && forall i :: 0 <= i < N ==> mt[i] == X(seed, base + i)
    }

    // Before any seeding, as the index of a fresh state says.
    ghost predicate Unseeded()
      reads this
    {
      mt.Length == N && mti == N + 1
    }

    ghost function Drawn(): nat
      requires Valid()
      reads this, mt
    {
      base + mti - N
    }

    constructor ()
      ensures Unseeded() && fresh(mt)
    {
      mt := new Word[N];
      mti := N + 1;
    }

    // init_genrand
    method Seed(s: Word)
      requires mt.Length == N
      modifies this, mt
      ensures Valid() && seed == s && mti == N && Drawn() == 0
    {
      hide InitWord, FirstWord, Twist;
      mt[0] := FirstWord(s);
      var i := 1;
      while i < N
        invariant 1 <= i <= N
        invariant forall j :: 0 <= j < i ==> mt[j] == X(s, j)
      {
        mt[i] := InitWord(mt[i - 1], i);
        i := i + 1;
      }
      mti := i;
      seed := s;
      base := 0;
    }

    // The start of genrand_int32: when all words are used up, the next N are
    // computed over the old ones, in three stretches.
    method Regenerate()
      requires Valid()
      modifies mt, `base
      ensures mt.Length == N && base == old(base) + N && seed == old(seed)
      ensures forall i :: 0 <= i < N ==> mt[i] == X(seed, base + i)
    {
      hide InitWord, FirstWord, Joined, Twisted, X;
      var kk := 0;
      while kk < N - M
        invariant 0 <= kk <= N - M && base == old(base)
        invariant forall i :: 0 <= i < kk ==> mt[i] == X(seed, base + N + i)
        invariant forall i :: kk <= i < N ==> mt[i] == X(seed, base + i)
      {
        Recurrence(seed, base + kk);
        var y := Joined(mt[kk], mt[kk + 1]);
        mt[kk] := Twisted(mt[kk + M], y);
        kk := kk + 1;
      }
      while kk < N - 1
        invariant N - M <= kk <= N - 1 && base == old(base)
        invariant forall i :: 0 <= i < kk ==> mt[i] == X(seed, base + N + i)
        invariant forall i :: kk <= i < N ==> mt[i] == X(seed, base + i)
      {
        Recurrence(seed, base + kk);
        assert base + kk + M == base + N + (kk + M - N);
        var y := Joined(mt[kk], mt[kk + 1]);
        mt[kk] := Twisted(mt[kk + M - N], y);
        kk := kk + 1;
      }
      Recurrence(seed, base + N - 1);
      assert base + N - 1 + M == base + N + (M - 1);
      var y := Joined(mt[N - 1], mt[0]);
      mt[N - 1] := Twisted(mt[M - 1], y);
      base := base + N;
    }

    // genrand_int32: the next output of the sequence, whatever blocks came before.
    // An unseeded state is first given the default seed.
    method Generate() returns (y: Word)
      requires Valid() || Unseeded()
      modifies this, mt
      ensures Valid()
      ensures old(Valid()) ==> seed == old(seed) && Drawn() == old(Drawn()) + 1
      ensures !old(Valid()) ==> seed == 5489 && Drawn() == 1
      ensures y == Output(seed, Drawn() - 1) && y <= 0xffffffff
    {
      hide InitWord, FirstWord, Joined, Twisted, X, Temper1, Temper2, Temper3, Temper4;
      var i := mti;
      if i >= N {
        if i == N + 1 {
          Seed(DEFAULT_SEED);
        }
        Regenerate();
        i := 0;
      }
      y := mt[i];
      i := i + 1;
      y := Temper1(y);
      y := Temper2(y);
      y := Temper3(y);
      y := Temper4(y);
      mti := i;
      OutputsFit(seed, Drawn() - 1);
    }
  }
}
