// The seeding and the tempering of mt19937ar.c told by their inverses and by literal
// values, without the steps that compute them.
module MersenneTwisterLaws {
  import opened MersenneTwister

  // ---------------------------------------------------------------- seeding

  // The word before a seed word: 2520285293 is the inverse of the multiplier modulo 2^32.
  function Unmixed(q: Word): Word {
    q ^ (q >> 30)
  }

  function PreviousWord(w: Word, k: nat): Word
    requires k < N
  {
    Unmixed(((w - (k as Word)) * 2520285293) & 0xffffffff)
  }

  lemma PreviousOfProduct(previous: Word, k: nat)
    requires k < N
    ensures PreviousWord((1812433253 * (previous ^ (previous >> 30)) + (k as Word)) & 0xffffffff, k) ==
            Unmixed((previous ^ (previous >> 30)) & 0xffffffff)
  {
    hide Unmixed;
  }

  lemma UnmixedMix(previous: Word)
    requires previous <= 0xffffffff
    ensures Unmixed((previous ^ (previous >> 30)) & 0xffffffff) == previous
  {
  }

  lemma PreviousOfStep(previous: Word, k: nat)
    requires previous <= 0xffffffff && k < N
    ensures PreviousWord((1812433253 * (previous ^ (previous >> 30)) + (k as Word)) & 0xffffffff, k) == previous
  {
    hide *;
    PreviousOfProduct(previous, k);
    UnmixedMix(previous);
  }

  // Each seed word determines the one before, so the step is what its inverse says.
  lemma SeedStepInverts(previous: Word, k: nat)
    requires previous <= 0xffffffff && k < N
    ensures PreviousWord(InitWord(previous, k), k) == previous
  {
    hide PreviousWord;
    PreviousOfStep(previous, k);
  }

  // The seed words: the seed's own 32 bits, then each with its predecessor.
  lemma SeedWords(seed: Word, k: nat)
    requires k < 624
    ensures X(seed, 0) <= 0xffffffff && X(seed, 0) << 32 == seed << 32
    ensures k > 0 ==> PreviousWord(X(seed, k), k) == X(seed, k - 1)
  {
    hide InitWord, PreviousWord;
    FirstFits(seed);
    if k > 0 {
      WordsFit(seed, k - 1);
      SeedStepInverts(X(seed, k - 1), k);
    }
  }

  // The first words of the default seed.
  lemma DefaultSeedWords()
    ensures X(5489, 0) == 5489 && X(5489, 1) == 1301868182 && X(5489, 2) == 2938499221
  {
  }

  // Seeds that differ in their lower 32 bits never come to the same seed word.
  lemma {:induction false} SeedsStayApart(a: Word, b: Word, k: nat)
    requires k < N && X(a, k) == X(b, k)
    ensures a << 32 == b << 32
    decreases k
  {
    hide InitWord, PreviousWord, FirstWord;
    SeedWords(a, k);
    SeedWords(b, k);
    if k > 0 {
      SeedsStayApart(a, b, k - 1);
    }
  }

  // ---------------------------------------------------------------- tempering

  // Its values on the words with a single bit.
  lemma TemperRows()
    ensures Temper(0x1) == 0x400091 && Temper(0x2) == 0x2
    ensures Temper(0x4) == 0x1020244 && Temper(0x8) == 0x2040489
    ensures Temper(0x10) == 0x10 && Temper(0x20) == 0x8001220
    ensures Temper(0x40) == 0x40 && Temper(0x80) == 0x20404890
    ensures Temper(0x100) == 0x800120 && Temper(0x200) == 0x1000240
    ensures Temper(0x400) == 0x2000480 && Temper(0x800) == 0x4440990
    ensures Temper(0x1000) == 0x8081200 && Temper(0x2000) == 0x1022244
    ensures Temper(0x4000) == 0x22244c81 && Temper(0x8000) == 0x40009010
    ensures Temper(0x10000) == 0x88013220 && Temper(0x20000) == 0x1020000
    ensures Temper(0x40000) == 0x20444891 && Temper(0x80000) == 0x4880022
    ensures Temper(0x100000) == 0x9100044 && Temper(0x200000) == 0x12200088
    ensures Temper(0x400000) == 0x4440911 && Temper(0x800000) == 0x8881222
    ensures Temper(0x1000000) == 0x81000040 && Temper(0x2000000) == 0x22204888
    ensures Temper(0x4000000) == 0x44009100 && Temper(0x8000000) == 0x88012200
    ensures Temper(0x10000000) == 0x11020440 && Temper(0x20000000) == 0x20040801
    ensures Temper(0x40000000) == 0x44081102 && Temper(0x80000000) == 0x88102204
  {
  }

  // Each step undone.
  function Untemper1(y: Word): Word {
    y ^ (y >> 11) ^ (y >> 22)
  }

  function Untemper2(y: Word): Word {
    y ^ ((y << 7) & 0x9d2c5680) ^ ((y << 14) & 0x94284000) ^ ((y << 21) & 0x14200000) ^ ((y << 28) & 0x10000000)
  }

  function Untemper3(y: Word): Word {
    y ^ ((y << 15) & 0xefc60000)
  }

  function Untemper4(y: Word): Word {
    y ^ (y >> 18)
  }

  function Untempered(y: Word): Word {
    Untemper1(Untemper2(Untemper3(Untemper4(y))))
  }

  lemma Undone1(y: Word)
    ensures Untemper1(y ^ (y >> 11)) == y ^ (y >> 33)
  {
  }

  lemma Undone4(y: Word)
    ensures Untemper4(y ^ (y >> 18)) == y ^ (y >> 36)
  {
  }

  lemma NothingAbove1(y: Word)
    requires y <= 0xffffffff
    ensures y ^ (y >> 33) == y
  {
  }

  lemma NothingAbove4(y: Word)
    requires y <= 0xffffffff
    ensures y ^ (y >> 36) == y
  {
  }

  lemma Undone2(y: Word)
    requires y <= 0xffffffff
    ensures Untemper2(y ^ ((y << 7) & 0x9d2c5680)) == y
  {
  }

  lemma Undone3(y: Word)
    requires y <= 0xffffffff
    ensures Untemper3(y ^ ((y << 15) & 0xefc60000)) == y
  {
  }

  lemma Undone1Fits(y: Word)
    requires y <= 0xffffffff
    ensures Untemper1(y ^ (y >> 11)) == y
  {
    hide Untemper1;
    NothingAbove1(y);
    Undone1(y);
  }

  lemma StepUndone1(y: Word)
    requires y <= 0xffffffff
    ensures Untemper1(Temper1(y)) == y
  {
    hide Untemper1;
    Undone1Fits(y);
  }

  lemma StepUndone2(y: Word)
    requires y <= 0xffffffff
    ensures Untemper2(Temper2(y)) == y
  {
    hide Untemper2;
    Undone2(y);
  }

  lemma StepUndone3(y: Word)
    requires y <= 0xffffffff
    ensures Untemper3(Temper3(y)) == y
  {
    hide Untemper3;
    Undone3(y);
  }

  lemma Undone4Fits(y: Word)
    requires y <= 0xffffffff
    ensures Untemper4(y ^ (y >> 18)) == y
  {
    hide Untemper4;
    NothingAbove4(y);
    Undone4(y);
  }

  lemma StepUndone4(y: Word)
    requires y <= 0xffffffff
    ensures Untemper4(Temper4(y)) == y
  {
    hide Untemper4;
    Undone4Fits(y);
  }

  // Tempering loses nothing: from an output the word of the state comes back.
  lemma TemperInverts(y: Word)
    requires y <= 0xffffffff
    ensures Untempered(Temper(y)) == y
  {
    hide Temper1, Temper2, Temper3, Temper4, Untemper1, Untemper2, Untemper3, Untemper4;
    var y1 := Temper1(y);
    var y2 := Temper2(y1);
    var y3 := Temper3(y2);
    StepUndone1(y);
    StepsFit(y);
    StepUndone2(y1);
    StepsFit(y1);
    StepUndone3(y2);
    StepsFit(y2);
    StepUndone4(y3);
  }

  lemma OutputInverts(seed: Word, i: nat)
    ensures Untempered(Output(seed, i)) == X(seed, 624 + i)
  {
    hide Temper, Untempered, X;
    WordsFit(seed, N + i);
    TemperInverts(X(seed, N + i));
  }
}
