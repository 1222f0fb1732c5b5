// The user-supplied comparison that the containers are parameterised by.
module Compare {

  // A C pointer handed to a container, identified with its address. The
  // containers never look behind it except through the comparison.
  type Ptr = int

  const NULL: Ptr := 0

  type Comparator = (Ptr, Ptr) -> int

  // What the containers ask of a comparison: it returns <0, 0 or >0 as a total
  // preorder. Distinct pointers may compare equal.
  ghost predicate TotalPreorder(cmp: Comparator) {
    && (forall a, b :: cmp(a, b) < 0 <==> cmp(b, a) > 0)
    && (forall a, b, c :: cmp(a, b) <= 0 && cmp(b, c) <= 0 ==> cmp(a, c) <= 0)
  }

  lemma Flip(cmp: Comparator, a: Ptr, b: Ptr)
    requires TotalPreorder(cmp)
    ensures cmp(a, b) < 0 <==> cmp(b, a) > 0
    ensures cmp(a, b) == 0 <==> cmp(b, a) == 0
  {
  }

  lemma LessTrans(cmp: Comparator, a: Ptr, b: Ptr, c: Ptr)
    requires TotalPreorder(cmp)
    requires cmp(a, b) <= 0 && cmp(b, c) <= 0
    ensures cmp(a, c) <= 0
    ensures cmp(a, b) < 0 || cmp(b, c) < 0 ==> cmp(a, c) < 0
  {
    assert cmp(c, a) <= 0 ==> cmp(c, b) <= 0;
  }

  // Keys that compare equal compare alike with every other.
  lemma SameClass(cmp: Comparator, a: Ptr, b: Ptr, c: Ptr)
    requires TotalPreorder(cmp) && cmp(a, b) == 0
    ensures cmp(a, c) == 0 <==> cmp(b, c) == 0
  {
    Flip(cmp, a, b);
    Flip(cmp, a, c);
    Flip(cmp, b, c);
    if cmp(b, c) == 0 {
      LessTrans(cmp, a, b, c);
      LessTrans(cmp, c, b, a);
    }
    if cmp(a, c) == 0 {
      LessTrans(cmp, b, a, c);
      LessTrans(cmp, c, a, b);
    }
  }
}
