/** Counting finite sets. */
module Sets {
  lemma {:induction false} SubsetSize<T>(a: set<T>, b: set<T>)
    requires a <= b
    ensures |a| <= |b|
  {
    if x :| x in a {
      SubsetSize(a - {x}, b - {x});
    }
  }

  lemma UnionSize<T>(held: set<T>, a: set<T>, b: set<T>)
    requires held <= a + b
    ensures |held| <= |a| + |b|
  {
    SubsetSize(held, a + b);
    assert |a + b| + |a * b| == |a| + |b|;
  }
}
