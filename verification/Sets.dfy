/** Sizes of finite sets. */
module Sets {
  lemma SubsetSize<T>(a: set<T>, b: set<T>)
    requires a <= b
    ensures |a| <= |b|
  {
    assert b == a + (b - a);
  }

  lemma UnionSize<T>(a: set<T>, b: set<T>)
    ensures |a + b| == |a| + |b| - |a * b|
  {
  }

  lemma DifferenceSize<T>(a: set<T>, b: set<T>)
    requires a <= b
    ensures |b - a| == |b| - |a| && (|b - a| == 0 <==> b - a == {})
  {
    assert b == a + (b - a);
  }

  lemma AnyOf<T>(s: set<T>) returns (x: T)
    requires s != {}
    ensures x in s
  {
    x :| x in s;
  }

  /** A larger set has an element that a smaller one lacks. */
  lemma SomeLeft<T>(larger: set<T>, smaller: set<T>) returns (x: T)
    requires |smaller| < |larger|
    ensures x in larger && x !in smaller
  {
    if larger <= smaller {
      SubsetSize(larger, smaller);
    }
    x :| x in larger && x !in smaller;
  }
}
