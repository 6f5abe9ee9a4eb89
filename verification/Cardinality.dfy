/** Sizes of finite sets. */
module Cardinality {
  lemma SubsetCardinality<T>(x: set<T>, y: set<T>)
    requires x <= y
    ensures |x| <= |y|
    ensures x < y ==> |x| < |y|
  {
    assert y == x + (y - x);
  }

  lemma TwoElements<T>(s: set<T>, x: T, y: T)
    requires x in s && y in s && x != y
    ensures |s| > 1
  {
    var rest := s - {x};
    assert y in rest && s == rest + {x};
  }
}
