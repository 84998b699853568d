/** Small shared wrapper. */
module Options {
  datatype Option<+T> = None | Some(value: T)
}

module SetFacts {
  lemma SubsetSize<T>(a: set<T>, b: set<T>)
    requires a <= b
    ensures |a| <= |b|
  {
    assert b == a + (b - a);
  }
}
