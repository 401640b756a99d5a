/** Two facts of counting that several modules use. */
module Basics {
  lemma SubsetSize<T>(a: set<T>, b: set<T>)
    requires a <= b
    ensures |a| <= |b|
  {
    assert b == a + (b - a);
  }

  lemma MulMonotone(a: nat, b: nat, n: int)
    requires a <= b && 0 <= n
    ensures a * n <= b * n
  {
  }
}
