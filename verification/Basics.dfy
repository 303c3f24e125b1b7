/** What several components use. */
module Basics {

  datatype Option<T> = None | Some(value: T)

  ghost predicate Distinct(c: seq<nat>) {
    forall i, j {:trigger c[i], c[j]} :: 0 <= i < j < |c| ==> c[i] != c[j]
  }

  lemma Multiple(d: int, n: nat)
    ensures (d > 0 ==> d * n >= n) && (d < 0 ==> -(d * n) >= n)
  {
    if d > 0 {
      assert d * n == n + (d - 1) * n;
    } else if d < 0 {
      assert -(d * n) == n + (-d - 1) * n;
    }
  }

  lemma RemainderIs(a: int, q: int, r: nat, n: nat)
    requires r < n && a == q * n + r
    ensures a % n == r
  {
    var d := a / n - q;
    assert a == a / n * n + a % n;
    assert d * n == a / n * n - q * n;
    Multiple(d, n);
  }
}
