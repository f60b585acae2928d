/** Sizes of finite sets of integers. */
module Sets {
  lemma SubsetSize(a: set<int>, b: set<int>)
    requires a <= b
    ensures |a| <= |b|
    ensures |a| == |b| ==> a == b
  {
    assert b == a + (b - a);
    assert |b| == |a| + |b - a|;
  }

  /** The m integers from k. */
  function Range(k: int, m: nat): (r: set<int>)
    ensures |r| == m && forall i :: i in r <==> k <= i < k + m
    decreases m
  {
    if m == 0 then {} else Range(k, m - 1) + {k + m - 1}
  }
}
