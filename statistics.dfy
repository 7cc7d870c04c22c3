/** The median rule shared by both TTC estimators. */
module Statistics {
  import opened Sorting

  /** Median of a sequence that the caller has sorted: the middle element when
      the length is odd, the average of the two middle elements when it is even. */
  function Median(s: seq<real>): (m: real)
    requires |s| > 0
    ensures Sorted(s) ==> forall k :: 0 <= k < |s| / 2 ==> s[k] <= m
    ensures Sorted(s) ==> forall k :: |s| / 2 <= k < |s| ==> m <= s[k]
    ensures Sorted(s) ==> s[0] <= m <= s[|s| - 1]
  {
    var mid := |s| / 2;
    if |s| % 2 == 0 then (s[mid - 1] + s[mid]) / 2.0 else s[mid]
  }

  /** The median of the sorted values does not depend on their input order. */
  lemma MedianOrderIndependent(a: seq<real>, b: seq<real>)
    requires |a| > 0
    requires multiset(a) == multiset(b)
    ensures |Sort(b)| > 0
    ensures Median(Sort(a)) == Median(Sort(b))
  {
    assert |Sort(b)| == |multiset(Sort(b))| == |multiset(a)| == |a|;
    SortedUnique(Sort(a), Sort(b));
  }
}
