/** Camera-based time-to-collision from distance ratios of keypoint pairs
    (computeTTCCamera). */
module CameraTtc {
  import opened Wrappers
  import opened Geometry
  import opened Records
  import opened Sorting
  import opened Statistics

  /** std::numeric_limits<double>::epsilon(), that is 2^-52. */
  const DoubleEpsilon: real := 0.0000000000000002220446049250313080847263336181640625

  /** Smallest current-frame pixel distance for a pair to be used. */
  const MinDist: real := 100.0

  /** Every match names keypoints that exist in both frames. */
  predicate IndicesValid(kptsPrev: seq<KeyPoint>, kptsCurr: seq<KeyPoint>, kptMatches: seq<Match>)
  {
    forall k :: 0 <= k < |kptMatches| ==>
      0 <= kptMatches[k].queryIdx < |kptsPrev| && 0 <= kptMatches[k].trainIdx < |kptsCurr|
  }

  /** The ratio kept for the pair (outer i, inner j), or None when the pair is
      rejected; `norm` is the Euclidean norm of a pixel difference (cv::norm). */
  function PairRatio(kptsPrev: seq<KeyPoint>, kptsCurr: seq<KeyPoint>, kptMatches: seq<Match>,
                     norm: Point -> real, i: nat, j: nat): (r: Option<real>)
    requires IndicesValid(kptsPrev, kptsCurr, kptMatches)
    requires i < |kptMatches| && j < |kptMatches|
    ensures r.Some? ==> r.value > 0.0
  {
    var distCurr := norm(Sub(kptsCurr[kptMatches[i].trainIdx].pt, kptsCurr[kptMatches[j].trainIdx].pt));
    var distPrev := norm(Sub(kptsPrev[kptMatches[i].queryIdx].pt, kptsPrev[kptMatches[j].queryIdx].pt));
    if distPrev > DoubleEpsilon && distCurr >= MinDist then Some(distCurr / distPrev) else None
  }

  /** The outcome of every pair (i, j) of match indices, as one function value;
      indices out of range have no ratio. */
  function PairOutcomes(kptsPrev: seq<KeyPoint>, kptsCurr: seq<KeyPoint>, kptMatches: seq<Match>,
                        norm: Point -> real): (nat, nat) -> Option<real>
  {
    (i: nat, j: nat) =>
      if IndicesValid(kptsPrev, kptsCurr, kptMatches) && i < |kptMatches| && j < |kptMatches|
      then PairRatio(kptsPrev, kptsCurr, kptMatches, norm, i, j)
      else None
  }

  /** The ratios kept by the inner loop for outer index `i`, inner indices 1 .. j-1. */
  function RowRatios(outcome: (nat, nat) -> Option<real>, i: nat, j: nat): seq<real>
    requires 1 <= j
    decreases j
  {
    if j == 1 then []
    else
      RowRatios(outcome, i, j - 1)
        + match outcome(i, j - 1)
          case Some(ratio) => [ratio]
          case None => []
  }

  /** The `distRatios` vector after the outer loop has handled indices 0 .. i-1;
      the inner loop always runs over 1 .. n-1. */
  function DistRatios(outcome: (nat, nat) -> Option<real>, n: nat, i: nat): seq<real>
    requires 1 <= n
  {
    if i == 0 then [] else DistRatios(outcome, n, i - 1) + RowRatios(outcome, i - 1, n)
  }

  /** TTC from the median ratio: -dT / (1 - median); None where the division
      by zero would give an infinity. */
  function TtcFromMedian(dT: real, medDistRatio: real): (ttc: Option<real>)
    ensures ttc.Some? <==> medDistRatio != 1.0
  {
    if medDistRatio == 1.0 then None else Some(-dT / (1.0 - medDistRatio))
  }

  /** The TTC solves the constant-velocity equation ttc * (1 - ratio) = -dT. */
  lemma TtcFromMedianSolves(dT: real, medDistRatio: real)
    requires medDistRatio != 1.0
    ensures TtcFromMedian(dT, medDistRatio).Some?
    ensures TtcFromMedian(dT, medDistRatio).value * (1.0 - medDistRatio) == -dT
  {
  }

  /** TTC from the collected ratios: None (NaN) when there is none, otherwise
      from the median of the sorted ratios. */
  function TtcFromRatios(distRatios: seq<real>, dT: real): Option<real>
  {
    if |distRatios| == 0 then None
    else
      var sorted := Sort(distRatios);
      assert |sorted| == |multiset(sorted)| == |distRatios|;
      TtcFromMedian(dT, Median(sorted))
  }

  /** A ratio is in the row of outer index `i` exactly when some inner index
      j in 1 .. jEnd-1 yields it. */
  lemma {:induction false} RowRatiosMembers(outcome: (nat, nat) -> Option<real>, i: nat, jEnd: nat, r: real)
    requires 1 <= jEnd
    ensures r in RowRatios(outcome, i, jEnd) <==> exists j: nat :: 1 <= j < jEnd && outcome(i, j) == Some(r)
    decreases jEnd
  {
    if jEnd > 1 {
      RowRatiosMembers(outcome, i, jEnd - 1, r);
      if outcome(i, jEnd - 1) == Some(r) {
        assert r in RowRatios(outcome, i, jEnd);
      }
    }
  }

  /** A ratio is collected exactly when some pair (i, j) with i in 0 .. iEnd-1
      and j in 1 .. n-1 is kept with that ratio. */
  lemma {:induction false} DistRatiosMembers(outcome: (nat, nat) -> Option<real>, n: nat, iEnd: nat, r: real)
    requires 1 <= n
    ensures r in DistRatios(outcome, n, iEnd)
            <==> exists i: nat, j: nat :: i < iEnd && 1 <= j < n && outcome(i, j) == Some(r)
  {
    if iEnd > 0 {
      DistRatiosMembers(outcome, n, iEnd - 1, r);
      RowRatiosMembers(outcome, iEnd - 1, n, r);
      if r in RowRatios(outcome, iEnd - 1, n) {
        var j: nat :| 1 <= j < n && outcome(iEnd - 1, j) == Some(r);
        assert iEnd - 1 < iEnd;
      }
      if exists i: nat, j: nat :: i < iEnd && 1 <= j < n && outcome(i, j) == Some(r) {
        var i: nat, j: nat :| i < iEnd && 1 <= j < n && outcome(i, j) == Some(r);
        if i == iEnd - 1 {
          assert r in RowRatios(outcome, iEnd - 1, n);
        }
      }
    }
  }

  /** One row holds at most one ratio per inner index. */
  lemma {:induction false} RowRatiosCount(outcome: (nat, nat) -> Option<real>, i: nat, jEnd: nat)
    requires 1 <= jEnd
    ensures |RowRatios(outcome, i, jEnd)| <= jEnd - 1
    decreases jEnd
  {
    if jEnd > 1 {
      RowRatiosCount(outcome, i, jEnd - 1);
    }
  }

  /** At most one ratio per pair: at most iEnd * (n - 1) ratios. */
  lemma {:induction false} DistRatiosCount(outcome: (nat, nat) -> Option<real>, n: nat, iEnd: nat)
    requires 1 <= n
    ensures |DistRatios(outcome, n, iEnd)| <= iEnd * (n - 1)
  {
    if iEnd > 0 {
      DistRatiosCount(outcome, n, iEnd - 1);
      RowRatiosCount(outcome, iEnd - 1, n);
      assert iEnd * (n - 1) == (iEnd - 1) * (n - 1) + (n - 1);
    }
  }

  /** Every collected ratio is positive. */
  lemma {:induction false} CollectedRatiosPositive(kptsPrev: seq<KeyPoint>, kptsCurr: seq<KeyPoint>, kptMatches: seq<Match>,
                                norm: Point -> real, r: real)
    requires |kptMatches| >= 1
    requires IndicesValid(kptsPrev, kptsCurr, kptMatches)
    requires r in DistRatios(PairOutcomes(kptsPrev, kptsCurr, kptMatches, norm), |kptMatches|, |kptMatches| - 1)
    ensures r > 0.0
  {
    var outcome := PairOutcomes(kptsPrev, kptsCurr, kptMatches, norm);
    DistRatiosMembers(outcome, |kptMatches|, |kptMatches| - 1, r);
    var i: nat, j: nat :| i < |kptMatches| - 1 && 1 <= j < |kptMatches| && outcome(i, j) == Some(r);
    assert PairRatio(kptsPrev, kptsCurr, kptMatches, norm, i, j) == Some(r);
  }

  /** A keypoint paired with itself is never kept when the norm of the zero
      vector is zero, since the current distance is then below MinDist. */
  lemma {:induction false} SelfPairRejected(kptsPrev: seq<KeyPoint>, kptsCurr: seq<KeyPoint>, kptMatches: seq<Match>,
                         norm: Point -> real, i: nat)
    requires IndicesValid(kptsPrev, kptsCurr, kptMatches)
    requires i < |kptMatches|
    requires norm(Point(0, 0)) == 0.0
    ensures PairRatio(kptsPrev, kptsCurr, kptMatches, norm, i, i) == None
  {
    var p := kptsCurr[kptMatches[i].trainIdx].pt;
    assert Sub(p, p) == Point(0, 0);
  }

  /** With a symmetric norm the pairs (i, j) and (j, i) give the same outcome,
      so an inner pair with 1 <= i, j <= n-2 contributes its ratio twice. */
  lemma {:induction false} PairRatioSymmetric(kptsPrev: seq<KeyPoint>, kptsCurr: seq<KeyPoint>, kptMatches: seq<Match>,
                           norm: Point -> real, i: nat, j: nat)
    requires IndicesValid(kptsPrev, kptsCurr, kptMatches)
    requires i < |kptMatches| && j < |kptMatches|
    requires forall a, b :: norm(Sub(a, b)) == norm(Sub(b, a))
    ensures PairRatio(kptsPrev, kptsCurr, kptMatches, norm, i, j)
            == PairRatio(kptsPrev, kptsCurr, kptMatches, norm, j, i)
  {
    var c1 := kptsCurr[kptMatches[i].trainIdx].pt;
    var c2 := kptsCurr[kptMatches[j].trainIdx].pt;
    var p1 := kptsPrev[kptMatches[i].queryIdx].pt;
    var p2 := kptsPrev[kptMatches[j].queryIdx].pt;
    assert norm(Sub(c1, c2)) == norm(Sub(c2, c1));
    assert norm(Sub(p1, p2)) == norm(Sub(p2, p1));
  }

  /** The inner loop for outer index `i`: appends the kept ratios of the pairs
      (i, j) for j in 1 .. n-1 to `distRatios`. */
  method CollectRow(kptsPrev: seq<KeyPoint>, kptsCurr: seq<KeyPoint>, kptMatches: seq<Match>,
                    norm: Point -> real, i: nat, distRatios: seq<real>) returns (extended: seq<real>)
    requires IndicesValid(kptsPrev, kptsCurr, kptMatches)
    requires i < |kptMatches|
    ensures extended == distRatios
                        + RowRatios(PairOutcomes(kptsPrev, kptsCurr, kptMatches, norm), i, |kptMatches|)
  {
    ghost var outcome := PairOutcomes(kptsPrev, kptsCurr, kptMatches, norm);
    extended := distRatios;
    var keyCurrOuter := kptsCurr[kptMatches[i].trainIdx];
    var keyPrevOuter := kptsPrev[kptMatches[i].queryIdx];
    for j := 1 to |kptMatches|
      invariant extended == distRatios + RowRatios(outcome, i, j)
    {
      assert outcome(i, j) == PairRatio(kptsPrev, kptsCurr, kptMatches, norm, i, j);
      var keyCurrInner := kptsCurr[kptMatches[j].trainIdx];
      var keyPrevInner := kptsPrev[kptMatches[j].queryIdx];
      var distCurr := norm(Sub(keyCurrOuter.pt, keyCurrInner.pt));
      var distPrev := norm(Sub(keyPrevOuter.pt, keyPrevInner.pt));
      if distPrev > DoubleEpsilon && distCurr >= MinDist {
        var distRatio := distCurr / distPrev;
        extended := extended + [distRatio];
      }
    }
  }

  /** The outer loop: the kept ratios of all pairs with outer index in 0 .. n-2. */
  method CollectRatios(kptsPrev: seq<KeyPoint>, kptsCurr: seq<KeyPoint>, kptMatches: seq<Match>,
                       norm: Point -> real) returns (distRatios: seq<real>)
    requires |kptMatches| >= 1
    requires IndicesValid(kptsPrev, kptsCurr, kptMatches)
    ensures distRatios == DistRatios(PairOutcomes(kptsPrev, kptsCurr, kptMatches, norm), |kptMatches|, |kptMatches| - 1)
  {
    distRatios := [];
    for i := 0 to |kptMatches| - 1
      invariant distRatios == DistRatios(PairOutcomes(kptsPrev, kptsCurr, kptMatches, norm), |kptMatches|, i)
    {
      distRatios := CollectRow(kptsPrev, kptsCurr, kptMatches, norm, i, distRatios);
    }
  }

  /** Sorts a copy of the ratios in place and reads off the median. */
  method SortedMedian(distRatios: seq<real>) returns (medDistRatio: real)
    requires |distRatios| > 0
    ensures |Sort(distRatios)| == |distRatios|
    ensures medDistRatio == Median(Sort(distRatios))
  {
    var a := new real[|distRatios|](k requires 0 <= k < |distRatios| => distRatios[k]);
    assert a[..] == distRatios;
    SortByKey(a, x => x);
    assert Sorted(a[..]);
    SortedPermutationIsSort(distRatios, a[..]);
    var medIdx := a.Length / 2;
    medDistRatio := if a.Length % 2 == 0 then (a[medIdx - 1] + a[medIdx]) / 2.0 else a[medIdx];
  }

  /** computeTTCCamera: collects the kept ratios, and turns the median of the
      sorted ratios into a TTC; None where the source yields NaN or infinity. */
  method ComputeTtcCamera(kptsPrev: seq<KeyPoint>, kptsCurr: seq<KeyPoint>, kptMatches: seq<Match>,
                          frameRate: real, norm: Point -> real) returns (ttc: Option<real>)
    requires |kptMatches| >= 1
    requires IndicesValid(kptsPrev, kptsCurr, kptMatches)
    requires frameRate > 0.0
    ensures ttc == TtcFromRatios(DistRatios(PairOutcomes(kptsPrev, kptsCurr, kptMatches, norm),
                                            |kptMatches|, |kptMatches| - 1), 1.0 / frameRate)
  {
    var distRatios := CollectRatios(kptsPrev, kptsCurr, kptMatches, norm);
    if |distRatios| == 0 {
      return None;
    }
    var medDistRatio := SortedMedian(distRatios);
    var dT := 1.0 / frameRate;
    ttc := TtcFromMedian(dT, medDistRatio);
  }

  /** A positive TTC (approaching object) exactly when the median ratio
      exceeds one, for a positive frame interval. */
  lemma TtcSign(dT: real, medDistRatio: real)
    requires dT > 0.0 && medDistRatio != 1.0
    ensures TtcFromMedian(dT, medDistRatio).Some?
    ensures TtcFromMedian(dT, medDistRatio).value > 0.0 <==> medDistRatio > 1.0
  {
    var d := 1.0 - medDistRatio;
    var t := -dT / d;
    assert t * d == -dT;
    OppositeSigns(t, d);
  }

  /** Two reals with a negative product have opposite signs. */
  lemma OppositeSigns(t: real, d: real)
    requires t * d < 0.0
    ensures t > 0.0 <==> d < 0.0
  {
    if d < 0.0 {
      ProductSigns(t, -d);
      assert t * -d == -(t * d);
    } else {
      ProductSigns(t, d);
    }
  }

  /** The camera TTC depends only on which ratios were collected, not on the
      order in which the loops produced them. */
  lemma TtcOrderIndependent(a: seq<real>, b: seq<real>, dT: real)
    requires multiset(a) == multiset(b)
    ensures TtcFromRatios(a, dT) == TtcFromRatios(b, dT)
  {
    assert |a| == |multiset(a)| == |multiset(b)| == |b|;
    if |a| > 0 {
      MedianOrderIndependent(a, b);
    }
  }

  /** The TTC can be read off any sorted arrangement of the collected ratios,
      which is what sorting the vector in place produces. */
  lemma TtcFromSortedArrangement(distRatios: seq<real>, sorted: seq<real>, dT: real)
    requires |distRatios| > 0
    requires Sorted(sorted) && multiset(sorted) == multiset(distRatios)
    ensures |sorted| > 0
    ensures TtcFromRatios(distRatios, dT) == TtcFromMedian(dT, Median(sorted))
  {
    assert |sorted| == |multiset(sorted)| == |distRatios|;
    SortedPermutationIsSort(distRatios, sorted);
  }

  /** Ratios 0.9, 0.95, 1.0, 1.05 at 10 Hz: median 0.975, TTC -0.1 / 0.025 = -4 s
      (the object is moving away). */
  lemma TtcExample(distRatios: seq<real>)
    requires distRatios == [1.05, 0.9, 1.0, 0.95]
    ensures TtcFromRatios(distRatios, 1.0 / 10.0) == Some(-4.0)
  {
    var sorted := [0.9, 0.95, 1.0, 1.05];
    assert multiset(sorted) == multiset(distRatios);
    TtcFromSortedArrangement(distRatios, sorted, 1.0 / 10.0);
    assert Median(sorted) == 0.975;
  }
}
