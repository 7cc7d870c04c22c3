/** Lidar-based time-to-collision from the median forward distance of the
    points on the preceding vehicle in two frames (computeTTCLidar). */
module LidarTtc {
  import opened Wrappers
  import opened Records
  import opened Sorting
  import opened Statistics

  /** The sort key: the forward (driving-direction) coordinate. */
  function XKey(p: LidarPoint): real
  {
    p.x
  }

  /** The forward distances of a list of points, in the same order. */
  function Xs(points: seq<LidarPoint>): seq<real>
  {
    seq(|points|, k requires 0 <= k < |points| => points[k].x)
  }

  /** TTC under the constant-velocity model: dT * d1 / (d0 - d1); None where
      the source divides by zero (infinity or NaN). */
  function LidarTtcFromMedians(dT: real, medPrevX: real, medCurrX: real): (ttc: Option<real>)
    ensures ttc.Some? <==> medPrevX != medCurrX
  {
    if medPrevX == medCurrX then None else Some(dT * medCurrX / (medPrevX - medCurrX))
  }

  /** The TTC of two point clouds: from the medians of their sorted forward distances. */
  function LidarTtc(pointsPrev: seq<LidarPoint>, pointsCurr: seq<LidarPoint>, dT: real): Option<real>
    requires |pointsPrev| > 0 && |pointsCurr| > 0
  {
    var sortedPrev := Sort(Xs(pointsPrev));
    var sortedCurr := Sort(Xs(pointsCurr));
    assert |sortedPrev| == |multiset(sortedPrev)| == |pointsPrev|;
    assert |sortedCurr| == |multiset(sortedCurr)| == |pointsCurr|;
    LidarTtcFromMedians(dT, Median(sortedPrev), Median(sortedCurr))
  }

  /** The TTC is the time in which the current distance is covered at the speed
      (d0 - d1) / dT: ttc * (d0 - d1) = dT * d1. */
  lemma LidarTtcSolves(dT: real, medPrevX: real, medCurrX: real)
    requires medPrevX != medCurrX
    ensures LidarTtcFromMedians(dT, medPrevX, medCurrX).Some?
    ensures LidarTtcFromMedians(dT, medPrevX, medCurrX).value * (medPrevX - medCurrX) == dT * medCurrX
  {
  }

  /** With a positive frame interval and the object ahead, the TTC is positive
      exactly when the object came closer. */
  lemma {:induction false} LidarTtcSign(dT: real, medPrevX: real, medCurrX: real)
    requires dT > 0.0 && medCurrX > 0.0 && medPrevX != medCurrX
    ensures LidarTtcFromMedians(dT, medPrevX, medCurrX).Some?
    ensures LidarTtcFromMedians(dT, medPrevX, medCurrX).value > 0.0 <==> medPrevX > medCurrX
  {
    var d := medPrevX - medCurrX;
    var t := dT * medCurrX / d;
    assert t * d == dT * medCurrX;
    assert dT * medCurrX > 0.0;
    if d < 0.0 {
      assert t * -d == -(t * d);
      assert t < 0.0;
    } else {
      assert t > 0.0;
    }
  }

  /** Median 8.0 m in the previous and 7.5 m in the current frame at 10 Hz:
      0.1 * 7.5 / 0.5 = 1.5 s. */
  lemma LidarTtcExample()
    ensures LidarTtcFromMedians(1.0 / 10.0, 8.0, 7.5) == Some(1.5)
  {
  }

  /** The forward distances of a concatenation. */
  lemma XsConcat(a: seq<LidarPoint>, b: seq<LidarPoint>)
    ensures Xs(a + b) == Xs(a) + Xs(b)
  {
  }

  /** Rearranging the points rearranges their forward distances. */
  lemma {:induction false} XsPermutation(a: seq<LidarPoint>, b: seq<LidarPoint>)
    requires multiset(a) == multiset(b)
    ensures multiset(Xs(a)) == multiset(Xs(b))
    decreases |a|
  {
    if a == [] {
      assert |b| == |multiset(b)| == 0;
    } else {
      assert a[0] in multiset(b);
      var k :| 0 <= k < |b| && b[k] == a[0];
      var rest := b[..k] + b[k + 1..];
      assert b == b[..k] + [b[k]] + b[k + 1..];
      assert a == [a[0]] + a[1..];
      assert multiset(b) == multiset(b[..k]) + multiset{b[k]} + multiset(b[k + 1..]);
      assert multiset(rest) == multiset(b[..k]) + multiset(b[k + 1..]);
      assert multiset(a) == multiset{a[0]} + multiset(a[1..]);
      assert multiset(a[1..]) == multiset(a) - multiset{a[0]};
      assert multiset(rest) == multiset(b) - multiset{b[k]};
      XsPermutation(a[1..], rest);
      XsConcat([a[0]], a[1..]);
      XsConcat(b[..k], [b[k]]);
      XsConcat(b[..k] + [b[k]], b[k + 1..]);
      XsConcat(b[..k], b[k + 1..]);
    }
  }

  /** A list sorted by forward distance has sorted forward distances. */
  lemma SortedByXGivesSortedXs(points: seq<LidarPoint>)
    requires SortedBy(points, XKey)
    ensures Sorted(Xs(points))
  {
  }

  /** The TTC depends only on which points were measured, not on their order. */
  lemma LidarTtcOrderIndependent(prev: seq<LidarPoint>, prev': seq<LidarPoint>,
                                 curr: seq<LidarPoint>, curr': seq<LidarPoint>, dT: real)
    requires |prev| > 0 && |curr| > 0
    requires multiset(prev) == multiset(prev') && multiset(curr) == multiset(curr')
    ensures |prev'| > 0 && |curr'| > 0
    ensures LidarTtc(prev, curr, dT) == LidarTtc(prev', curr', dT)
  {
    assert |prev'| == |multiset(prev')| == |prev|;
    assert |curr'| == |multiset(curr')| == |curr|;
    XsPermutation(prev, prev');
    XsPermutation(curr, curr');
    MedianOrderIndependent(Xs(prev), Xs(prev'));
    MedianOrderIndependent(Xs(curr), Xs(curr'));
  }

  /** The median forward distance of an array sorted by forward distance. */
  method MedianX(points: array<LidarPoint>) returns (medX: real)
    requires points.Length > 0
    requires SortedBy(points[..], XKey)
    ensures medX == Median(Sort(Xs(points[..])))
  {
    SortedByXGivesSortedXs(points[..]);
    SortedPermutationIsSort(Xs(points[..]), Xs(points[..]));
    var medIdx := points.Length / 2;
    medX := if points.Length % 2 == 0 then (points[medIdx - 1].x + points[medIdx].x) / 2.0 else points[medIdx].x;
  }

  /** computeTTCLidar: sorts both point lists in place by forward distance
      (current frame first), takes the median forward distance of each and
      applies the constant-velocity model. */
  method ComputeTtcLidar(lidarPointsPrev: array<LidarPoint>, lidarPointsCurr: array<LidarPoint>,
                         frameRate: real) returns (ttc: Option<real>)
    requires lidarPointsPrev.Length > 0 && lidarPointsCurr.Length > 0
    requires frameRate > 0.0
    modifies lidarPointsPrev, lidarPointsCurr
    ensures SortedBy(lidarPointsPrev[..], XKey) && SortedBy(lidarPointsCurr[..], XKey)
    ensures multiset(lidarPointsPrev[..]) == multiset(old(lidarPointsPrev[..]))
    ensures multiset(lidarPointsCurr[..]) == multiset(old(lidarPointsCurr[..]))
    ensures ttc == LidarTtc(old(lidarPointsPrev[..]), old(lidarPointsCurr[..]), 1.0 / frameRate)
  {
    SortByKey(lidarPointsCurr, XKey);
    SortByKey(lidarPointsPrev, XKey);
    var medCurrX := MedianX(lidarPointsCurr);
    var medPrevX := MedianX(lidarPointsPrev);
    LidarTtcOrderIndependent(old(lidarPointsPrev[..]), lidarPointsPrev[..],
                             old(lidarPointsCurr[..]), lidarPointsCurr[..], 1.0 / frameRate);
    var dT := 1.0 / frameRate;
    ttc := LidarTtcFromMedians(dT, medPrevX, medCurrX);
  }
}
