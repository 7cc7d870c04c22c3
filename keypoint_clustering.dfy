/** Association of keypoint matches with one bounding box, followed by the
    distance filter (clusterKptMatchesWithROI). */
module KeypointClustering {
  import opened Geometry
  import opened Records
  import opened Filtering

  /** Factor applied to the mean distance to obtain the removal threshold. */
  const MeanFactor: real := 0.7

  /** Every match names a current-frame keypoint that exists. */
  predicate TrainIndicesValid(kptsCurr: seq<KeyPoint>, kptMatches: seq<Match>)
  {
    forall k :: 0 <= k < |kptMatches| ==> 0 <= kptMatches[k].trainIdx < |kptsCurr|
  }

  /** The match's current-frame keypoint lies inside `roi`. */
  predicate CurrInRoi(roi: Rect, kptsCurr: seq<KeyPoint>, m: Match)
  {
    0 <= m.trainIdx < |kptsCurr| && Contains(roi, kptsCurr[m.trainIdx].pt)
  }

  /** The matches, in order, whose current-frame keypoint lies inside `roi`. */
  function MatchesInRoi(roi: Rect, kptsCurr: seq<KeyPoint>, kptMatches: seq<Match>): seq<Match>
  {
    Filter(m => CurrInRoi(roi, kptsCurr, m), kptMatches)
  }

  /** Sum of the distances of `ms`. */
  function SumDist(ms: seq<Match>): real
  {
    if ms == [] then 0.0 else SumDist(ms[..|ms| - 1]) + ms[|ms| - 1].distance
  }

  /** The removal test: distance below the threshold. */
  function BelowThreshold(threshold: real): Match -> bool
  {
    (m: Match) => m.distance < threshold
  }

  /** The box's match list after clustering: the previous entries followed by
      the added ones, without those whose distance is below 0.7 times the mean.
      The mean divides the sum over the ADDED matches by the size of the whole
      list. An empty list (where the mean would be NaN) stays empty. */
  function ClusteredMatches(existing: seq<Match>, added: seq<Match>): seq<Match>
  {
    var all := existing + added;
    if |all| == 0 then []
    else Filter(Not(BelowThreshold(MeanFactor * (SumDist(added) / |all| as real))), all)
  }

  /** One more input match: it is appended exactly when its current keypoint
      lies in the roi, and the sum of distances grows by its distance. */
  lemma MatchesInRoiStep(roi: Rect, kptsCurr: seq<KeyPoint>, kptMatches: seq<Match>, i: nat)
    requires i < |kptMatches|
    ensures var before := MatchesInRoi(roi, kptsCurr, kptMatches[..i]);
      var m := kptMatches[i];
      && MatchesInRoi(roi, kptsCurr, kptMatches[..i + 1]) == before + (if CurrInRoi(roi, kptsCurr, m) then [m] else [])
      && SumDist(MatchesInRoi(roi, kptsCurr, kptMatches[..i + 1]))
         == SumDist(before) + (if CurrInRoi(roi, kptsCurr, m) then m.distance else 0.0)
  {
    var before := MatchesInRoi(roi, kptsCurr, kptMatches[..i]);
    var m := kptMatches[i];
    assert kptMatches[..i + 1] == kptMatches[..i] + [m];
    FilterSnoc(m => CurrInRoi(roi, kptsCurr, m), kptMatches[..i], m);
    if CurrInRoi(roi, kptsCurr, m) {
      var after := before + [m];
      assert after[..|after| - 1] == before;
      assert SumDist(after) == SumDist(before) + m.distance;
    } else {
      assert before + [] == before;
    }
  }

  /** Appends every match whose current keypoint lies inside the box's roi,
      accumulating their distances, then erases in place the entries whose
      distance is below 0.7 times the mean; the box is otherwise unchanged. */
  method ClusterKptMatchesWithRoi(boundingBox: BoundingBox, kptsCurr: seq<KeyPoint>, kptMatches: seq<Match>)
    returns (updated: BoundingBox)
    requires TrainIndicesValid(kptsCurr, kptMatches)
    ensures updated == boundingBox.(kptMatches :=
      ClusteredMatches(boundingBox.kptMatches, MatchesInRoi(boundingBox.roi, kptsCurr, kptMatches)))
  {
    var roi := boundingBox.roi;
    var list := boundingBox.kptMatches;
    var sumDist := 0.0;
    for i := 0 to |kptMatches|
      invariant list == boundingBox.kptMatches + MatchesInRoi(roi, kptsCurr, kptMatches[..i])
      invariant sumDist == SumDist(MatchesInRoi(roi, kptsCurr, kptMatches[..i]))
    {
      var m := kptMatches[i];
      MatchesInRoiStep(roi, kptsCurr, kptMatches, i);
      if Contains(roi, kptsCurr[m.trainIdx].pt) {
        list := list + [m];
        sumDist := sumDist + m.distance;
      }
    }
    assert kptMatches[..|kptMatches|] == kptMatches;
    if |list| == 0 {
      updated := boundingBox.(kptMatches := []);
    } else {
      var meanDist := sumDist / |list| as real;
      var a := new Match[|list|](k requires 0 <= k < |list| => list[k]);
      assert a[..] == list;
      var end := RemoveIf(a, BelowThreshold(MeanFactor * meanDist));
      updated := boundingBox.(kptMatches := a[..end]);
    }
  }

  /** Exactly the matches whose current keypoint lies in the roi are appended,
      each as often as it occurs in the input, in input order. */
  lemma MatchesInRoiContents(roi: Rect, kptsCurr: seq<KeyPoint>, kptMatches: seq<Match>)
    ensures forall k :: 0 <= k < |MatchesInRoi(roi, kptsCurr, kptMatches)| ==>
      CurrInRoi(roi, kptsCurr, MatchesInRoi(roi, kptsCurr, kptMatches)[k])
    ensures forall m :: multiset(MatchesInRoi(roi, kptsCurr, kptMatches))[m]
                        == if CurrInRoi(roi, kptsCurr, m) then multiset(kptMatches)[m] else 0
    ensures SubsequenceOf(MatchesInRoi(roi, kptsCurr, kptMatches), kptMatches)
  {
    FilterContents(m => CurrInRoi(roi, kptsCurr, m), kptMatches);
    FilterIsSubsequence(m => CurrInRoi(roi, kptsCurr, m), kptMatches);
  }

  /** After clustering no entry has distance below 0.7 times the mean, an
      entry survives exactly when its distance reaches that threshold, and
      the survivors keep their relative order. */
  lemma ClusteredMatchesFiltered(existing: seq<Match>, added: seq<Match>)
    requires |existing + added| > 0
    ensures var threshold := MeanFactor * (SumDist(added) / |existing + added| as real);
      var r := ClusteredMatches(existing, added);
      && (forall k :: 0 <= k < |r| ==> threshold <= r[k].distance)
      && (forall m :: multiset(r)[m] == if threshold <= m.distance then multiset(existing + added)[m] else 0)
      && SubsequenceOf(r, existing + added)
  {
    var threshold := MeanFactor * (SumDist(added) / |existing + added| as real);
    FilterContents(Not(BelowThreshold(threshold)), existing + added);
    FilterIsSubsequence(Not(BelowThreshold(threshold)), existing + added);
  }

  /** Filtering an already filtered list again with the same threshold
      removes nothing. */
  lemma RefilterRemovesNothing(threshold: real, ms: seq<Match>)
    ensures var once := Filter(Not(BelowThreshold(threshold)), ms);
      Filter(Not(BelowThreshold(threshold)), once) == once
  {
    FilterIdempotent(Not(BelowThreshold(threshold)), ms);
  }

  /** When every match reaches 0.7 times the mean, the filter keeps the whole list. */
  lemma NothingBelowThresholdKeepsAll(existing: seq<Match>, added: seq<Match>)
    requires |existing + added| > 0
    requires forall k :: 0 <= k < |existing + added| ==>
      MeanFactor * (SumDist(added) / |existing + added| as real) <= (existing + added)[k].distance
    ensures ClusteredMatches(existing, added) == existing + added
  {
    FilterKeepsAll(Not(BelowThreshold(MeanFactor * (SumDist(added) / |existing + added| as real))), existing + added);
  }
}
