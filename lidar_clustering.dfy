/** Association of lidar points with bounding boxes (clusterLidarWithROI). */
module LidarClustering {
  import opened Wrappers
  import opened Geometry
  import opened Records
  import opened Filtering

  /** The test rectangle of every box: its roi shrunk by `shrinkFactor`. */
  function ShrunkRois(boxes: seq<BoundingBox>, shrinkFactor: real): seq<Rect>
  {
    seq(|boxes|, k requires 0 <= k < |boxes| => ShrinkRect(boxes[k].roi, shrinkFactor))
  }

  /** Indices, in enumeration order, of the rectangles among the first `n` that
      contain pixel `pt` (the `enclosingBoxes` vector). */
  function EnclosingBoxes(rects: seq<Rect>, n: nat, pt: Point): (r: seq<nat>)
    requires n <= |rects|
    ensures forall a :: 0 <= a < |r| ==> r[a] < n
    ensures forall k: nat :: k in r <==> k < n && Contains(rects[k], pt)
    ensures forall a, b :: 0 <= a < b < |r| ==> r[a] < r[b]
  {
    if n == 0 then []
    else EnclosingBoxes(rects, n - 1, pt) + (if Contains(rects[n - 1], pt) then [n - 1] else [])
  }

  /** Rectangle `k` contains pixel `pt` and no other rectangle does. */
  predicate SoleContainer(rects: seq<Rect>, k: nat, pt: Point)
    requires k < |rects|
  {
    Contains(rects[k], pt) && forall j :: 0 <= j < |rects| && j != k ==> !Contains(rects[j], pt)
  }

  /** With a sole container `k`, the enclosing list of the first `n`
      rectangles holds `k` alone once `k` is among them, and is empty before. */
  lemma {:induction false} EnclosingOfSole(rects: seq<Rect>, n: nat, k: nat, pt: Point)
    requires k < |rects| && n <= |rects|
    requires SoleContainer(rects, k, pt)
    ensures EnclosingBoxes(rects, n, pt) == if n <= k then [] else [k]
  {
    if n > 0 {
      EnclosingOfSole(rects, n - 1, k, pt);
    }
  }

  /** A rectangle is the sole container of a pixel exactly when the
      enclosing list holds that rectangle alone. */
  lemma SoleContainerIffSingleton(rects: seq<Rect>, k: nat, pt: Point)
    requires k < |rects|
    ensures SoleContainer(rects, k, pt) <==> EnclosingBoxes(rects, |rects|, pt) == [k]
  {
    var enclosing := EnclosingBoxes(rects, |rects|, pt);
    if SoleContainer(rects, k, pt) {
      EnclosingOfSole(rects, |rects|, k, pt);
    }
    if enclosing == [k] {
      assert k in enclosing;
      forall j | 0 <= j < |rects| && j != k ensures !Contains(rects[j], pt) {
        assert j !in enclosing;
      }
    }
  }

  /** The box a pixel is assigned to: the only rectangle that contains it, and
      no box when zero or several do. */
  function Owner(rects: seq<Rect>, pt: Point): Option<nat>
  {
    var enclosing := EnclosingBoxes(rects, |rects|, pt);
    if |enclosing| == 1 then Some(enclosing[0]) else None
  }

  /** The assignment rule: a pixel goes to box `k` exactly when `k` is the only
      box whose test rectangle contains it. */
  lemma OwnerIsSoleContainer(rects: seq<Rect>, pt: Point, k: nat)
    requires k < |rects|
    ensures Owner(rects, pt) == Some(k) <==> SoleContainer(rects, k, pt)
  {
    var enclosing := EnclosingBoxes(rects, |rects|, pt);
    SoleContainerIffSingleton(rects, k, pt);
    if |enclosing| == 1 {
      assert enclosing == [enclosing[0]];
    }
  }

  /** Owners are box indices. */
  lemma OwnerInRange(rects: seq<Rect>, pt: Point)
    ensures Owner(rects, pt).Some? ==> Owner(rects, pt).value < |rects|
  {
    var enclosing := EnclosingBoxes(rects, |rects|, pt);
    if |enclosing| == 1 {
      assert enclosing[0] in enclosing;
    }
  }

  /** The points of `lidarPoints`, in order, whose projected pixel is owned by box `k`. */
  function AssignedTo(rects: seq<Rect>, project: LidarPoint -> Point, lidarPoints: seq<LidarPoint>, k: nat)
    : seq<LidarPoint>
  {
    Filter(p => Owner(rects, project(p)) == Some(k), lidarPoints)
  }

  /** The test rectangles depend on the boxes' rois only. */
  lemma ShrunkRoisSameRois(a: seq<BoundingBox>, b: seq<BoundingBox>, shrinkFactor: real)
    requires |a| == |b|
    requires forall k :: 0 <= k < |a| ==> a[k].roi == b[k].roi
    ensures ShrunkRois(a, shrinkFactor) == ShrunkRois(b, shrinkFactor)
  {
  }

  /** Collects, in enumeration order, the boxes whose shrunk rectangle
      contains `pt` (the inner loop over the boxes). */
  method CollectEnclosing(boundingBoxes: array<BoundingBox>, shrinkFactor: real, pt: Point)
    returns (enclosingBoxes: seq<nat>)
    ensures enclosingBoxes == EnclosingBoxes(ShrunkRois(boundingBoxes[..], shrinkFactor), boundingBoxes.Length, pt)
  {
    ghost var rects := ShrunkRois(boundingBoxes[..], shrinkFactor);
    enclosingBoxes := [];
    var j := 0;
    while j < boundingBoxes.Length
      invariant 0 <= j <= boundingBoxes.Length
      invariant enclosingBoxes == EnclosingBoxes(rects, j, pt)
    {
      var smallerBox := ShrinkRect(boundingBoxes[j].roi, shrinkFactor);
      assert smallerBox == rects[j];
      if Contains(smallerBox, pt) {
        enclosingBoxes := enclosingBoxes + [j];
      }
      j := j + 1;
    }
  }

  /** Box `box` (at index `k`) after the points of `lidarPoints` that it owns
      have been appended. */
  function WithAssigned(box: BoundingBox, rects: seq<Rect>, project: LidarPoint -> Point,
                        lidarPoints: seq<LidarPoint>, k: nat): BoundingBox
  {
    box.(lidarPoints := box.lidarPoints + AssignedTo(rects, project, lidarPoints, k))
  }

  /** Processing one more point appends it to its owner's list only. */
  lemma AssignedToStep(box: BoundingBox, rects: seq<Rect>, project: LidarPoint -> Point,
                       lidarPoints: seq<LidarPoint>, i: nat, k: nat)
    requires i < |lidarPoints|
    ensures WithAssigned(box, rects, project, lidarPoints[..i + 1], k)
      == if Owner(rects, project(lidarPoints[i])) == Some(k)
         then WithAssigned(box, rects, project, lidarPoints[..i], k).(lidarPoints :=
                WithAssigned(box, rects, project, lidarPoints[..i], k).lidarPoints + [lidarPoints[i]])
         else WithAssigned(box, rects, project, lidarPoints[..i], k)
  {
    assert lidarPoints[..i + 1] == lidarPoints[..i] + [lidarPoints[i]];
    FilterSnoc(p => Owner(rects, project(p)) == Some(k), lidarPoints[..i], lidarPoints[i]);
  }

  /** For every lidar point, project it into the image and append it to the one
      box whose shrunk rectangle alone contains its pixel; all other fields of
      every box, and the points a box already held, stay as they were. */
  method ClusterLidarWithRoi(boundingBoxes: array<BoundingBox>, lidarPoints: seq<LidarPoint>,
                             shrinkFactor: real, project: LidarPoint -> Point)
    modifies boundingBoxes
    ensures forall k :: 0 <= k < boundingBoxes.Length ==>
      boundingBoxes[k] == old(boundingBoxes[k]).(lidarPoints := old(boundingBoxes[k]).lidarPoints
        + AssignedTo(ShrunkRois(old(boundingBoxes[..]), shrinkFactor), project, lidarPoints, k))
  {
    ghost var boxes0 := boundingBoxes[..];
    ghost var rects := ShrunkRois(boxes0, shrinkFactor);
    var i := 0;
    while i < |lidarPoints|
      invariant 0 <= i <= |lidarPoints|
      invariant forall k :: 0 <= k < boundingBoxes.Length ==>
        boundingBoxes[k] == WithAssigned(boxes0[k], rects, project, lidarPoints[..i], k)
    {
      var pt := project(lidarPoints[i]);
      var enclosingBoxes := CollectEnclosing(boundingBoxes, shrinkFactor, pt);
      ShrunkRoisSameRois(boundingBoxes[..], boxes0, shrinkFactor);
      ghost var owner := Owner(rects, pt);
      assert owner == if |enclosingBoxes| == 1 then Some(enclosingBoxes[0]) else None;
      ghost var before := boundingBoxes[..];
      if |enclosingBoxes| == 1 {
        var b := enclosingBoxes[0];
        boundingBoxes[b] := boundingBoxes[b].(lidarPoints := boundingBoxes[b].lidarPoints + [lidarPoints[i]]);
      }
      forall k | 0 <= k < boundingBoxes.Length
        ensures boundingBoxes[k] == WithAssigned(boxes0[k], rects, project, lidarPoints[..i + 1], k)
      {
        AssignedToStep(boxes0[k], rects, project, lidarPoints, i, k);
        if owner == Some(k) {
          assert boundingBoxes[k] == before[k].(lidarPoints := before[k].lidarPoints + [lidarPoints[i]]);
        } else {
          assert boundingBoxes[k] == before[k];
        }
      }
      i := i + 1;
    }
    assert lidarPoints[..i] == lidarPoints;
  }

  /** Every point appended to box `k` projects into the box's own roi, since
      the test rectangle lies inside the roi for 0 <= shrinkFactor < 1. */
  lemma AssignedPointsInsideRoi(boxes: seq<BoundingBox>, shrinkFactor: real, project: LidarPoint -> Point,
                                lidarPoints: seq<LidarPoint>, k: nat)
    requires 0.0 <= shrinkFactor < 1.0
    requires k < |boxes|
    ensures forall p :: p in AssignedTo(ShrunkRois(boxes, shrinkFactor), project, lidarPoints, k) ==>
      Contains(boxes[k].roi, project(p))
  {
    var rects := ShrunkRois(boxes, shrinkFactor);
    var owned := AssignedTo(rects, project, lidarPoints, k);
    FilterContents(p => Owner(rects, project(p)) == Some(k), lidarPoints);
    forall p | p in owned ensures Contains(boxes[k].roi, project(p)) {
      var a :| 0 <= a < |owned| && owned[a] == p;
      OwnerIsSoleContainer(rects, project(p), k);
      ShrunkWithinRoi(boxes[k].roi, shrinkFactor, project(p));
    }
  }

  /** Number of points appended to the first `m` boxes. */
  function TotalAssigned(rects: seq<Rect>, project: LidarPoint -> Point, lidarPoints: seq<LidarPoint>, m: nat): nat
  {
    if m == 0 then 0
    else TotalAssigned(rects, project, lidarPoints, m - 1) + |AssignedTo(rects, project, lidarPoints, m - 1)|
  }

  /** The points that have an owner at all. */
  function Owned(rects: seq<Rect>, project: LidarPoint -> Point, lidarPoints: seq<LidarPoint>): seq<LidarPoint>
  {
    Filter(p => Owner(rects, project(p)).Some?, lidarPoints)
  }

  /** One more point adds one to box `k`'s share exactly when `k` owns it. */
  lemma AssignedToSnoc(rects: seq<Rect>, project: LidarPoint -> Point,
                       lidarPoints: seq<LidarPoint>, p: LidarPoint, k: nat)
    ensures |AssignedTo(rects, project, lidarPoints + [p], k)|
      == |AssignedTo(rects, project, lidarPoints, k)| + (if Owner(rects, project(p)) == Some(k) then 1 else 0)
  {
    FilterSnoc(q => Owner(rects, project(q)) == Some(k), lidarPoints, p);
  }

  lemma {:induction false} TotalAssignedSnoc(rects: seq<Rect>, project: LidarPoint -> Point,
                                             lidarPoints: seq<LidarPoint>, p: LidarPoint, m: nat)
    ensures TotalAssigned(rects, project, lidarPoints + [p], m)
      == TotalAssigned(rects, project, lidarPoints, m)
         + (if Owner(rects, project(p)).Some? && Owner(rects, project(p)).value < m then 1 else 0)
  {
    if m > 0 {
      TotalAssignedSnoc(rects, project, lidarPoints, p, m - 1);
      AssignedToSnoc(rects, project, lidarPoints, p, m - 1);
    }
  }

  /** Each point is appended to at most one box: the number appended over all
      boxes is the number of points with an owner, at most the number of points. */
  lemma {:induction false} TotalAssignedIsOwnedCount(rects: seq<Rect>, project: LidarPoint -> Point,
                                                     lidarPoints: seq<LidarPoint>)
    ensures TotalAssigned(rects, project, lidarPoints, |rects|) == |Owned(rects, project, lidarPoints)|
    ensures TotalAssigned(rects, project, lidarPoints, |rects|) <= |lidarPoints|
    decreases |lidarPoints|
  {
    if lidarPoints == [] {
      TotalAssignedOfNone(rects, project, |rects|);
    } else {
      var init, p := lidarPoints[..|lidarPoints| - 1], lidarPoints[|lidarPoints| - 1];
      assert lidarPoints == init + [p];
      TotalAssignedIsOwnedCount(rects, project, init);
      TotalAssignedSnoc(rects, project, init, p, |rects|);
      FilterSnoc(q => Owner(rects, project(q)).Some?, init, p);
      OwnerInRange(rects, project(p));
    }
  }

  lemma {:induction false} TotalAssignedOfNone(rects: seq<Rect>, project: LidarPoint -> Point, m: nat)
    ensures TotalAssigned(rects, project, [], m) == 0
  {
    if m > 0 {
      TotalAssignedOfNone(rects, project, m - 1);
    }
  }
}
