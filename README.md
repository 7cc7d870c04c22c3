# Camera–lidar fusion core: box association, match filtering and time-to-collision

This project is a Dafny model of the fusion core of a 3D object-tracking
pipeline. The core sits between the object detector and the collision warning.
It has five operations:

- **clusterLidarWithROI** projects every lidar point into the image. It appends
  the point to the one bounding box whose shrunk region of interest contains the
  projected pixel. A point inside no shrunk box, or inside several, is dropped.
- **clusterKptMatchesWithROI** appends to a box the keypoint matches whose
  current-frame keypoint lies in the box. It then erases every match whose
  distance is below 0.7 times the mean distance.
- **computeTTCCamera** computes the ratio of current to previous pixel distance
  for pairs of matches. It keeps the ratios that pass a minimum-distance test
  and an epsilon test. The median of the sorted ratios gives
  TTC = -dT / (1 - median).
- **computeTTCLidar** sorts both point clouds in place by forward distance x,
  takes the median x of each and computes TTC = dT * d1 / (d0 - d1).
- **matchBoundingBoxes** attributes every match to the first current box and
  the first previous box containing its two keypoints. It records the resulting
  id pair in a multimap. Then, for every current box, it picks the previous id
  with the most votes and inserts (previous id, current id) into a map.

The model follows the source's form:
- Code that updates state in loops is written as methods with loop invariants.
  The box vector is an `array<BoundingBox>` updated in place. The sorts and
  `remove_if` work in place on arrays.
- Each method that computes a value is proved equal to a specification
  function. The in-place sort `Sorting.SortByKey` and its step
  `Sorting.SiftDown` are the exception. They are specified only by sortedness
  by the key (of the whole array, or of the prefix handled so far) and by
  keeping the same elements, since std::sort promises no more.
- The properties the code promises are proved about those functions as lemmas.

| file | module | models |
|---|---|---|
| `wrappers.dfy` | `Wrappers` | `Option`: `None` stands for a NaN or infinite result |
| `geometry.dfy` | `Geometry` | integer points and rectangles, `cv::Rect::contains`, the shrunk box |
| `records.dfy` | `Records` | lidar points, keypoints, matches, bounding boxes, frames |
| `filtering.dfy` | `Filtering` | order-preserving filtering, and `remove_if` + `erase` on an array |
| `sorting.dfy` | `Sorting` | sortedness, a reference sort, and the in-place `std::sort` |
| `statistics.dfy` | `Statistics` | the median rule shared by both TTC estimators |
| `lidar_clustering.dfy` | `LidarClustering` | clusterLidarWithROI |
| `keypoint_clustering.dfy` | `KeypointClustering` | clusterKptMatchesWithROI |
| `camera_ttc.dfy` | `CameraTtc` | computeTTCCamera |
| `lidar_ttc.dfy` | `LidarTtc` | computeTTCLidar |
| `box_matching.dfy` | `BoxMatching` | matchBoundingBoxes |

### Behaviour of the code worth knowing

The model states each of these as the code does it.

- **Shrinking is not monotone.** The code truncates the shrunk box's doubles to
  ints, so containment is not monotone in the shrink factor.
  `Geometry.ShrinkNotMonotone` exhibits a box and a pixel that are outside the
  box shrunk by 0.15 but inside the box shrunk by 0.2. What does hold is proved:
  the shrunk box never leaves the original box (`Geometry.ShrunkWithinRoi`).
- **Ordered pairs, some counted twice.** The camera estimator runs the outer
  index over 0 .. n-2 and the inner index over 1 .. n-1, always.
  - A self-pair (i, i) is visited for every i in 1 .. n-2. It is rejected
    whenever the norm of the zero vector is 0 (`CameraTtc.SelfPairRejected`).
  - A pair with both indices in 1 .. n-2 is visited in both orders. Under a
    symmetric norm it gives the same ratio twice (`CameraTtc.PairRatioSymmetric`).
  - A pair (0, j) or (i, n-1) is visited in one order only.
- **The mean uses the whole list.** The sum behind the 0.7 threshold covers only
  the matches added by this call. It is divided by the size of the box's whole
  match list, including matches the box held before.
  `KeypointClustering.ClusteredMatches` states this. The filter drops matches
  whose distance is *below* the threshold.
- **No votes means id 0.** A current box that received no votes is matched to
  previous id 0 (`BoxMatching.NoVotesChoosesZero`).
- **Stale ids are carried over.** When no current box contains a match's
  keypoint, the current id of the match before it is recorded again
  (`BoxMatching.StaleCurrIdCarriedOver`). The same holds for the previous id.

## Model

| member | source | states |
|---|---|---|
| Geometry.Sub | src/camFusion_Student.cpp:166-167 | the difference of two pixels is the zero vector exactly when they are equal |
| Geometry.TruncToInt | src/camFusion_Student.cpp:39-42 | assigning a double to an int field truncates toward zero: the result is within 1 of the value, on the side of 0 |
| Geometry.ShrinkByZero | src/camFusion_Student.cpp:38-42 | with shrink factor 0 the shrunk box is the box itself |
| Geometry.ShrunkIntervalInside | src/camFusion_Student.cpp:39-42 | along one axis, for 0 <= s < 1, the truncated shrunk interval lies inside the original interval |
| Geometry.ShrunkWithinRoi | src/camFusion_Student.cpp:38-45 | for 0 <= s < 1, a pixel inside the shrunk box is inside the original box |
| Geometry.ShrinkNotMonotone | src/camFusion_Student.cpp:38-45 | a concrete box and pixel: outside the box shrunk by 0.15, inside the box shrunk by 0.2 |
| Filtering.Filter | src/camFusion_Student.cpp:145-146 | the kept elements are never more than the input |
| Filtering.FilterContents | src/camFusion_Student.cpp:145-146 | every kept element passes the test; each element is kept as often as it occurs when it passes, else never |
| Filtering.FilterIsSubsequence | src/camFusion_Student.cpp:145-146 | the kept elements keep their relative order |
| Filtering.FilterKeepsAll | src/camFusion_Student.cpp:145-146 | when every element passes, nothing is removed |
| Filtering.FilterIdempotent | src/camFusion_Student.cpp:145-146 | filtering twice with the same test equals filtering once |
| Filtering.RemoveIf | src/camFusion_Student.cpp:145-146 | remove_if compacts the array in place: its prefix up to the returned end is the input without the removed elements, in order |
| Sorting.Insert | src/camFusion_Student.cpp:182 | inserting into a sorted list gives a sorted list with one more copy of the element |
| Sorting.Sort | src/camFusion_Student.cpp:182 | the reference sort is sorted and a permutation of its input |
| Sorting.SortedUnique | src/camFusion_Student.cpp:182-184 | two sorted lists with the same elements are equal, so any correct sort gives the same sorted ratios |
| Sorting.SortedPermutationIsSort | src/camFusion_Student.cpp:182-184 | any sorted rearrangement of a list is its reference sort |
| Sorting.SortByKey | src/camFusion_Student.cpp:195-197 | std::sort with a key comparator (by x here; with the identity key also the sort at line 182): afterwards the array is sorted by the key and holds the same elements |
| Statistics.Median | src/camFusion_Student.cpp:183-184 | on sorted input the median is at least the lower half, at most the upper half, and between the minimum and the maximum |
| Statistics.MedianOrderIndependent | src/camFusion_Student.cpp:182-184 | the median of the sorted values depends only on the values, not on their input order |
| LidarClustering.EnclosingBoxes | src/camFusion_Student.cpp:34-50 | the enclosing list holds exactly the indices of the boxes whose shrunk roi contains the pixel, in increasing order |
| LidarClustering.EnclosingOfSole | src/camFusion_Student.cpp:34-50 | when k is the only containing box, the enclosing list of the first n boxes is [k] if k < n, else empty |
| LidarClustering.SoleContainerIffSingleton | src/camFusion_Student.cpp:52-53 | the enclosing list is [k] exactly when box k is the only box containing the pixel |
| LidarClustering.OwnerIsSoleContainer | src/camFusion_Student.cpp:52-57 | a pixel is assigned to box k exactly when k is the only containing box; zero or several containing boxes assign it nowhere |
| LidarClustering.OwnerInRange | src/camFusion_Student.cpp:52-57 | an assigned box is an existing box |
| LidarClustering.ShrunkRoisSameRois | src/camFusion_Student.cpp:35-45 | the test rectangles depend only on the boxes' rois, which the loop does not change |
| LidarClustering.CollectEnclosing | src/camFusion_Student.cpp:34-50 | the inner loop builds exactly the enclosing list of the point |
| LidarClustering.ClusterLidarWithRoi | src/camFusion_Student.cpp:14-60 | afterwards each box holds its previous points followed, in input order, by exactly the points whose projection only it contains; every other field is unchanged |
| LidarClustering.AssignedPointsInsideRoi | src/camFusion_Student.cpp:38-57 | for 0 <= s < 1, every point assigned to a box projects inside the box's unshrunk roi |
| LidarClustering.TotalAssignedIsOwnedCount | src/camFusion_Student.cpp:52-57 | each point is assigned to at most one box: the number of points added over all boxes equals the number of points with an owner, and is at most the number of input points |
| KeypointClustering.MatchesInRoiStep | src/camFusion_Student.cpp:134-141 | one loop step appends the match and adds its distance exactly when its current keypoint is in the roi |
| KeypointClustering.ClusterKptMatchesWithRoi | src/camFusion_Student.cpp:131-148 | the box's match list becomes the previous list plus the in-roi matches, without those whose distance is below 0.7 times sumDist / list size; every other field is unchanged |
| KeypointClustering.MatchesInRoiContents | src/camFusion_Student.cpp:134-141 | the appended matches are exactly the input matches whose current keypoint is in the roi, with their multiplicity, in input order |
| KeypointClustering.ClusteredMatchesFiltered | src/camFusion_Student.cpp:143-146 | every surviving match has distance at least the threshold; a match survives as often as it occurs exactly when it reaches the threshold; order is kept |
| KeypointClustering.RefilterRemovesNothing | src/camFusion_Student.cpp:145-146 | erasing with the same threshold a second time removes nothing |
| KeypointClustering.NothingBelowThresholdKeepsAll | src/camFusion_Student.cpp:143-146 | when no match is below 0.7 times the mean, the list is kept whole |
| CameraTtc.PairRatio | src/camFusion_Student.cpp:162-172 | a kept ratio is positive |
| CameraTtc.TtcFromMedian | src/camFusion_Student.cpp:185-186 | the TTC is finite exactly when the median ratio is not 1 |
| CameraTtc.TtcFromMedianSolves | src/camFusion_Student.cpp:185-186 | the TTC solves ttc * (1 - median) = -dT |
| CameraTtc.RowRatiosMembers | src/camFusion_Student.cpp:160-174 | a ratio is in a row exactly when some inner index 1 .. jEnd-1 keeps that ratio |
| CameraTtc.DistRatiosMembers | src/camFusion_Student.cpp:155-175 | a ratio is collected exactly when some pair (i, j), i in 0 .. iEnd-1 and j in 1 .. n-1, keeps that ratio |
| CameraTtc.RowRatiosCount | src/camFusion_Student.cpp:160-174 | a row holds at most one ratio per inner index |
| CameraTtc.DistRatiosCount | src/camFusion_Student.cpp:155-175 | at most iEnd * (n - 1) ratios are collected |
| CameraTtc.CollectedRatiosPositive | src/camFusion_Student.cpp:155-175 | every collected ratio is positive |
| CameraTtc.SelfPairRejected | src/camFusion_Student.cpp:162-172 | a match paired with itself is never kept when the norm of the zero vector is 0 |
| CameraTtc.PairRatioSymmetric | src/camFusion_Student.cpp:155-172 | under a symmetric norm, pairs (i, j) and (j, i) have the same outcome |
| CameraTtc.CollectRow | src/camFusion_Student.cpp:157-174 | the inner loop appends exactly the row of kept ratios for the outer index |
| CameraTtc.CollectRatios | src/camFusion_Student.cpp:154-175 | the nested loops collect exactly the kept ratios of all visited pairs, in visiting order |
| CameraTtc.SortedMedian | src/camFusion_Student.cpp:182-184 | sorting the ratios in place and reading off the middle gives the median of the sorted ratios |
| CameraTtc.ComputeTtcCamera | src/camFusion_Student.cpp:151-189 | the result is None (NaN) when no ratio is kept, else -dT / (1 - median of the kept ratios), with None for an infinite result |
| CameraTtc.TtcSign | src/camFusion_Student.cpp:185-186 | for dT > 0 the TTC is positive exactly when the median ratio exceeds 1 |
| CameraTtc.TtcOrderIndependent | src/camFusion_Student.cpp:177-186 | the camera TTC depends only on which ratios were collected, not on their order |
| CameraTtc.TtcFromSortedArrangement | src/camFusion_Student.cpp:182-186 | the TTC can be read off any sorted arrangement of the ratios |
| CameraTtc.TtcExample | src/camFusion_Student.cpp:182-186 | ratios 1.05, 0.9, 1.0, 0.95 at 10 Hz give a TTC of -4 s |
| LidarTtc.LidarTtcFromMedians | src/camFusion_Student.cpp:205-206 | the TTC is finite exactly when the two median distances differ |
| LidarTtc.LidarTtcSolves | src/camFusion_Student.cpp:205-206 | the TTC solves ttc * (d0 - d1) = dT * d1 |
| LidarTtc.LidarTtcSign | src/camFusion_Student.cpp:205-206 | for dT > 0 and d1 > 0 the TTC is positive exactly when the object came closer (d0 > d1) |
| LidarTtc.LidarTtcExample | src/camFusion_Student.cpp:205-206 | medians 8.0 m and 7.5 m at 10 Hz give a TTC of 1.5 s |
| LidarTtc.XsPermutation | src/camFusion_Student.cpp:194-203 | rearranging the points rearranges their forward distances |
| LidarTtc.SortedByXGivesSortedXs | src/camFusion_Student.cpp:194-203 | points sorted by x have sorted forward distances |
| LidarTtc.LidarTtcOrderIndependent | src/camFusion_Student.cpp:191-208 | the lidar TTC depends only on which points were measured, not on their order |
| LidarTtc.MedianX | src/camFusion_Student.cpp:199-203 | the middle of an array sorted by x is the median of the sorted forward distances |
| LidarTtc.ComputeTtcLidar | src/camFusion_Student.cpp:191-208 | both arrays end sorted by x and hold the same points; the TTC is dT * d1 / (d0 - d1) for the median distances of the original points, None when they are equal |
| BoxMatching.FirstContaining | src/camFusion_Student.cpp:221-236 | the search finds the first box, in list order, containing the pixel, or reports that none contains it |
| BoxMatching.Recorded | src/camFusion_Student.cpp:216-240 | one recorded pair per processed match |
| BoxMatching.MaxPrevId | src/camFusion_Student.cpp:215-239 | prevMaxId is at least 0 and every recorded previous id, and is 0 or one of them |
| BoxMatching.FirstArgMax | src/camFusion_Student.cpp:265 | max_element finds a largest counter, and every earlier counter is strictly smaller |
| BoxMatching.IdsAfterRange | src/camFusion_Student.cpp:216-236 | the carried ids are -1 or the id of a box of the matching frame |
| BoxMatching.RecordedIsIdsAfter | src/camFusion_Student.cpp:216-240 | the pair recorded for a match is the pair of carried ids just after it |
| BoxMatching.RecordedPrevIdsRange | src/camFusion_Student.cpp:216-240 | every recorded previous id is -1 or a previous box's id |
| BoxMatching.RecordedPrevIdsBounded | src/camFusion_Student.cpp:239-261 | with previous box ids of at least -1, every recorded previous id lies in -1 .. prevMaxId, so counting it never leaves the counter vector |
| BoxMatching.VotesPositiveIffRecorded | src/camFusion_Student.cpp:250-263 | a previous id has votes for cid exactly when the pair (cid, id) was recorded |
| BoxMatching.BestPrevIdIsLowestMajority | src/camFusion_Student.cpp:248-266 | the chosen id has the most votes among all ids >= 0, and every smaller id has strictly fewer, so ties go to the lowest id |
| BoxMatching.NoVotesChoosesZero | src/camFusion_Student.cpp:253-265 | a current box without votes is matched to previous id 0 |
| BoxMatching.MajorityExample | src/camFusion_Student.cpp:248-266 | votes 2, 3, 2, 2 for current box 5 choose previous box 2 |
| BoxMatching.TieExample | src/camFusion_Student.cpp:248-266 | a tie between 3 (recorded first) and 2 is won by 2 |
| BoxMatching.StaleCurrIdCarriedOver | src/camFusion_Student.cpp:213-237 | a match whose current keypoint lies in no box is recorded with the previous match's current id, or -1 for the first match |
| BoxMatching.InsertBestKeepsExisting | src/camFusion_Student.cpp:266 | existing entries of bbBestMatches are never overwritten |
| BoxMatching.InsertBestKeys | src/camFusion_Student.cpp:248-267 | the keys afterwards are the old keys and the chosen previous ids of the current boxes |
| BoxMatching.InsertBestFirstWins | src/camFusion_Student.cpp:248-267 | a new key maps to the first current box, in list order, that chose it |
| BoxMatching.FindBoxId | src/camFusion_Student.cpp:221-228 | the loop with break leaves the first containing box's id, or the carried value |
| BoxMatching.RecordIds | src/camFusion_Student.cpp:212-240 | the first loop records exactly the pairs of the carried ids, and prevMaxId is their maximum (at least 0) |
| BoxMatching.CollectBoxIds | src/camFusion_Student.cpp:242-246 | the collected ids are the current boxes' ids in order |
| BoxMatching.CountVotes | src/camFusion_Student.cpp:253-263 | the counters equal the votes of every previous id 0 .. prevMaxId |
| BoxMatching.MaxElementIndex | src/camFusion_Student.cpp:265 | the scan returns the first maximal counter |
| BoxMatching.BestMatchFor | src/camFusion_Student.cpp:250-265 | counting and scanning choose the best previous id for cid |
| BoxMatching.InsertBestMatches | src/camFusion_Student.cpp:248-267 | the second loop inserts (best previous id, cid) for each current box in order, without overwriting |
| BoxMatching.MatchBoundingBoxes | src/camFusion_Student.cpp:210-270 | the resulting map is the input map with (best previous id, cid) inserted for each current box in list order, without overwriting |

## Left out

- show3DObjects (src/camFusion_Student.cpp:62-128) draws a top view. It is rendering and keyboard waiting, with no result.
- The projection P_rect * R_rect * RT * X and the division by the third coordinate (src/camFusion_Student.cpp:17-32) are the parameter `project: LidarPoint -> Point`. Matrix arithmetic and the double-to-int pixel conversion are not modelled. A zero third coordinate is not modelled either.
- cv::norm is the parameter `norm: Point -> real`. Square roots and floating point are outside the model. The symmetry and zero-vector facts are stated as preconditions of the lemmas that need them.
- Doubles and floats are exact reals. Rounding, overflow, NaN propagation and the float type of the shrink factor are not modelled. A NaN or infinite result is `None`. Epsilon is the exact value 2^-52.
- Keypoint positions are integer pixels. The float keypoint coordinates and their rounding inside `contains` are not modelled.
- The `BoundingBox &` and `std::map &` parameters are values: the model passes them in and returns the updated value. Aliasing between such a parameter and other data is not modelled. The lidar TTC arrays may alias each other.
- clusterKptMatchesWithROI's kptsPrev parameter is unused by the code and is left out. computeTTCCamera's visImg parameter is unused and is left out.
- The multimap of matchBoundingBoxes is a list in insertion order. Its equal_range for a current id is a scan of the whole list that keeps the entries with that id. Only the counts matter, and they are the same.
- BoxMatching.MatchBoundingBoxes requires previous-frame box ids of at least -1. A smaller id would index the counter vector out of range.
- Behaviour that is undefined in the source becomes a precondition:
  - CameraTtc.ComputeTtcCamera requires at least one match, because `end() - 1` of an empty vector is undefined.
  - LidarTtc.ComputeTtcLidar requires both point lists to be non-empty.
  - All operations require valid keypoint indices.
  - Both TTC methods require a positive frame rate.
- std::sort is not stable and does not fix an order among equal keys. SortByKey is one sort that meets its contract. The lidar contract therefore states only sortedness and the same elements, not one particular order.
