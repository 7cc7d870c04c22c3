/** Box tracking between two frames (matchBoundingBoxes): every keypoint match
    votes for the pair (current box, previous box) that contains its two ends,
    and each current box is paired with the previous box it received most
    votes for. */
module BoxMatching {
  import opened Wrappers
  import opened Geometry
  import opened Records

  /** One entry of the id multimap: the current and the previous box id that a
      match was attributed to (-1 before any box was found). */
  datatype IdPair = IdPair(currId: int, prevId: int)

  /** The position, in list order, of the first box whose ROI contains `pt`. */
  function FirstContaining(boxes: seq<BoundingBox>, pt: Point): (r: Option<nat>)
    ensures r.Some? ==> r.value < |boxes| && Contains(boxes[r.value].roi, pt)
    ensures r.Some? ==> forall k :: 0 <= k < r.value ==> !Contains(boxes[k].roi, pt)
    ensures r.None? ==> forall k :: 0 <= k < |boxes| ==> !Contains(boxes[k].roi, pt)
  {
    if boxes == [] then None
    else if Contains(boxes[0].roi, pt) then Some(0)
    else
      match FirstContaining(boxes[1..], pt)
      case Some(k) => Some(k + 1)
      case None => None
  }

  /** The id the box search leaves behind: the first containing box's id, or
      the value the variable already held when no box contains `pt`. */
  function FoundId(boxes: seq<BoundingBox>, pt: Point, carried: int): int
  {
    match FirstContaining(boxes, pt)
    case Some(k) => boxes[k].boxId
    case None => carried
  }

  /** Every match names keypoints that exist in both frames. */
  predicate MatchesValid(matches: seq<Match>, prevFrame: DataFrame, currFrame: DataFrame)
  {
    forall k :: 0 <= k < |matches| ==>
      0 <= matches[k].queryIdx < |prevFrame.keypoints| && 0 <= matches[k].trainIdx < |currFrame.keypoints|
  }

  /** The values of (currId, prevId) after the first `k` matches: both start
      at -1 and keep their value across a match for which no box is found. */
  function IdsAfter(matches: seq<Match>, prevFrame: DataFrame, currFrame: DataFrame, k: nat): IdPair
    requires MatchesValid(matches, prevFrame, currFrame)
    requires k <= |matches|
  {
    if k == 0 then IdPair(-1, -1)
    else
      var before := IdsAfter(matches, prevFrame, currFrame, k - 1);
      var m := matches[k - 1];
      IdPair(FoundId(currFrame.boundingBoxes, currFrame.keypoints[m.trainIdx].pt, before.currId),
             FoundId(prevFrame.boundingBoxes, prevFrame.keypoints[m.queryIdx].pt, before.prevId))
  }

  /** The multimap contents after the first `k` matches, in insertion order
      (the order std::multimap keeps for equal keys). */
  function Recorded(matches: seq<Match>, prevFrame: DataFrame, currFrame: DataFrame, k: nat): (pairs: seq<IdPair>)
    requires MatchesValid(matches, prevFrame, currFrame)
    requires k <= |matches|
    ensures |pairs| == k
  {
    if k == 0 then [] else Recorded(matches, prevFrame, currFrame, k - 1) + [IdsAfter(matches, prevFrame, currFrame, k)]
  }

  /** The largest recorded previous-frame id, and at least 0 (prevMaxId). */
  function MaxPrevId(pairs: seq<IdPair>): (m: nat)
    ensures forall k :: 0 <= k < |pairs| ==> pairs[k].prevId <= m
    ensures m == 0 || exists k :: 0 <= k < |pairs| && pairs[k].prevId == m
  {
    if pairs == [] then 0
    else
      var m := MaxPrevId(pairs[..|pairs| - 1]);
      var last := pairs[|pairs| - 1].prevId;
      if m < last then last else m
  }

  /** The number of recorded pairs (cid, q): the votes of previous box `q` for
      current box `cid`. */
  function Votes(pairs: seq<IdPair>, cid: int, q: int): nat
  {
    if pairs == [] then 0
    else Votes(pairs[..|pairs| - 1], cid, q) + (if pairs[|pairs| - 1] == IdPair(cid, q) then 1 else 0)
  }

  /** The countMaxId vector for `cid`: the votes of ids 0 .. maxId. */
  function VoteCounts(pairs: seq<IdPair>, cid: int, maxId: nat): seq<nat>
  {
    seq(maxId + 1, q requires 0 <= q <= maxId => Votes(pairs, cid, q))
  }

  /** std::max_element: the position of the first largest element. */
  function FirstArgMax(counts: seq<int>): (r: nat)
    requires |counts| > 0
    ensures r < |counts|
    ensures forall k :: 0 <= k < |counts| ==> counts[k] <= counts[r]
    ensures forall k :: 0 <= k < r ==> counts[k] < counts[r]
  {
    if |counts| == 1 then 0
    else
      var r := FirstArgMax(counts[..|counts| - 1]);
      if counts[r] < counts[|counts| - 1] then |counts| - 1 else r
  }

  /** The previous box chosen for current box `cid`. */
  function BestPrevId(pairs: seq<IdPair>, cid: int): nat
  {
    FirstArgMax(VoteCounts(pairs, cid, MaxPrevId(pairs)))
  }

  /** std::map::insert: adds the key only when it is absent. */
  function InsertIfAbsent(m: map<int, int>, key: int, value: int): map<int, int>
  {
    if key in m then m else m[key := value]
  }

  /** bbBestMatches after the current boxes `cids` have been handled in order:
      each inserts (best previous id, cid) unless that key is already present. */
  function InsertBest(m: map<int, int>, cids: seq<int>, pairs: seq<IdPair>): map<int, int>
  {
    if cids == [] then m
    else
      var before := InsertBest(m, cids[..|cids| - 1], pairs);
      var cid := cids[|cids| - 1];
      InsertIfAbsent(before, BestPrevId(pairs, cid), cid)
  }

  /** The ids of a frame's boxes, in list order. */
  function BoxIds(boxes: seq<BoundingBox>): seq<int>
  {
    seq(|boxes|, k requires 0 <= k < |boxes| => boxes[k].boxId)
  }

  /** Every id the search leaves in a variable is -1 or the id of a box of
      that frame. */
  lemma {:induction false} IdsAfterRange(matches: seq<Match>, prevFrame: DataFrame, currFrame: DataFrame, k: nat)
    requires MatchesValid(matches, prevFrame, currFrame)
    requires k <= |matches|
    ensures var ids := IdsAfter(matches, prevFrame, currFrame, k);
            (ids.currId == -1 || exists b :: 0 <= b < |currFrame.boundingBoxes| && currFrame.boundingBoxes[b].boxId == ids.currId)
            && (ids.prevId == -1 || exists b :: 0 <= b < |prevFrame.boundingBoxes| && prevFrame.boundingBoxes[b].boxId == ids.prevId)
  {
    if k > 0 {
      IdsAfterRange(matches, prevFrame, currFrame, k - 1);
    }
  }

  /** Every recorded pair is the state after the match that recorded it. */
  lemma {:induction false} RecordedIsIdsAfter(matches: seq<Match>, prevFrame: DataFrame, currFrame: DataFrame, k: nat, j: nat)
    requires MatchesValid(matches, prevFrame, currFrame)
    requires j < k <= |matches|
    ensures Recorded(matches, prevFrame, currFrame, k)[j] == IdsAfter(matches, prevFrame, currFrame, j + 1)
  {
    if j < k - 1 {
      RecordedIsIdsAfter(matches, prevFrame, currFrame, k - 1, j);
    }
  }

  /** Recorded previous-frame ids are -1 or the id of a previous box. */
  lemma RecordedPrevIdsRange(matches: seq<Match>, prevFrame: DataFrame, currFrame: DataFrame)
    requires MatchesValid(matches, prevFrame, currFrame)
    ensures forall j :: 0 <= j < |matches| ==>
              var q := Recorded(matches, prevFrame, currFrame, |matches|)[j].prevId;
              q == -1 || exists b :: 0 <= b < |prevFrame.boundingBoxes| && prevFrame.boundingBoxes[b].boxId == q
  {
    forall j | 0 <= j < |matches|
      ensures var q := Recorded(matches, prevFrame, currFrame, |matches|)[j].prevId;
              q == -1 || exists b :: 0 <= b < |prevFrame.boundingBoxes| && prevFrame.boundingBoxes[b].boxId == q
    {
      RecordedIsIdsAfter(matches, prevFrame, currFrame, |matches|, j);
      IdsAfterRange(matches, prevFrame, currFrame, j + 1);
    }
  }

  /** With previous-frame ids of at least -1, every recorded previous id lies
      in -1 .. prevMaxId, so it is a valid index of countMaxId unless it is -1. */
  lemma RecordedPrevIdsBounded(matches: seq<Match>, prevFrame: DataFrame, currFrame: DataFrame)
    requires MatchesValid(matches, prevFrame, currFrame)
    requires forall b :: 0 <= b < |prevFrame.boundingBoxes| ==> prevFrame.boundingBoxes[b].boxId >= -1
    ensures var pairs := Recorded(matches, prevFrame, currFrame, |matches|);
            forall k :: 0 <= k < |pairs| ==> -1 <= pairs[k].prevId <= MaxPrevId(pairs)
  {
    RecordedPrevIdsRange(matches, prevFrame, currFrame);
  }

  /** A previous id has votes for `cid` exactly when the pair (cid, q) was recorded. */
  lemma {:induction false} VotesPositiveIffRecorded(pairs: seq<IdPair>, cid: int, q: int)
    ensures Votes(pairs, cid, q) > 0 <==> exists k :: 0 <= k < |pairs| && pairs[k] == IdPair(cid, q)
  {
    if pairs != [] {
      var prefix := pairs[..|pairs| - 1];
      VotesPositiveIffRecorded(prefix, cid, q);
      if exists k :: 0 <= k < |pairs| && pairs[k] == IdPair(cid, q) {
        var k :| 0 <= k < |pairs| && pairs[k] == IdPair(cid, q);
        if k < |pairs| - 1 {
          assert prefix[k] == pairs[k];
        }
      }
      if exists k :: 0 <= k < |prefix| && prefix[k] == IdPair(cid, q) {
        var k :| 0 <= k < |prefix| && prefix[k] == IdPair(cid, q);
        assert pairs[k] == prefix[k];
      }
    }
  }

  /** The chosen previous box has the most votes among all ids >= 0, and every
      smaller id has strictly fewer: ties go to the lowest id. */
  lemma BestPrevIdIsLowestMajority(pairs: seq<IdPair>, cid: int)
    ensures forall q :: 0 <= q ==> Votes(pairs, cid, q) <= Votes(pairs, cid, BestPrevId(pairs, cid))
    ensures forall q :: 0 <= q < BestPrevId(pairs, cid) ==> Votes(pairs, cid, q) < Votes(pairs, cid, BestPrevId(pairs, cid))
  {
    var maxId := MaxPrevId(pairs);
    var counts := VoteCounts(pairs, cid, maxId);
    var pid := BestPrevId(pairs, cid);
    assert counts[pid] == Votes(pairs, cid, pid);
    forall q | 0 <= q
      ensures Votes(pairs, cid, q) <= Votes(pairs, cid, pid)
    {
      if q <= maxId {
        assert counts[q] == Votes(pairs, cid, q);
      } else {
        VotesPositiveIffRecorded(pairs, cid, q);
      }
    }
    forall q | 0 <= q < pid
      ensures Votes(pairs, cid, q) < Votes(pairs, cid, pid)
    {
      assert counts[q] == Votes(pairs, cid, q);
    }
  }

  /** When no recorded pair votes for `cid` (no previous id >= 0), the first
      counter, id 0, is chosen. */
  lemma NoVotesChoosesZero(pairs: seq<IdPair>, cid: int)
    requires forall k :: 0 <= k < |pairs| && pairs[k].currId == cid ==> pairs[k].prevId < 0
    ensures BestPrevId(pairs, cid) == 0
  {
    var pid := BestPrevId(pairs, cid);
    VotesPositiveIffRecorded(pairs, cid, pid);
    BestPrevIdIsLowestMajority(pairs, cid);
    VotesPositiveIffRecorded(pairs, cid, 0);
  }

  /** Four votes for current box 5: three from previous box 2, one from 3. */
  lemma MajorityExample()
    ensures BestPrevId([IdPair(5, 2), IdPair(5, 3), IdPair(5, 2), IdPair(5, 2)], 5) == 2
  {
    var pairs := [IdPair(5, 2), IdPair(5, 3), IdPair(5, 2), IdPair(5, 2)];
    var p3 := [IdPair(5, 2), IdPair(5, 3), IdPair(5, 2)];
    var p2 := [IdPair(5, 2), IdPair(5, 3)];
    var p1 := [IdPair(5, 2)];
    assert pairs[..3] == p3 && p3[..2] == p2 && p2[..1] == p1 && p1[..0] == [];
    assert MaxPrevId(pairs) == 3;
    assert Votes(p1, 5, 2) == 1 && Votes(p2, 5, 2) == 1 && Votes(p3, 5, 2) == 2;
    assert Votes(p1, 5, 3) == 0 && Votes(p2, 5, 3) == 1 && Votes(p3, 5, 3) == 1;
    VotesPositiveIffRecorded(pairs, 5, 0);
    VotesPositiveIffRecorded(pairs, 5, 1);
    var counts := VoteCounts(pairs, 5, 3);
    assert counts[0] == 0 && counts[1] == 0 && counts[2] == 3 && counts[3] == 1;
    assert counts == [0, 0, 3, 1];
  }

  /** A tie between previous boxes 3 and 2 goes to 2, although 3 was recorded first. */
  lemma TieExample()
    ensures BestPrevId([IdPair(5, 3), IdPair(5, 2)], 5) == 2
  {
    var pairs := [IdPair(5, 3), IdPair(5, 2)];
    var p1 := [IdPair(5, 3)];
    assert pairs[..1] == p1 && p1[..0] == [];
    assert MaxPrevId(pairs) == 3;
    assert Votes(p1, 5, 2) == 0 && Votes(p1, 5, 3) == 1;
    VotesPositiveIffRecorded(pairs, 5, 0);
    VotesPositiveIffRecorded(pairs, 5, 1);
    var counts := VoteCounts(pairs, 5, 3);
    assert counts[0] == 0 && counts[1] == 0 && counts[2] == 1 && counts[3] == 1;
    assert counts == [0, 0, 1, 1];
  }

  /** A match whose current keypoint lies in no current box is recorded with
      the current id of the match before it (or -1 for the first match). */
  lemma {:induction false} StaleCurrIdCarriedOver(matches: seq<Match>, prevFrame: DataFrame, currFrame: DataFrame, k: nat)
    requires MatchesValid(matches, prevFrame, currFrame)
    requires k < |matches|
    requires FirstContaining(currFrame.boundingBoxes, currFrame.keypoints[matches[k].trainIdx].pt).None?
    ensures Recorded(matches, prevFrame, currFrame, |matches|)[k].currId
            == if k == 0 then -1 else Recorded(matches, prevFrame, currFrame, |matches|)[k - 1].currId
  {
    RecordedIsIdsAfter(matches, prevFrame, currFrame, |matches|, k);
    if k > 0 {
      RecordedIsIdsAfter(matches, prevFrame, currFrame, |matches|, k - 1);
    }
  }

  /** Entries already in bbBestMatches are never overwritten. */
  lemma {:induction false} InsertBestKeepsExisting(m: map<int, int>, cids: seq<int>, pairs: seq<IdPair>)
    ensures forall key :: key in m ==> key in InsertBest(m, cids, pairs) && InsertBest(m, cids, pairs)[key] == m[key]
  {
    if cids != [] {
      InsertBestKeepsExisting(m, cids[..|cids| - 1], pairs);
    }
  }

  /** The keys afterwards are the old keys and the chosen previous ids. */
  lemma {:induction false} InsertBestKeys(m: map<int, int>, cids: seq<int>, pairs: seq<IdPair>, key: int)
    ensures key in InsertBest(m, cids, pairs)
            <==> key in m || exists k :: 0 <= k < |cids| && BestPrevId(pairs, cids[k]) == key
  {
    if cids != [] {
      var prefix := cids[..|cids| - 1];
      InsertBestKeys(m, prefix, pairs, key);
      if exists k :: 0 <= k < |cids| && BestPrevId(pairs, cids[k]) == key {
        var k :| 0 <= k < |cids| && BestPrevId(pairs, cids[k]) == key;
        if k < |prefix| {
          assert prefix[k] == cids[k];
        }
      }
      if exists k :: 0 <= k < |prefix| && BestPrevId(pairs, prefix[k]) == key {
        var k :| 0 <= k < |prefix| && BestPrevId(pairs, prefix[k]) == key;
        assert cids[k] == prefix[k];
      }
    }
  }

  /** A new key maps to the first current box, in list order, that chose it. */
  lemma {:induction false} InsertBestFirstWins(m: map<int, int>, cids: seq<int>, pairs: seq<IdPair>, j: nat)
    requires j < |cids|
    requires BestPrevId(pairs, cids[j]) !in m
    requires forall i :: 0 <= i < j ==> BestPrevId(pairs, cids[i]) != BestPrevId(pairs, cids[j])
    ensures BestPrevId(pairs, cids[j]) in InsertBest(m, cids, pairs)
    ensures InsertBest(m, cids, pairs)[BestPrevId(pairs, cids[j])] == cids[j]
  {
    var key := BestPrevId(pairs, cids[j]);
    var prefix := cids[..|cids| - 1];
    if j < |cids| - 1 {
      assert prefix[j] == cids[j];
      forall i | 0 <= i < j
        ensures BestPrevId(pairs, prefix[i]) != key
      {
        assert prefix[i] == cids[i];
      }
      InsertBestFirstWins(m, prefix, pairs, j);
    } else {
      forall k | 0 <= k < |prefix|
        ensures BestPrevId(pairs, prefix[k]) != key
      {
        assert prefix[k] == cids[k];
      }
      InsertBestKeys(m, prefix, pairs, key);
    }
  }

  /** The loop over a frame's boxes that stops at the first box containing `pt`. */
  method FindBoxId(boxes: seq<BoundingBox>, pt: Point, carried: int) returns (id: int)
    ensures id == FoundId(boxes, pt, carried)
  {
    id := carried;
    var b := 0;
    while b < |boxes|
      invariant 0 <= b <= |boxes|
      invariant forall k :: 0 <= k < b ==> !Contains(boxes[k].roi, pt)
    {
      if Contains(boxes[b].roi, pt) {
        assert FirstContaining(boxes, pt) == Some(b);
        id := boxes[b].boxId;
        break;
      }
      b := b + 1;
    }
  }

  /** The first loop: records (currId, prevId) for every match and tracks prevMaxId. */
  method RecordIds(matches: seq<Match>, prevFrame: DataFrame, currFrame: DataFrame)
    returns (bboxIdMap: seq<IdPair>, prevMaxId: nat)
    requires MatchesValid(matches, prevFrame, currFrame)
    ensures bboxIdMap == Recorded(matches, prevFrame, currFrame, |matches|)
    ensures prevMaxId == MaxPrevId(bboxIdMap)
  {
    bboxIdMap := [];
    var currId := -1;
    var prevId := -1;
    prevMaxId := 0;
    for i := 0 to |matches|
      invariant bboxIdMap == Recorded(matches, prevFrame, currFrame, i)
      invariant IdPair(currId, prevId) == IdsAfter(matches, prevFrame, currFrame, i)
      invariant prevMaxId == MaxPrevId(bboxIdMap)
    {
      var currKeypoint := currFrame.keypoints[matches[i].trainIdx];
      var prevKeypoint := prevFrame.keypoints[matches[i].queryIdx];
      currId := FindBoxId(currFrame.boundingBoxes, currKeypoint.pt, currId);
      prevId := FindBoxId(prevFrame.boundingBoxes, prevKeypoint.pt, prevId);
      assert (bboxIdMap + [IdPair(currId, prevId)])[..|bboxIdMap|] == bboxIdMap;
      bboxIdMap := bboxIdMap + [IdPair(currId, prevId)];
      prevMaxId := if prevMaxId < prevId then prevId else prevMaxId;
    }
  }

  /** The ids of the current frame's boxes, collected in list order. */
  method CollectBoxIds(boxes: seq<BoundingBox>) returns (ids: seq<int>)
    ensures ids == BoxIds(boxes)
  {
    ids := [];
    for b := 0 to |boxes|
      invariant ids == BoxIds(boxes[..b])
    {
      ids := ids + [boxes[b].boxId];
    }
    assert boxes[..|boxes|] == boxes;
  }

  /** countMaxId for `cid`: one counter per id 0 .. prevMaxId, incremented for
      each recorded pair (cid, q) with q != -1. */
  method CountVotes(bboxIdMap: seq<IdPair>, cid: int, prevMaxId: nat) returns (countMaxId: array<int>)
    requires forall k :: 0 <= k < |bboxIdMap| ==> -1 <= bboxIdMap[k].prevId <= prevMaxId
    ensures fresh(countMaxId)
    ensures countMaxId[..] == VoteCounts(bboxIdMap, cid, prevMaxId)
  {
    countMaxId := new int[prevMaxId + 1](q => 0);
    for t := 0 to |bboxIdMap|
      invariant forall q :: 0 <= q <= prevMaxId ==> countMaxId[q] == Votes(bboxIdMap[..t], cid, q)
    {
      assert bboxIdMap[..t + 1][..t] == bboxIdMap[..t];
      var entry := bboxIdMap[t];
      if entry.currId == cid && entry.prevId != -1 {
        countMaxId[entry.prevId] := countMaxId[entry.prevId] + 1;
      }
    }
    assert bboxIdMap[..|bboxIdMap|] == bboxIdMap;
  }

  /** std::distance(begin, std::max_element(begin, end)). */
  method MaxElementIndex(counts: array<int>) returns (pid: nat)
    requires counts.Length > 0
    ensures pid == FirstArgMax(counts[..])
  {
    pid := 0;
    for q := 1 to counts.Length
      invariant pid == FirstArgMax(counts[..q])
    {
      assert counts[..q + 1][..q] == counts[..q];
      if counts[pid] < counts[q] {
        pid := q;
      }
    }
    assert counts[..counts.Length] == counts[..];
  }

  /** The previous box chosen for `cid`: counts its votes and takes the first
      maximal counter. */
  method BestMatchFor(bboxIdMap: seq<IdPair>, cid: int, prevMaxId: nat) returns (pid: nat)
    requires prevMaxId == MaxPrevId(bboxIdMap)
    requires forall k :: 0 <= k < |bboxIdMap| ==> -1 <= bboxIdMap[k].prevId <= prevMaxId
    ensures pid == BestPrevId(bboxIdMap, cid)
  {
    var countMaxId := CountVotes(bboxIdMap, cid, prevMaxId);
    pid := MaxElementIndex(countMaxId);
  }

  /** One step of the insertion fold. */
  lemma InsertBestSnoc(m: map<int, int>, cids: seq<int>, cid: int, pairs: seq<IdPair>)
    ensures InsertBest(m, cids + [cid], pairs)
            == InsertIfAbsent(InsertBest(m, cids, pairs), BestPrevId(pairs, cid), cid)
  {
    assert (cids + [cid])[..|cids|] == cids;
  }

  /** The second loop: for every current box id in order, inserts its best
      previous id unless that key is already in the map. */
  method InsertBestMatches(bbBestMatches: map<int, int>, currFrameBboxIds: seq<int>,
                           bboxIdMap: seq<IdPair>, prevMaxId: nat) returns (result: map<int, int>)
    requires prevMaxId == MaxPrevId(bboxIdMap)
    requires forall k :: 0 <= k < |bboxIdMap| ==> -1 <= bboxIdMap[k].prevId <= prevMaxId
    ensures result == InsertBest(bbBestMatches, currFrameBboxIds, bboxIdMap)
  {
    result := bbBestMatches;
    for c := 0 to |currFrameBboxIds|
      invariant result == InsertBest(bbBestMatches, currFrameBboxIds[..c], bboxIdMap)
    {
      var cid := currFrameBboxIds[c];
      var pid := BestMatchFor(bboxIdMap, cid, prevMaxId);
      assert currFrameBboxIds[..c + 1] == currFrameBboxIds[..c] + [cid];
      InsertBestSnoc(bbBestMatches, currFrameBboxIds[..c], cid, bboxIdMap);
      result := InsertIfAbsent(result, pid, cid);
    }
    assert currFrameBboxIds[..|currFrameBboxIds|] == currFrameBboxIds;
  }

  /** matchBoundingBoxes: records the box pair of every match, then inserts
      (best previous id, cid) for every current box in list order. */
  method MatchBoundingBoxes(matches: seq<Match>, bbBestMatches: map<int, int>,
                            prevFrame: DataFrame, currFrame: DataFrame) returns (result: map<int, int>)
    requires MatchesValid(matches, prevFrame, currFrame)
    requires forall b :: 0 <= b < |prevFrame.boundingBoxes| ==> prevFrame.boundingBoxes[b].boxId >= -1
    ensures result == InsertBest(bbBestMatches, BoxIds(currFrame.boundingBoxes),
                                 Recorded(matches, prevFrame, currFrame, |matches|))
  {
    var bboxIdMap, prevMaxId := RecordIds(matches, prevFrame, currFrame);
    RecordedPrevIdsBounded(matches, prevFrame, currFrame);
    var currFrameBboxIds := CollectBoxIds(currFrame.boundingBoxes);
    result := InsertBestMatches(bbBestMatches, currFrameBboxIds, bboxIdMap, prevMaxId);
  }
}
