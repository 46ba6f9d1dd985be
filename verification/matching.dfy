/**
 * The matching stage shared by the three programs in taller2c2/: keypoint
 * truncation, the single-neighbour fallback, the Lowe ratio-test filter, the
 * construction of point correspondences and the "at least four pairs" gate
 * in front of the homography estimator.
 */
module Matching {
  import opened Wrappers
  import opened Features
  import opened Ints

  /** `if (v.size() > cap) v.resize(cap)`: keeps the first entries in the
      order the detector emitted them. */
  function Truncate<T>(s: seq<T>, cap: nat): (r: seq<T>)
    ensures |r| == Min(|s|, cap)
    ensures r == s[..|r|]
  {
    if |s| > cap then s[..cap] else s
  }

  predicate Increasing(idx: seq<nat>) {
    forall i, j :: 0 <= i < j < |idx| ==> idx[i] < idx[j]
  }

  /** The positions of `s` whose element satisfies `p`, in increasing order:
      the reference description of an order-preserving filter. */
  function Positions<T>(s: seq<T>, p: T -> bool): (idx: seq<nat>)
    ensures |idx| <= |s|
    ensures Increasing(idx)
    ensures forall k :: 0 <= k < |idx| ==> idx[k] < |s| && p(s[idx[k]])
    ensures forall i :: 0 <= i < |s| && p(s[i]) ==> i in idx
    decreases |s|
  {
    if |s| == 0 then []
    else
      var rest := Positions(s[..|s| - 1], p);
      if p(s[|s| - 1]) then rest + [|s| - 1] else rest
  }

  /** The ratio test applied to one neighbour list. */
  predicate PassesRatio(neighbours: seq<DMatch>, threshold: real) {
    |neighbours| >= 2 && neighbours[0].distance < threshold * neighbours[1].distance
  }

  /** The filtering loop: for each query row in turn, its nearest neighbour is
      kept when the list has two entries and passes the ratio test. */
  function GoodMatches(knn: seq<seq<DMatch>>, threshold: real): (good: seq<DMatch>)
    ensures |good| <= |knn|
    decreases |knn|
  {
    if |knn| == 0 then []
    else
      var last := knn[|knn| - 1];
      GoodMatches(knn[..|knn| - 1], threshold)
        + (if PassesRatio(last, threshold) then [last[0]] else [])
  }

  /** The good matches are, in order, the nearest neighbours of exactly the
      lists that pass the ratio test. */
  lemma {:induction false} GoodMatchesSelect(knn: seq<seq<DMatch>>, threshold: real)
    ensures var idx := Positions(knn, nb => PassesRatio(nb, threshold));
      && |GoodMatches(knn, threshold)| == |idx|
      && forall k :: 0 <= k < |idx| ==> GoodMatches(knn, threshold)[k] == knn[idx[k]][0]
    decreases |knn|
  {
    if |knn| > 0 {
      var pre := knn[..|knn| - 1];
      GoodMatchesSelect(pre, threshold);
      var ridx := Positions(pre, nb => PassesRatio(nb, threshold));
      var idx := Positions(knn, nb => PassesRatio(nb, threshold));
      var good := GoodMatches(knn, threshold);
      forall k | 0 <= k < |ridx|
        ensures idx[k] == ridx[k] && good[k] == knn[idx[k]][0]
      {
        assert pre[ridx[k]] == knn[ridx[k]];
      }
    }
  }

  /** Every good match is the nearest neighbour of some list, so whatever the
      matcher promises of nearest neighbours holds of the good matches. */
  lemma GoodMatchesAreFirstNeighbours(knn: seq<seq<DMatch>>, threshold: real, k: nat)
    requires k < |GoodMatches(knn, threshold)|
    ensures exists i :: 0 <= i < |knn| && |knn[i]| >= 2 && GoodMatches(knn, threshold)[k] == knn[i][0]
  {
    GoodMatchesSelect(knn, threshold);
    var idx := Positions(knn, nb => PassesRatio(nb, threshold));
    assert PassesRatio(knn[idx[k]], threshold);
  }

  predicate FirstNeighboursNonNegative(knn: seq<seq<DMatch>>) {
    forall i :: 0 <= i < |knn| && |knn[i]| > 0 ==> knn[i][0].queryIdx >= 0 && knn[i][0].trainIdx >= 0
  }

  lemma GoodMatchesNonNegative(knn: seq<seq<DMatch>>, threshold: real)
    requires FirstNeighboursNonNegative(knn)
    ensures IndicesNonNegative(GoodMatches(knn, threshold))
  {
    forall k | 0 <= k < |GoodMatches(knn, threshold)|
      ensures GoodMatches(knn, threshold)[k].queryIdx >= 0 && GoodMatches(knn, threshold)[k].trainIdx >= 0
    {
      GoodMatchesAreFirstNeighbours(knn, threshold, k);
    }
  }

  const FallbackFactor: real := 1.5

  /** The fallback after `knnMatch` throws: each single best match gets a
      synthetic second neighbour at 1.5 times its distance. */
  function FallbackKnn(regular: seq<DMatch>): (knn: seq<seq<DMatch>>)
    ensures |knn| == |regular|
    ensures forall i :: 0 <= i < |knn| ==>
      |knn[i]| == 2 && knn[i][0] == regular[i] && knn[i][1].distance == FallbackFactor * regular[i].distance
    decreases |regular|
  {
    if |regular| == 0 then []
    else
      var m := regular[|regular| - 1];
      FallbackKnn(regular[..|regular| - 1]) + [[m, Synthetic(m.distance * FallbackFactor)]]
  }

  /** With either program threshold and non-negative distances, a fallback
      entry passes the ratio test exactly when its real distance is positive:
      the synthetic neighbour never rejects a non-zero match. */
  lemma FallbackPassesIffPositive(regular: seq<DMatch>, isBinaryDescriptor: bool)
    requires forall i :: 0 <= i < |regular| ==> regular[i].distance >= 0.0
    ensures forall i :: 0 <= i < |regular| ==>
      (PassesRatio(FallbackKnn(regular)[i], Registry.RatioThreshold(isBinaryDescriptor)) <==> regular[i].distance > 0.0)
  {
  }

  predicate PositiveDistance(m: DMatch) {
    m.distance > 0.0
  }

  /** The filter only depends on which entries satisfy the predicate. */
  lemma {:induction false} PositionsAgree<T, U>(s: seq<T>, p: T -> bool, t: seq<U>, q: U -> bool)
    requires |s| == |t|
    requires forall i :: 0 <= i < |s| ==> (p(s[i]) <==> q(t[i]))
    ensures Positions(s, p) == Positions(t, q)
    decreases |s|
  {
    if |s| > 0 {
      PositionsAgree(s[..|s| - 1], p, t[..|t| - 1], q);
    }
  }

  /** After `knnMatch` throws, the good matches are, in order, exactly the
      regular matches with a positive distance. */
  lemma FallbackGoodMatches(regular: seq<DMatch>, isBinaryDescriptor: bool)
    requires forall i :: 0 <= i < |regular| ==> regular[i].distance >= 0.0
    ensures var good := GoodMatches(FallbackKnn(regular), Registry.RatioThreshold(isBinaryDescriptor));
      var idx := Positions(regular, PositiveDistance);
      && |good| == |idx|
      && forall k :: 0 <= k < |idx| ==> good[k] == regular[idx[k]]
  {
    var t := Registry.RatioThreshold(isBinaryDescriptor);
    FallbackPassesIffPositive(regular, isBinaryDescriptor);
    GoodMatchesSelect(FallbackKnn(regular), t);
    PositionsAgree(FallbackKnn(regular), nb => PassesRatio(nb, t), regular, PositiveDistance);
  }

  /** The source compares the signed index with the list size; a negative
      index is never produced by the matcher (see the callers' requires). */
  predicate InBounds(m: DMatch, n1: nat, n2: nat) {
    m.queryIdx < n1 && m.trainIdx < n2
  }

  /** The `obj` and `scene` point lists handed to `findHomography`. */
  datatype PointLists = PointLists(obj: seq<Point2f>, scene: seq<Point2f>)

  /** The bounds-checked loop: a good match contributes its two keypoint
      positions only when both indices are below the keypoint-list sizes. */
  function Correspondences(good: seq<DMatch>, kp1: seq<KeyPoint>, kp2: seq<KeyPoint>): (r: PointLists)
    requires IndicesNonNegative(good)
    ensures |r.obj| == |r.scene| <= |good|
    decreases |good|
  {
    if |good| == 0 then PointLists([], [])
    else
      var rest := Correspondences(good[..|good| - 1], kp1, kp2);
      var m := good[|good| - 1];
      if InBounds(m, |kp1|, |kp2|) then
        PointLists(rest.obj + [kp1[m.queryIdx].pt], rest.scene + [kp2[m.trainIdx].pt])
      else rest
  }

  /** The pairs are, in order, the keypoint positions of exactly the good
      matches whose indices are in bounds. */
  lemma {:induction false} CorrespondencesSelect(good: seq<DMatch>, kp1: seq<KeyPoint>, kp2: seq<KeyPoint>)
    requires IndicesNonNegative(good)
    ensures var idx := Positions(good, m => InBounds(m, |kp1|, |kp2|));
      var r := Correspondences(good, kp1, kp2);
      && |r.obj| == |idx|
      && forall k :: 0 <= k < |idx| ==>
           r.obj[k] == kp1[good[idx[k]].queryIdx].pt && r.scene[k] == kp2[good[idx[k]].trainIdx].pt
    decreases |good|
  {
    if |good| > 0 {
      CorrespondencesSelect(good[..|good| - 1], kp1, kp2);
    }
  }

  const MinCorrespondences: nat := 4

  /** The bounds-checked homography gate of combination_tester.cpp and
      fast_brief.cpp: estimation is attempted only with at least four good
      matches and at least four in-bounds pairs; success means a non-empty
      matrix came back. */
  function CheckedHomography(good: seq<DMatch>, kp1: seq<KeyPoint>, kp2: seq<KeyPoint>,
                             estimate: (seq<Point2f>, seq<Point2f>) -> Option<Homography>): (success: bool)
    requires IndicesNonNegative(good)
    ensures success ==> |good| >= MinCorrespondences
    ensures success ==> |Correspondences(good, kp1, kp2).obj| >= MinCorrespondences
    ensures var c := Correspondences(good, kp1, kp2); success ==> estimate(c.obj, c.scene).Some?
  {
    if |good| >= MinCorrespondences then
      var c := Correspondences(good, kp1, kp2);
      if |c.obj| >= MinCorrespondences && |c.scene| >= MinCorrespondences then
        estimate(c.obj, c.scene).Some?
      else false
    else false
  }

  /** The outer "four good matches" test is implied by the inner "four pairs"
      test: success is decided by the number of in-bounds pairs and the
      estimator alone, and the estimator is never consulted with fewer than
      four pairs. */
  lemma GoodMatchCountTestIsRedundant(good: seq<DMatch>, kp1: seq<KeyPoint>, kp2: seq<KeyPoint>,
                                      estimate: (seq<Point2f>, seq<Point2f>) -> Option<Homography>)
    requires IndicesNonNegative(good)
    ensures var c := Correspondences(good, kp1, kp2);
      CheckedHomography(good, kp1, kp2, estimate) <==> |c.obj| >= MinCorrespondences && estimate(c.obj, c.scene).Some?
  {
  }
}
