/**
 * The SURF + SURF + brute-force L2 pipeline inlined in `main` of
 * taller2c2/surf_surf.cpp: keypoints and descriptor rows truncated together
 * to 500, a fixed ratio threshold of 0.75, correspondences built WITHOUT a
 * bounds check, and the homography gate.
 */
module SurfSurf {
  import opened Wrappers
  import opened Features
  import opened Matching
  import opened Ints

  const MaxKeypoints: nat := 500
  const Threshold: real := 0.75

  type Descriptor = seq<real>

  /** The output of `detectAndCompute` for one image. */
  datatype Detected = Detected(keypoints: seq<KeyPoint>, descriptors: seq<Descriptor>)

  predicate Aligned(d: Detected) {
    |d.keypoints| == |d.descriptors|
  }

  /** The cap: when there are more than 500 keypoints both the keypoints and
      the descriptor rows are cut to the first 500 (`rowRange(0, 500)` needs
      that many rows). */
  function TruncateAligned(d: Detected): (r: Detected)
    requires |d.keypoints| > MaxKeypoints ==> |d.descriptors| >= MaxKeypoints
    ensures |r.keypoints| == Min(|d.keypoints|, MaxKeypoints)
    ensures r.keypoints == d.keypoints[..|r.keypoints|]
    ensures |r.descriptors| <= |d.descriptors| && r.descriptors == d.descriptors[..|r.descriptors|]
    ensures Aligned(d) ==> Aligned(r) && |r.descriptors| == Min(|d.descriptors|, MaxKeypoints)
  {
    if |d.keypoints| > MaxKeypoints then
      Detected(d.keypoints[..MaxKeypoints], d.descriptors[..MaxKeypoints])
    else d
  }

  /** What a matcher guarantees: every reported index names an existing row
      of the query or train descriptor matrix. */
  predicate IndicesBelow(knn: seq<seq<DMatch>>, queryRows: nat, trainRows: nat) {
    forall i, j :: 0 <= i < |knn| && 0 <= j < |knn[i]| ==>
      0 <= knn[i][j].queryIdx < queryRows && 0 <= knn[i][j].trainIdx < trainRows
  }

  ghost predicate KnnContract(knnMatch: (seq<Descriptor>, seq<Descriptor>) -> seq<seq<DMatch>>) {
    forall q, t :: IndicesBelow(knnMatch(q, t), |q|, |t|)
  }

  predicate AllInBounds(good: seq<DMatch>, n1: nat, n2: nat) {
    forall k :: 0 <= k < |good| ==> 0 <= good[k].queryIdx < n1 && 0 <= good[k].trainIdx < n2
  }

  /** The unchecked loop: every good match contributes its two keypoint
      positions; the source indexes without testing, so the caller must
      guarantee the indices are in range. */
  function UncheckedCorrespondences(good: seq<DMatch>, kp1: seq<KeyPoint>, kp2: seq<KeyPoint>): (r: PointLists)
    requires AllInBounds(good, |kp1|, |kp2|)
    ensures |r.obj| == |good| && |r.scene| == |good|
    decreases |good|
  {
    if |good| == 0 then PointLists([], [])
    else
      var rest := UncheckedCorrespondences(good[..|good| - 1], kp1, kp2);
      var m := good[|good| - 1];
      PointLists(rest.obj + [kp1[m.queryIdx].pt], rest.scene + [kp2[m.trainIdx].pt])
  }

  /** When every index is in range, the checked loop of the other two
      programs builds the same lists as this unchecked one. */
  lemma {:induction false} CheckedAgreesWhenInBounds(good: seq<DMatch>, kp1: seq<KeyPoint>, kp2: seq<KeyPoint>)
    requires AllInBounds(good, |kp1|, |kp2|)
    ensures Correspondences(good, kp1, kp2) == UncheckedCorrespondences(good, kp1, kp2)
    decreases |good|
  {
    if |good| > 0 {
      CheckedAgreesWhenInBounds(good[..|good| - 1], kp1, kp2);
    }
  }

  /** The unchecked indexing is safe: the matcher ran on the truncated
      descriptor matrices, and truncation kept the keypoint lists aligned
      with them, so each good match's indices are below the keypoint counts. */
  lemma UncheckedIndexingIsSafe(obj: Detected, scene: Detected,
                                knnMatch: (seq<Descriptor>, seq<Descriptor>) -> seq<seq<DMatch>>)
    requires Aligned(obj) && Aligned(scene)
    requires KnnContract(knnMatch)
    ensures var a := TruncateAligned(obj);
      var b := TruncateAligned(scene);
      AllInBounds(GoodMatches(knnMatch(a.descriptors, b.descriptors), Threshold), |a.keypoints|, |b.keypoints|)
  {
    var a := TruncateAligned(obj);
    var b := TruncateAligned(scene);
    var knn := knnMatch(a.descriptors, b.descriptors);
    assert IndicesBelow(knn, |a.descriptors|, |b.descriptors|);
    var good := GoodMatches(knn, Threshold);
    forall k | 0 <= k < |good|
      ensures 0 <= good[k].queryIdx < |a.keypoints| && 0 <= good[k].trainIdx < |b.keypoints|
    {
      GoodMatchesAreFirstNeighbours(knn, Threshold, k);
    }
  }

  datatype Run = Run(totalMatches: nat, goodMatches: nat, homographySuccess: bool)

  function SurfSurf(obj: Detected, scene: Detected,
                    knnMatch: (seq<Descriptor>, seq<Descriptor>) -> seq<seq<DMatch>>,
                    estimate: (seq<Point2f>, seq<Point2f>) -> Option<Homography>): (r: Run)
    requires Aligned(obj) && Aligned(scene)
    requires KnnContract(knnMatch)
    ensures r.goodMatches <= r.totalMatches
    ensures r.homographySuccess ==> r.goodMatches >= MinCorrespondences
  {
    var a := TruncateAligned(obj);
    var b := TruncateAligned(scene);
    var knn := knnMatch(a.descriptors, b.descriptors);
    var good := GoodMatches(knn, Threshold);
    var success :=
      if |good| >= MinCorrespondences then
        UncheckedIndexingIsSafe(obj, scene, knnMatch);
        var c := UncheckedCorrespondences(good, a.keypoints, b.keypoints);
        estimate(c.obj, c.scene).Some?
      else false;
    Run(|knn|, |good|, success)
  }

  /** Truncation leaves min(n, 500) aligned keypoints and rows, the report
      counts the neighbour lists and, as good matches, exactly the lists
      passing the 0.75 ratio test, and success means the estimator was given
      one pair per good match (at least four) and returned a matrix. */
  lemma SurfSurfReport(obj: Detected, scene: Detected,
                       knnMatch: (seq<Descriptor>, seq<Descriptor>) -> seq<seq<DMatch>>,
                       estimate: (seq<Point2f>, seq<Point2f>) -> Option<Homography>)
    requires Aligned(obj) && Aligned(scene)
    requires KnnContract(knnMatch)
    ensures var a := TruncateAligned(obj);
      var b := TruncateAligned(scene);
      var knn := knnMatch(a.descriptors, b.descriptors);
      var r := SurfSurf(obj, scene, knnMatch, estimate);
      && |a.keypoints| == |a.descriptors| == Min(|obj.keypoints|, MaxKeypoints)
      && |b.keypoints| == |b.descriptors| == Min(|scene.keypoints|, MaxKeypoints)
      && r.totalMatches == |knn|
      && r.goodMatches == |Positions(knn, nb => PassesRatio(nb, Threshold))|
      && AllInBounds(GoodMatches(knn, Threshold), |a.keypoints|, |b.keypoints|)
      && var c := UncheckedCorrespondences(GoodMatches(knn, Threshold), a.keypoints, b.keypoints);
         && |c.obj| == |c.scene| == r.goodMatches
         && (r.homographySuccess <==> r.goodMatches >= MinCorrespondences && estimate(c.obj, c.scene).Some?)
  {
    var a := TruncateAligned(obj);
    var b := TruncateAligned(scene);
    UncheckedIndexingIsSafe(obj, scene, knnMatch);
    GoodMatchesSelect(knnMatch(a.descriptors, b.descriptors), Threshold);
  }
}
