/**
 * The FAST + BRIEF + brute-force Hamming pipeline inlined in `main` of
 * taller2c2/fast_brief.cpp: keypoints capped at 1000, a fixed ratio
 * threshold of 0.8, bounds-checked correspondences and the homography gate.
 */
module FastBrief {
  import opened Wrappers
  import opened Registry
  import opened Features
  import opened Matching

  const MaxKeypoints: nat := 1000
  const Threshold: real := 0.8
  /** `FastFeatureDetector::create(20)`. */
  const CornerThreshold: nat := 20
  /** `BriefDescriptorExtractor::create(32)`: 32 bytes per row. */
  const BriefBytes: nat := 32

  /** How the program ends: it exits early on an empty descriptor matrix, an
      uncaught throw from `knnMatch` ends it, otherwise it reports. */
  datatype Run =
    | DescriptorsEmpty
    | MatcherThrew
    | Finished(totalMatches: nat, goodMatches: nat, homographySuccess: bool)

  /** BRIEF descriptions of the first 1000 FAST keypoints of one image, in
      detector order. */
  function DescribeImage(o: Oracles, img: Image): Described {
    o.describe(Brief(BriefBytes), img, Truncate(o.detect(Fast(CornerThreshold), img), MaxKeypoints))
  }

  function FastBrief(o: Oracles): (r: Run)
    requires MatcherContract(o)
    ensures r.Finished? ==> r.goodMatches <= r.totalMatches
    ensures r.Finished? && r.homographySuccess ==> r.goodMatches >= MinCorrespondences
    ensures var d1 := DescribeImage(o, ObjectImage); var d2 := DescribeImage(o, SceneImage);
      && (r.MatcherThrew? <==> d1.rows > 0 && d2.rows > 0 && o.knnMatch(BruteForceHamming, d1, d2).KnnThrew?)
      && (r.Finished? <==> d1.rows > 0 && d2.rows > 0 && o.knnMatch(BruteForceHamming, d1, d2).KnnOk?)
  {
    var d1 := DescribeImage(o, ObjectImage);
    var d2 := DescribeImage(o, SceneImage);
    if d1.rows == 0 || d2.rows == 0 then DescriptorsEmpty
    else
      var outcome := o.knnMatch(BruteForceHamming, d1, d2);
      assert OutcomeIndicesNonNegative(outcome);
      match outcome
      case KnnThrew(_) => MatcherThrew
      case KnnOk(knn) =>
        var good := GoodMatches(knn, Threshold);
        GoodMatchesNonNegative(knn, Threshold);
        Finished(|knn|, |good|, CheckedHomography(good, d1.keypoints, d2.keypoints, o.estimate))
  }

  /** The program stops before any matching exactly when either descriptor
      matrix is empty, and reaches its report exactly when both are
      non-empty and `knnMatch` returns. */
  lemma FastBriefEmptyDescriptorsExit(o: Oracles)
    requires MatcherContract(o)
    ensures var d1 := DescribeImage(o, ObjectImage); var d2 := DescribeImage(o, SceneImage);
      && (FastBrief(o).DescriptorsEmpty? <==> d1.rows == 0 || d2.rows == 0)
      && (FastBrief(o).Finished? <==>
            d1.rows > 0 && d2.rows > 0 && o.knnMatch(BruteForceHamming, d1, d2).KnnOk?)
  {
  }

  /** When the program reports, the good matches are, in order, the nearest
      neighbours of exactly the lists passing the 0.8 ratio test, and the
      homography succeeds exactly when at least four in-bounds pairs reach
      the estimator and it returns a matrix. */
  lemma FastBriefReport(o: Oracles)
    requires MatcherContract(o)
    requires FastBrief(o).Finished?
    ensures var d1 := DescribeImage(o, ObjectImage); var d2 := DescribeImage(o, SceneImage);
      var knn := o.knnMatch(BruteForceHamming, d1, d2).lists;
      var r := FastBrief(o);
      && r.totalMatches == |knn|
      && r.goodMatches == |Positions(knn, nb => PassesRatio(nb, Threshold))|
      && IndicesNonNegative(GoodMatches(knn, Threshold))
      && var c := Correspondences(GoodMatches(knn, Threshold), d1.keypoints, d2.keypoints);
         r.homographySuccess <==> |c.obj| >= MinCorrespondences && o.estimate(c.obj, c.scene).Some?
  {
    var d1 := DescribeImage(o, ObjectImage);
    var d2 := DescribeImage(o, SceneImage);
    var outcome := o.knnMatch(BruteForceHamming, d1, d2);
    assert OutcomeIndicesNonNegative(outcome);
    GoodMatchesSelect(outcome.lists, Threshold);
    GoodMatchesNonNegative(outcome.lists, Threshold);
    GoodMatchCountTestIsRedundant(GoodMatches(outcome.lists, Threshold), d1.keypoints, d2.keypoints, o.estimate);
  }
}
