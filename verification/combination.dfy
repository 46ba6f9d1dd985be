/**
 * `processCombination` of taller2c2/combination_tester.cpp: one
 * detector/descriptor/matcher combination run end to end, with its early
 * returns, the knnMatch fallback, the ratio filter and the homography gate.
 */
module Combination {
  import opened Wrappers
  import opened Registry
  import opened Features
  import opened Matching

  /** The per-combination record; `processingTime` is whole milliseconds. */
  datatype MatchResult = MatchResult(numMatches: int, numGoodMatches: int, processingTime: int, homographySuccess: bool)

  /** The record as initialised; every early return hands it back unchanged,
      because returning skips the timing code at the end. */
  const Zeroed: MatchResult := MatchResult(0, 0, 0, false)

  const MaxKeypoints: nat := 500

  /** Both descriptor sets of a combination that got past extraction. */
  datatype Extraction = Extraction(d1: Described, d2: Described)

  /** Registry lookups, detection, truncation to 500 keypoints and
      description. None is one of the early returns: a null detector or
      descriptor, or an empty descriptor matrix. */
  function Extract(o: Oracles, detectorName: string, descriptorName: string): (r: Option<Extraction>)
    ensures r.Some? ==> CreateDetector(detectorName).Some? && CreateDescriptor(descriptorName).Some?
    ensures r.Some? ==> r.value.d1.rows > 0 && r.value.d2.rows > 0
    ensures CreateDetector(detectorName).Some? && CreateDescriptor(descriptorName).Some? ==>
      var det := CreateDetector(detectorName).value;
      var desc := CreateDescriptor(descriptorName).value;
      var d1 := o.describe(desc, ObjectImage, Truncate(o.detect(det, ObjectImage), MaxKeypoints));
      var d2 := o.describe(desc, SceneImage, Truncate(o.detect(det, SceneImage), MaxKeypoints));
      d1.rows > 0 && d2.rows > 0 ==> r == Some(Extraction(d1, d2))
  {
    var detector := CreateDetector(detectorName);
    var descriptor := CreateDescriptor(descriptorName);
    if detector.None? || descriptor.None? then None
    else
      var finder := if detectorName == "BRIEF" || detectorName == "FREAK" then Fast(FastThreshold) else detector.value;
      var kp1 := Truncate(o.detect(finder, ObjectImage), MaxKeypoints);
      var kp2 := Truncate(o.detect(finder, SceneImage), MaxKeypoints);
      var d1 := o.describe(descriptor.value, ObjectImage, kp1);
      var d2 := o.describe(descriptor.value, SceneImage, kp2);
      if d1.rows == 0 || d2.rows == 0 then None
      else Some(Extraction(d1, d2))
  }

  /** The neighbour lists the filter sees: those of `knnMatch`, or those the
      fallback builds from `match`; None when the fallback throws too. */
  function NeighbourLists(k: KnnOutcome): (r: Option<seq<seq<DMatch>>>)
    ensures OutcomeIndicesNonNegative(k) && r.Some? ==> FirstNeighboursNonNegative(r.value)
    ensures k.KnnOk? ==> r == Some(k.lists)
    ensures k.KnnThrew? && k.retry.Some? ==> r == Some(FallbackKnn(k.retry.value))
    ensures r.None? <==> k == KnnThrew(None)
  {
    match k
    case KnnOk(lists) => Some(lists)
    case KnnThrew(None) => None
    case KnnThrew(Some(regular)) => Some(FallbackKnn(regular))
  }

  /** `processCombination`. A throw from the fallback `match` is caught by
      the outer handler, which still records the elapsed time. */
  function ProcessCombination(o: Oracles, detectorName: string, descriptorName: string,
                              matcherName: string, elapsedMs: nat): (r: MatchResult)
    requires MatcherContract(o)
    ensures 0 <= r.numGoodMatches <= r.numMatches
    ensures r.homographySuccess ==> r.numGoodMatches >= MinCorrespondences
    ensures r.processingTime == 0 || r.processingTime == elapsedMs
    ensures r.numMatches > 0 ==> r.processingTime == elapsedMs
  {
    match Extract(o, detectorName, descriptorName)
    case None => Zeroed
    case Some(e) =>
      var binary := IsBinaryDescriptor(descriptorName);
      var matcher := CreateMatcher(matcherName, binary);
      if matcher.None? then Zeroed
      else
        var outcome := o.knnMatch(matcher.value, e.d1, e.d2);
        assert OutcomeIndicesNonNegative(outcome);
        match NeighbourLists(outcome)
        case None => MatchResult(0, 0, elapsedMs, false)
        case Some(knn) =>
          var good := GoodMatches(knn, RatioThreshold(binary));
          GoodMatchesNonNegative(knn, RatioThreshold(binary));
          MatchResult(|knn|, |good|, elapsedMs, CheckedHomography(good, e.d1.keypoints, e.d2.keypoints, o.estimate))
  }

  /** Every early return (unknown detector or descriptor, empty descriptors,
      unknown matcher) yields the zeroed record, processing time included. */
  lemma EarlyReturnsAreZeroed(o: Oracles, detectorName: string, descriptorName: string,
                              matcherName: string, elapsedMs: nat)
    requires MatcherContract(o)
    requires Extract(o, detectorName, descriptorName).None?
          || CreateMatcher(matcherName, IsBinaryDescriptor(descriptorName)).None?
    ensures ProcessCombination(o, detectorName, descriptorName, matcherName, elapsedMs) == Zeroed
  {
  }

  /** Naming BRIEF or FREAK as the detector always hits the first early
      return, whatever the libraries would have computed. */
  lemma DescriptorOnlyDetectorIsZeroed(o: Oracles, detectorName: string, descriptorName: string,
                                       matcherName: string, elapsedMs: nat)
    requires MatcherContract(o)
    requires detectorName == "BRIEF" || detectorName == "FREAK"
    ensures ProcessCombination(o, detectorName, descriptorName, matcherName, elapsedMs) == Zeroed
  {
    DescriptorOnlyNamesHaveNoDetector(detectorName);
  }

  /** The FAST substitute is dead code: whenever extraction succeeds the
      named detector found the keypoints, and each description was computed
      on the first 500 of them in detector order. */
  lemma ExtractUsesNamedDetector(o: Oracles, detectorName: string, descriptorName: string)
    requires Extract(o, detectorName, descriptorName).Some?
    ensures var det := CreateDetector(detectorName).value;
      var desc := CreateDescriptor(descriptorName).value;
      var e := Extract(o, detectorName, descriptorName).value;
      && e.d1 == o.describe(desc, ObjectImage, Truncate(o.detect(det, ObjectImage), MaxKeypoints))
      && e.d2 == o.describe(desc, SceneImage, Truncate(o.detect(det, SceneImage), MaxKeypoints))
  {
    if detectorName == "BRIEF" || detectorName == "FREAK" {
      DescriptorOnlyNamesHaveNoDetector(detectorName);
    }
  }

  /** When matching runs, the record counts one entry per neighbour list and,
      as good matches, exactly the lists that pass the ratio test under the
      threshold chosen by the binary flag; the homography succeeds exactly
      when at least four in-bounds pairs reach the estimator and it returns
      a matrix. */
  lemma MatchedCountsAreRatioTestCounts(o: Oracles, detectorName: string, descriptorName: string,
                                        matcherName: string, elapsedMs: nat)
    requires MatcherContract(o)
    requires Extract(o, detectorName, descriptorName).Some?
    requires CreateMatcher(matcherName, IsBinaryDescriptor(descriptorName)).Some?
    ensures var e := Extract(o, detectorName, descriptorName).value;
      var m := CreateMatcher(matcherName, IsBinaryDescriptor(descriptorName)).value;
      var r := ProcessCombination(o, detectorName, descriptorName, matcherName, elapsedMs);
      match NeighbourLists(o.knnMatch(m, e.d1, e.d2))
      case None => r == MatchResult(0, 0, elapsedMs, false)
      case Some(knn) =>
        && r.numMatches == |knn|
        && r.numGoodMatches == |Positions(knn, nb => PassesRatio(nb, RatioThreshold(IsBinaryDescriptor(descriptorName))))|
        && r.processingTime == elapsedMs
        && IndicesNonNegative(GoodMatches(knn, RatioThreshold(IsBinaryDescriptor(descriptorName))))
        && var c := Correspondences(GoodMatches(knn, RatioThreshold(IsBinaryDescriptor(descriptorName))), e.d1.keypoints, e.d2.keypoints);
           r.homographySuccess <==> |c.obj| >= MinCorrespondences && o.estimate(c.obj, c.scene).Some?
  {
    var e := Extract(o, detectorName, descriptorName).value;
    var m := CreateMatcher(matcherName, IsBinaryDescriptor(descriptorName)).value;
    var outcome := o.knnMatch(m, e.d1, e.d2);
    assert OutcomeIndicesNonNegative(outcome);
    match NeighbourLists(outcome)
    case None =>
    case Some(knn) =>
      var t := RatioThreshold(IsBinaryDescriptor(descriptorName));
      GoodMatchesSelect(knn, t);
      GoodMatchesNonNegative(knn, t);
      GoodMatchCountTestIsRedundant(GoodMatches(knn, t), e.d1.keypoints, e.d2.keypoints, o.estimate);
  }

  /** When `knnMatch` throws and the retry with `match` returns, the record
      counts one entry per regular match and, as good matches, exactly those
      with a positive distance: the synthetic neighbour at 1.5 times the
      distance lets every non-zero match through. */
  lemma FallbackRunCounts(o: Oracles, detectorName: string, descriptorName: string,
                          matcherName: string, elapsedMs: nat, regular: seq<DMatch>)
    requires MatcherContract(o)
    requires Extract(o, detectorName, descriptorName).Some?
    requires CreateMatcher(matcherName, IsBinaryDescriptor(descriptorName)).Some?
    requires var e := Extract(o, detectorName, descriptorName).value;
      o.knnMatch(CreateMatcher(matcherName, IsBinaryDescriptor(descriptorName)).value, e.d1, e.d2) == KnnThrew(Some(regular))
    requires forall i :: 0 <= i < |regular| ==> regular[i].distance >= 0.0
    ensures var r := ProcessCombination(o, detectorName, descriptorName, matcherName, elapsedMs);
      && r.numMatches == |regular|
      && r.numGoodMatches == |Positions(regular, PositiveDistance)|
      && r.processingTime == elapsedMs
  {
    FallbackGoodMatches(regular, IsBinaryDescriptor(descriptorName));
  }
}
