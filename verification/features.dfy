/**
 * Values that flow between the OpenCV calls of the matching programs in
 * taller2c2/. The library computes them; the model receives them from a
 * record of oracles that stands for detection, description, k-NN search and
 * RANSAC homography estimation.
 */
module Features {
  import opened Wrappers
  import opened Registry

  /** cv::Point2f, with float coordinates modelled as reals. */
  datatype Point2f = Point2f(x: real, y: real)

  /** cv::KeyPoint: the programs only read `pt`; the rest passes through. */
  datatype KeyPoint = KeyPoint(pt: Point2f, size: real, angle: real, response: real)

  /** cv::DMatch: query descriptor row, train descriptor row and distance. */
  datatype DMatch = DMatch(queryIdx: int, trainIdx: int, distance: real)

  /** A default-constructed cv::DMatch has every index at -1; only its
      distance is ever set. */
  function Synthetic(distance: real): DMatch {
    DMatch(-1, -1, distance)
  }

  /** The two benchmark images: the object and the scene it is searched in. */
  datatype Image = ObjectImage | SceneImage

  /** What `compute` leaves behind: the keypoints it kept (it may drop some)
      and the number of descriptor rows; zero rows is an empty matrix. */
  datatype Described = Described(keypoints: seq<KeyPoint>, rows: nat)

  /** A 3x3 projective transform, row-major. */
  datatype Homography = Homography(h: seq<real>)

  /** `knnMatch(.., k = 2)` either returns its neighbour lists or throws; after
      a throw the program retries with plain `match`, which itself either
      returns one best match per query row or throws. */
  datatype KnnOutcome =
    | KnnOk(lists: seq<seq<DMatch>>)
    | KnnThrew(retry: Option<seq<DMatch>>)

  /** The library calls the pipeline makes. `estimate` is `findHomography`
      with RANSAC: None stands for the empty matrix it returns on failure. */
  datatype Oracles = Oracles(
    detect: (Feature2D, Image) -> seq<KeyPoint>,
    describe: (Feature2D, Image, seq<KeyPoint>) -> Described,
    knnMatch: (Matcher, Described, Described) -> KnnOutcome,
    estimate: (seq<Point2f>, seq<Point2f>) -> Option<Homography>)

  predicate IndicesNonNegative(ms: seq<DMatch>) {
    forall i :: 0 <= i < |ms| ==> ms[i].queryIdx >= 0 && ms[i].trainIdx >= 0
  }

  /** What a matcher guarantees: every match it reports names real descriptor
      rows, so no index is negative. */
  predicate OutcomeIndicesNonNegative(k: KnnOutcome) {
    match k
    case KnnOk(lists) => forall i :: 0 <= i < |lists| ==> IndicesNonNegative(lists[i])
    case KnnThrew(None) => true
    case KnnThrew(Some(regular)) => IndicesNonNegative(regular)
  }

  ghost predicate MatcherContract(o: Oracles) {
    forall m, d1, d2 :: OutcomeIndicesNonNegative(o.knnMatch(m, d1, d2))
  }
}
