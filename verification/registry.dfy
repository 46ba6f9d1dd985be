/**
 * The closed name-to-strategy registry of the feature-matching benchmark:
 * `createDetector`, `createDescriptor` and `createMatcher`, the binary
 * descriptor flag and the Lowe ratio threshold chosen from it
 * (taller2c2/combination_tester.cpp).
 */
module Registry {
  import opened Wrappers

  /** The OpenCV feature algorithms the programs construct, with the
      construction arguments they pass. */
  datatype Feature2D =
    | Sift(nFeatures: nat)
    | Surf(hessianThreshold: real, nOctaves: nat, nOctaveLayers: nat, extended: bool)
    | Orb(nFeatures: nat)
    | Brisk(threshold: nat, octaves: nat, patternScale: real)
    | Fast(threshold: nat)
    | Brief(bytes: nat)
    | Freak

  /** Descriptor matchers: brute force under the Hamming or the L2 norm, FLANN
      over an LSH index with explicit search checks, or FLANN with its
      default (k-d tree) index. */
  datatype Matcher =
    | BruteForceHamming
    | BruteForceL2
    | FlannLsh(tableNumber: nat, keySize: nat, multiProbeLevel: nat, checks: nat)
    | FlannDefault

  /** The name under which each algorithm is known to the registry. */
  function AlgorithmName(f: Feature2D): string {
    match f
    case Sift(_) => "SIFT"
    case Surf(_, _, _, _) => "SURF"
    case Orb(_) => "ORB"
    case Brisk(_, _, _) => "BRISK"
    case Fast(_) => "FAST"
    case Brief(_) => "BRIEF"
    case Freak => "FREAK"
  }

  /** BRIEF and FREAK only describe keypoints; they cannot find them. */
  predicate CanDetect(f: Feature2D) {
    !f.Brief? && !f.Freak?
  }

  /** FAST only finds keypoints; it computes no descriptors. */
  predicate CanDescribe(f: Feature2D) {
    !f.Fast?
  }

  /** Algorithms whose descriptors are bit strings compared by Hamming distance. */
  predicate ProducesBinary(f: Feature2D) {
    f.Orb? || f.Brisk? || f.Brief? || f.Freak?
  }

  /** The family a matcher belongs to, as the registry names it. */
  function MatcherName(m: Matcher): string {
    if m.BruteForceHamming? || m.BruteForceL2? then "BF" else "FLANN"
  }

  /** Matchers configured for binary descriptors (Hamming norm or LSH index). */
  predicate ForBinaryDescriptors(m: Matcher) {
    m.BruteForceHamming? || m.FlannLsh?
  }

  /** The FAST threshold both construction sites pass. */
  const FastThreshold: nat := 20

  /** `createDetector`: an unknown name yields a null pointer. */
  function CreateDetector(name: string): (r: Option<Feature2D>)
    ensures r.Some? <==> name in {"SIFT", "SURF", "ORB", "BRISK", "FAST"}
    ensures r.Some? ==> AlgorithmName(r.value) == name && CanDetect(r.value)
  {
    if name == "SIFT" then Some(Sift(500))
    else if name == "SURF" then Some(Surf(100.0, 3, 3, false))
    else if name == "ORB" then Some(Orb(700))
    else if name == "BRISK" then Some(Brisk(30, 3, 1.0))
    else if name == "FAST" then Some(Fast(FastThreshold))
    else None
  }

  /** `createDescriptor`: an unknown name yields a null pointer. */
  function CreateDescriptor(name: string): (r: Option<Feature2D>)
    ensures r.Some? <==> name in {"SIFT", "SURF", "ORB", "BRISK", "BRIEF", "FREAK"}
    ensures r.Some? ==> AlgorithmName(r.value) == name && CanDescribe(r.value)
  {
    if name == "SIFT" then Some(Sift(500))
    else if name == "SURF" then Some(Surf(100.0, 3, 3, false))
    else if name == "ORB" then Some(Orb(700))
    else if name == "BRISK" then Some(Brisk(30, 3, 1.0))
    else if name == "BRIEF" then Some(Brief(32))
    else if name == "FREAK" then Some(Freak)
    else None
  }

  /** `createMatcher`: the index configuration follows the binary flag, never
      the matcher name alone; an unknown name yields a null pointer. */
  function CreateMatcher(name: string, isBinaryDescriptor: bool): (r: Option<Matcher>)
    ensures r.Some? <==> name in {"BF", "FLANN"}
    ensures r.Some? ==> MatcherName(r.value) == name
    ensures r.Some? ==> (ForBinaryDescriptors(r.value) <==> isBinaryDescriptor)
    ensures r.Some? && r.value.FlannLsh? ==> r.value == FlannLsh(6, 12, 1, 50)
  {
    if name == "BF" then
      if isBinaryDescriptor then Some(BruteForceHamming) else Some(BruteForceL2)
    else if name == "FLANN" then
      if isBinaryDescriptor then Some(FlannLsh(6, 12, 1, 50)) else Some(FlannDefault)
    else None
  }

  /** The flag computed from the descriptor name in `processCombination` and in
      the grid loop of `main`. */
  predicate IsBinaryDescriptor(name: string) {
    name == "ORB" || name == "BRIEF" || name == "BRISK" || name == "FREAK"
  }

  /** The Lowe ratio threshold: looser for the coarser Hamming distances. */
  function RatioThreshold(isBinaryDescriptor: bool): (t: real)
    ensures 0.0 < t < 1.0
    ensures t == 0.8 <==> isBinaryDescriptor
    ensures t == 0.75 <==> !isBinaryDescriptor
  {
    if isBinaryDescriptor then 0.8 else 0.75
  }

  /** The name-based flag agrees with what the named descriptor produces. */
  lemma BinaryFlagMatchesDescriptor(name: string)
    ensures IsBinaryDescriptor(name) <==>
      CreateDescriptor(name).Some? && ProducesBinary(CreateDescriptor(name).value)
  {
  }

  /** Description-only names never yield a detector, so a combination using
      one as detector is abandoned before any detection happens. */
  lemma DescriptorOnlyNamesHaveNoDetector(name: string)
    requires name == "BRIEF" || name == "FREAK"
    ensures CreateDetector(name).None?
    ensures CreateDescriptor(name).Some? && !CanDetect(CreateDescriptor(name).value)
  {
  }

  /** For a known matcher name, the matcher is configured for binary
      descriptors exactly when the looser threshold 0.8 is in force. */
  lemma MatcherAgreesWithThreshold(descriptor: string, matcher: string)
    requires matcher == "BF" || matcher == "FLANN"
    ensures var m := CreateMatcher(matcher, IsBinaryDescriptor(descriptor));
      m.Some? && (ForBinaryDescriptors(m.value) <==> RatioThreshold(IsBinaryDescriptor(descriptor)) == 0.8)
  {
  }
}
