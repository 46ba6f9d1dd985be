# ComputerVision core, modelled in Dafny

The model covers three parts of the repository.

**The feature-matching benchmark in `taller2c2/`.** `combination_tester.cpp` runs every valid detector/descriptor/matcher combination. Each run goes through these steps:

- detect keypoints on the object and the scene image;
- cap them at 500;
- describe them;
- k-NN match with k = 2, falling back to single matches with a synthetic second neighbour when `knnMatch` throws;
- keep the matches that pass Lowe's ratio test (0.8 for binary descriptors, 0.75 otherwise);
- estimate a homography when at least four in-bounds correspondences exist.

The results go into a `std::map` keyed by the name triple. The program then reports the entry with the most good matches and the fastest entry.

`fast_brief.cpp` and `surf_surf.cpp` inline the same pipeline for one fixed combination:

- FAST + BRIEF with a cap of 1000 and a threshold of 0.8;
- SURF + SURF, which truncates keypoints and descriptor rows together to 500, uses a threshold of 0.75 and builds correspondences without a bounds check.

**The rectangle selection of `segmentacion2/main.cpp`.** This is the mouse callback's state machine (button held, anchor corner, moving corner), the rectangle derived from the corners, and `arreglar_bordes`, which is meant to keep that rectangle inside the image.

**The coin accounting of `monedas/main.cpp`.** It covers:

- nearest-diameter classification against the Czech crown table;
- the pixels-per-mm calibration from the smallest and largest detected radius;
- the per-denomination count map and the total value.

OpenCV stays outside the model. It enters as oracles: the function fields of `Features.Oracles`, and function parameters in `SurfSurf`. What the model assumes of a matcher is stated as a predicate in the requires:

- `Features.MatcherContract`: indices are never negative;
- `SurfSurf.KnnContract`: indices are below the row counts.

Wall-clock time is an input (`elapsedMs`, or `elapsed` per key).

Modules:

- `Wrappers`: `Option`.
- `Ints`: integer minimum, maximum and absolute value.
- `Registry`: name-to-algorithm factories, the binary flag, the ratio threshold.
- `Features`: keypoints, matches, oracles.
- `Matching`: truncation, ratio filter, fallback, correspondences, homography gate.
- `Combination`: `processCombination`.
- `Lexicographic`: the `std::string` order.
- `Grid`: grid loop, results map, ranking.
- `FastBrief`, `SurfSurf`, `Selection`, `Coins`.

Three behaviours of the code are worth stating plainly:

- **Descriptor-only detector names.** `processCombination` has a branch that detects with FAST when BRIEF or FREAK is named as the detector (`combination_tester.cpp:121-125`). That branch is dead: `createDetector` returns null for those names, so the function returns the zeroed record before reaching it. See `Combination.DescriptorOnlyDetectorIsZeroed` and `Combination.ExtractUsesNamedDetector`.
- **Ranking ties.** The ranking uses `max_element`/`min_element` over the `std::map`. The map's order is lexicographic on the name triple, so ties go to the least key in that order (`Grid.BestMatchIsFirstMaximum`, `Grid.FastestMatchIsFirstMinimum`).
- **Failed combinations.**
  - The early returns record the zeroed record, including a processing time of 0 ms, because they skip the timing code. Times are whole milliseconds, so a real run can also record 0 ms. Among the entries with the least time, the fastest is the one with the least key.
  - When the fallback `match` also throws, the outer handler records the elapsed time.
  - With fewer than four correspondences, the match counts are still recorded. Only `homographySuccess` stays false.

## Model

| member | source | states |
|---|---|---|
| Registry.CreateDetector | taller2c2/combination_tester.cpp:31-46 | a detector exists exactly for SIFT, SURF, ORB, BRISK and FAST, carrying the named algorithm, which can detect; any other name gives none |
| Registry.CreateDescriptor | taller2c2/combination_tester.cpp:49-66 | a descriptor exists exactly for the six descriptor names, each the named algorithm, able to describe |
| Registry.CreateMatcher | taller2c2/combination_tester.cpp:69-90 | a matcher exists exactly for BF and FLANN, of the named kind, configured for binary descriptors exactly when the flag is set; a FLANN matcher for binary descriptors uses the LSH index (6, 12, 1) with 50 checks |
| Registry.BinaryFlagMatchesDescriptor | taller2c2/combination_tester.cpp:153-157 | specifies `Registry.IsBinaryDescriptor`: the name-based binary flag holds exactly when the named descriptor exists and produces binary strings |
| Registry.RatioThreshold | taller2c2/combination_tester.cpp:200 | the ratio lies strictly between 0 and 1; it is 0.8 exactly for binary descriptors and 0.75 otherwise |
| Registry.DescriptorOnlyNamesHaveNoDetector | taller2c2/combination_tester.cpp:31-46 | BRIEF and FREAK yield no detector, though they are descriptors that cannot detect |
| Registry.MatcherAgreesWithThreshold | taller2c2/combination_tester.cpp:200 | for BF or FLANN, the matcher is set up for binary descriptors exactly when the 0.8 threshold applies |
| Matching.Truncate | taller2c2/combination_tester.cpp:131-138 | the capped list is the prefix of length min(n, cap) |
| Matching.Positions | taller2c2/combination_tester.cpp:202-207 | the reference filter: increasing positions, each satisfying the predicate, and every satisfying position included |
| Matching.GoodMatches | taller2c2/combination_tester.cpp:202-207 | the filter keeps at most one match per neighbour list |
| Matching.GoodMatchesSelect | taller2c2/combination_tester.cpp:199-209 | the good matches are, in order, the first neighbours of exactly the lists with two entries passing d0 < t·d1 |
| Matching.GoodMatchesAreFirstNeighbours | taller2c2/combination_tester.cpp:203-205 | every good match is the first neighbour of some list with at least two entries |
| Matching.GoodMatchesNonNegative | taller2c2/combination_tester.cpp:202-207 | if no first neighbour has a negative index, no good match does |
| Matching.FallbackKnn | taller2c2/combination_tester.cpp:182-193 | one list per regular match, each being that match and a synthetic neighbour at 1.5 times its distance |
| Matching.FallbackPassesIffPositive | taller2c2/combination_tester.cpp:186-204 | under either threshold, a fallback list passes the ratio test exactly when its real distance is positive |
| Matching.PositionsAgree | taller2c2/combination_tester.cpp:202-207 | two filters select the same positions when their predicates agree entry by entry |
| Matching.FallbackGoodMatches | taller2c2/combination_tester.cpp:182-207 | after a `knnMatch` throw, the good matches are, in order, exactly the regular matches with a positive distance |
| Matching.Correspondences | taller2c2/combination_tester.cpp:219-225 | the two point lists have equal length, at most the number of good matches |
| Matching.CorrespondencesSelect | taller2c2/combination_tester.cpp:219-225 | the pairs are, in order, the keypoint positions of exactly the good matches whose indices are below both keypoint counts |
| Matching.CheckedHomography | taller2c2/combination_tester.cpp:213-231 | success requires at least four good matches, at least four in-bounds pairs, and a matrix from the estimator |
| Matching.GoodMatchCountTestIsRedundant | taller2c2/combination_tester.cpp:215-230 | success holds exactly when there are at least four in-bounds pairs and the estimator returns a matrix |
| Combination.Extract | taller2c2/combination_tester.cpp:109-151 | extraction succeeds exactly when both factories are non-null and both descriptor matrices are non-empty, and then holds the descriptions of the named detector's first 500 keypoints |
| Combination.NeighbourLists | taller2c2/combination_tester.cpp:176-194 | the filter sees `knnMatch`'s own lists, or after a throw the fallback lists built from `match`; there are none only when `match` throws too; no first neighbour has a negative index when the matcher reports none |
| Combination.ProcessCombination | taller2c2/combination_tester.cpp:93-297 | 0 ≤ good ≤ matches; success implies at least four good matches; the time is 0 (early return) or the elapsed time, and is the elapsed time whenever matches were counted; `Combination.MatchedCountsAreRatioTestCounts` adds that success also needs at least four in-bounds pairs and a matrix from the estimator |
| Combination.EarlyReturnsAreZeroed | taller2c2/combination_tester.cpp:97-173 | an unknown name, empty descriptors or an unknown matcher give the all-zero record |
| Combination.DescriptorOnlyDetectorIsZeroed | taller2c2/combination_tester.cpp:111-125 | BRIEF or FREAK as detector always gives the all-zero record |
| Combination.ExtractUsesNamedDetector | taller2c2/combination_tester.cpp:121-146 | whenever extraction succeeds, the descriptions were computed on the first 500 keypoints of the named detector |
| Combination.MatchedCountsAreRatioTestCounts | taller2c2/combination_tester.cpp:196-230 | once matching runs, numMatches is the number of lists and numGoodMatches the number passing the flag's threshold; homographySuccess holds exactly when the bounds-checked pairs of the good matches number at least four and the estimator returns a matrix for them; a throwing fallback gives (0, 0, elapsed, false) |
| Combination.FallbackRunCounts | taller2c2/combination_tester.cpp:182-209 | when `knnMatch` throws and `match` returns, the run records one match per regular match and, as good matches, those with a positive distance |
| Lexicographic.StrLessTransitive | taller2c2/combination_tester.cpp:438 | the string order of the map keys is transitive |
| Lexicographic.StrLessTotal | taller2c2/combination_tester.cpp:438 | any two distinct strings are ordered |
| Grid.MatcherLoop | taller2c2/combination_tester.cpp:449-465 | the inner loop yields exactly the matchers not skipped as FLANN with a binary descriptor |
| Grid.DescriptorLoop | taller2c2/combination_tester.cpp:444-466 | the middle loop yields exactly the valid, non-skipped descriptor/matcher pairs |
| Grid.DetectorLoop | taller2c2/combination_tester.cpp:443-467 | the nested loops yield exactly the enumerated combinations |
| Grid.DetectorLoopDistinct | taller2c2/combination_tester.cpp:443-467 | no combination is produced twice when the name lists are distinct |
| Grid.GridShape | taller2c2/combination_tester.cpp:355-467 | the full grid has 40 distinct keys, none FLANN with a binary descriptor |
| Grid.ValidityMeansDetectorCanDetect | taller2c2/combination_tester.cpp:300-307 | specifies `isCombinationValid` (`Grid.IsCombinationValid`): a pair is invalid exactly when the detector name denotes a description-only algorithm, and such a pair could only yield the zeroed record |
| Grid.RecordAll | taller2c2/combination_tester.cpp:459-460 | every visited key maps to its own processing result; other entries are untouched |
| Grid.RunGrid | taller2c2/combination_tester.cpp:438-467 | a full run leaves 40 entries, exactly the enumerated combinations, none FLANN with a binary descriptor, each holding that combination's own result |
| Grid.RunSingle | taller2c2/combination_tester.cpp:468-477 | a single run aborts exactly for a BRIEF or FREAK detector, and otherwise records one entry, holding that combination's `processCombination` result |
| Grid.RunSingleAgreesWithGrid | taller2c2/combination_tester.cpp:459-477 | every enumerated combination is in the grid map, and a single run of it with the same elapsed time records exactly the grid's entry for it |
| Grid.MaxElementIndex | taller2c2/combination_tester.cpp:496-500 | the index holds the largest value, and every earlier value is strictly smaller |
| Grid.MinElementIndex | taller2c2/combination_tester.cpp:503-507 | the index holds the smallest value, and every earlier value is strictly larger |
| Grid.InKeyOrder | taller2c2/combination_tester.cpp:485 | map iteration visits each key once, in strictly increasing tuple order |
| Grid.BestMatch | taller2c2/combination_tester.cpp:496-500 | a best entry exists exactly when the map is non-empty, and it is a key of the map |
| Grid.FastestMatch | taller2c2/combination_tester.cpp:503-507 | a fastest entry exists exactly when the map is non-empty, and it is a key of the map |
| Grid.BestMatchIsFirstMaximum | taller2c2/combination_tester.cpp:495-513 | the best entry exists iff the map is non-empty, has the most good matches, and is the least key among ties |
| Grid.FastestMatchIsFirstMinimum | taller2c2/combination_tester.cpp:502-519 | the fastest entry exists iff the map is non-empty, has the least time, and is the least key among ties |
| FastBrief.FastBrief | taller2c2/fast_brief.cpp:65-141 | the program reports exactly when both descriptions are non-empty and `knnMatch` returns, and ends on the matcher's throw exactly when both are non-empty and it throws; when it reports, good ≤ total, and success implies at least four good matches |
| FastBrief.FastBriefEmptyDescriptorsExit | taller2c2/fast_brief.cpp:74-106 | the program exits early exactly when a description of the first 1000 FAST keypoints is empty, and reaches its report exactly when both are non-empty and `knnMatch` returns |
| FastBrief.FastBriefReport | taller2c2/fast_brief.cpp:103-141 | the counts are the number of lists and of lists passing 0.8; success holds exactly when the bounds-checked pairs number at least four and the estimator returns a matrix for them |
| SurfSurf.TruncateAligned | taller2c2/surf_surf.cpp:78-88 | keypoints and descriptor rows are cut to the same prefix of length min(n, 500), keeping them aligned |
| SurfSurf.UncheckedCorrespondences | taller2c2/surf_surf.cpp:114-121 | every good match contributes one pair |
| SurfSurf.CheckedAgreesWhenInBounds | taller2c2/surf_surf.cpp:118-121 | with all indices in range, the unchecked loop equals the bounds-checked one of the other programs |
| SurfSurf.UncheckedIndexingIsSafe | taller2c2/surf_surf.cpp:78-121 | after aligned truncation, every good match's indices are below the keypoint counts |
| SurfSurf.SurfSurf | taller2c2/surf_surf.cpp:66-126 | good ≤ total; success implies at least four good matches |
| SurfSurf.SurfSurfReport | taller2c2/surf_surf.cpp:78-126 | both truncated sides keep min(n, 500) aligned keypoints and rows; the counts are the number of lists and of lists passing 0.75; every good match indexes in bounds, the object and scene lists both hold one point per good match, and success holds iff there are at least four good matches and the estimator accepts those lists |
| Selection.Step | segmentacion2/main.cpp:42-65 | the button is held iff just pressed, or held and not released; only a press moves the anchor; the corner only moves to the cursor; other events and unpressed moves change nothing |
| Selection.Normalize | segmentacion2/main.cpp:66-82 | the rectangle starts at the smaller coordinates, has non-negative size, and spans both corners |
| Selection.NormalizeSymmetric | segmentacion2/main.cpp:66-82 | swapping the corners gives the same rectangle |
| Selection.ButtonDownStartsEmptySelection | segmentacion2/main.cpp:44-50 | a press starts an empty selection anchored at the cursor |
| Selection.ButtonUpFixesCorner | segmentacion2/main.cpp:51-55 | a release keeps the anchor and fixes the corner at the cursor |
| Selection.Run | segmentacion2/main.cpp:42-65 | over any trace the anchor either stays or sits where some press happened |
| Selection.RunConcat | segmentacion2/main.cpp:42-65 | replaying two event traces one after the other equals replaying their concatenation |
| Selection.DragKeepsAnchor | segmentacion2/main.cpp:56-61 | moves with the button held keep the anchor and leave the corner at the last position |
| Selection.DragSelectsSpannedRectangle | segmentacion2/main.cpp:42-82 | press, any drag, then release select the rectangle spanned by the press and release points |
| Selection.ArreglarBordes | segmentacion2/main.cpp:21-30 | as written: size never grows, the corner is clamped to 0, and the far edge stays inside only when the corner was already non-negative |
| Selection.ArreglarBordesCanLeaveImage | segmentacion2/main.cpp:21-30 | a drag from (-10, 5) to (95, 40) on a 100×100 image gives Rect(0, 5, 105, 35), past the right edge |
| Selection.ArreglarBordesCanGoNegative | segmentacion2/main.cpp:22-23 | a corner right of the image gives a negative width |
| Selection.ClipToImage | segmentacion2/main.cpp:19-30 | the intended clamp: inside the image, and covering exactly the pixels in both the rectangle and the image |
| Selection.ClipAgreesWhenCornerInside | segmentacion2/main.cpp:21-30 | for a non-empty rectangle whose corner lies in the image, the code and the intended clamp agree |
| Selection.ArreglarBordesExactWhenCornerNonNegative | segmentacion2/main.cpp:21-30 | with a non-negative corner, the clamped rectangle covers exactly the rectangle's pixels inside the image |
| Selection.OnMouse | segmentacion2/main.cpp:33-84 | one callback as written: the state step, then the rectangle `dibujar` draws after `arreglar_bordes`; its corner is the clamped selection corner, it never grows, and it is the selection's part of the image whenever the selection corner is non-negative |
| Selection.OnMouseIntended | segmentacion2/main.cpp:19-84 | the intended callback: the drawn rectangle lies inside the image and covers exactly the selected pixels in the image |
| Selection.OnMouseCanLeaveImage | segmentacion2/main.cpp:21-84 | releasing a drag from (-10, 5) at (95, 40) on a 100×100 image draws Rect(0, 5, 105, 35), where the intended callback draws Rect(0, 5, 95, 35) |
| Selection.OnMouseAgreesWithIntended | segmentacion2/main.cpp:21-84 | when the selection corner is non-negative, the program and the intended callback draw the same pixels |
| Coins.NearestIndex | monedas/main.cpp:20-29 | the scan ends on the first entry of minimal diameter difference |
| Coins.FirstNearestUnique | monedas/main.cpp:25 | with the strict comparison, at most one entry is the first nearest |
| Coins.ClassifyCoin | monedas/main.cpp:18-32 | 0 for an empty table, otherwise the value of the first entry nearest in diameter |
| Coins.ClassifyCoinIsFirstNearest | monedas/main.cpp:18-32 | any first-nearest entry is the one whose value is returned |
| Coins.TableIndexIsFirstNearest | monedas/main.cpp:36-42 | on the crown table, the first nearest entry is fixed by the midpoints 20.75, 22.25, 23.75 and 25.25, with ties going to the smaller coin |
| Coins.ClassifyCoinTable | monedas/main.cpp:36-42 | the classification of any diameter in closed form over the crown table |
| Coins.ClassifyCoinExtremes | monedas/main.cpp:36-42 | d ≤ 20 gives 1 and d ≥ 26 gives 20 |
| Coins.ClassifyCoinMonotone | monedas/main.cpp:36-42 | a larger diameter never gives a smaller denomination |
| Coins.ClassifyCoinInTable | monedas/main.cpp:223 | every classification is a denomination of the table |
| Coins.SortByRadius | monedas/main.cpp:168-172 | the sort result is ordered by radius and is a permutation of the input |
| Coins.MinRadius | monedas/main.cpp:175 | the smallest radius, attained by some circle |
| Coins.MaxRadius | monedas/main.cpp:176 | the largest radius, attained by some circle |
| Coins.Calibrate | monedas/main.cpp:165-183 | 1 with no circles; positive when all radii are; on a radius-sorted list, the mean of 2·r_min/20 and 2·r_max/26 |
| Coins.SortedEndsAreExtremes | monedas/main.cpp:165-183 | in a radius-sorted list the front holds the least radius and the back the greatest |
| Coins.CalibrationUsesExtremeRadii | monedas/main.cpp:165-183 | for any radius-sorted permutation, the scale is (2·r_min/20 + 2·r_max/26)/2 |
| Coins.CalibrationPositive | monedas/main.cpp:165-183 | with positive radii, the scale is positive (1 with no circles) |
| Coins.ClassifiedPermutation | monedas/main.cpp:168-172 | classifying a permutation of the circles gives a permutation of the denominations |
| Coins.SumByRemove | monedas/main.cpp:201 | a sum over a count map splits off any one key |
| Coins.Increment | monedas/main.cpp:226 | the value becomes a key, its count goes up by one, and no other count changes |
| Coins.IncrementSum | monedas/main.cpp:226 | incrementing a count raises the weighted sum by that key's weight |
| Coins.SeqSumPermutation | monedas/main.cpp:168-172 | reordering values does not change their sum |
| Coins.CountsOfReordering | monedas/main.cpp:168-172 | counting values in another order gives the same map: every value is a key, counted by its positive multiplicity |
| Coins.TallyStep | monedas/main.cpp:223-227 | one iteration keeps counts, number of coins and total in step with the values seen |
| Coins.Tally | monedas/main.cpp:200-227 | each value's count is its multiplicity, counts sum to the number of values, and the total is both Σ value·count and the plain sum of the values |
| Coins.CountCoins | monedas/main.cpp:165-227 | the scale follows the extreme radii; the keys are exactly the denominations the circles classify to, each counted by its multiplicity; counts sum to the number of circles; the total is Σ value·count and the sum of the circles' denominations |

## Left out

- Everything OpenCV computes is an oracle or an input:
  - detection, description, k-NN and brute-force matching, FLANN internals, RANSAC;
  - HoughCircles, contours and minimum enclosing circles;
  - grabCut, drawing and windows.
- Image loading, the fallback paths, resizing to 800 px, file output, console output, the `cin` menu and the `argc` handling are left out. Only the names they select reach the model.
- Exceptions from `detect`, `compute`, `findHomography` and drawing are not modelled. Only the `knnMatch`/`match` throws of `processCombination` are. In `fast_brief.cpp` a `knnMatch` throw ends the program (`FastBrief.MatcherThrew`). In `surf_surf.cpp` matching is assumed to return.
- Float arithmetic is modelled as exact reals. This covers distances, the `0.8f`/`0.75f` products, the `1.5f` scaling, and the pixel and mm arithmetic of the coin counter. The conversion to CV_32F before FLANN is not modelled.
- Combination.ProcessCombination: the elapsed time is a parameter, because the clock is outside the model. The contract says which paths record it, not its value.
- Combination.Extract: `compute` may drop keypoints. The model takes the kept list from the oracle rather than deriving it.
- Coins.CountCoins: requires every radius to be positive. The source relies on HoughCircles (minimum radius 50) and on contours of area at least 1000 for this, so the scale is never zero.
- Coins.CountCoins: `cvRound` is not modelled. Each circle carries its rounded radius, as the loop at `monedas/main.cpp:217` uses it.
- Coins.SortByRadius: `std::sort` may order equal radii either way. The model fixes one order, and `Coins.CalibrationUsesExtremeRadii` and `Coins.ClassifiedPermutation` show that neither the scale nor the tally depends on it.
- In `monedas/main.cpp`, the gamma table, bilateral, threshold, median and morphology filters, the pixel copy loop and the colour lookup only affect images.
- In `segmentacion2/main.cpp`, `dibujar` rewrites the global rectangle through `arreglar_bordes` before drawing it; that rewrite is modelled (`Selection.OnMouse`), the drawing and window calls are not. The `grabCut` loop only consumes the rectangle.
- Grid.BestMatchIsFirstMaximum: `InKeyOrder` is a ghost description of the map's traversal, so the ranking is stated as a lemma and not computed.

## Findings

| source | as written | input that shows it | evidently intended | confidence | as-written member | corrected member |
|---|---|---|---|---|---|---|
| segmentacion2/main.cpp:21-30 | width and height are clipped against the unclamped corner, then a negative corner is moved to 0 without shrinking the size | press at (-10, 5), release at (95, 40) on a 100×100 image: Rect(0, 5, 105, 35) reaches column 105; a corner at x = 120 gives a negative width | the rectangle intersected with the image, here Rect(0, 5, 95, 35) | not executed | Selection.OnMouseCanLeaveImage | Selection.OnMouseIntended |
