/**
 * The benchmark driver in `main` of taller2c2/combination_tester.cpp: the
 * grid of detector/descriptor/matcher names, `isCombinationValid`, the skip
 * of FLANN with binary descriptors, the results map keyed by name triples,
 * and the ranking by `max_element` / `min_element` over that map.
 */
module Grid {
  import opened Wrappers
  import opened Registry
  import opened Features
  import opened Combination
  import opened Lexicographic

  const Detectors: seq<string> := ["SIFT", "SURF", "ORB", "FAST", "BRISK"]
  const Descriptors: seq<string> := ["SIFT", "SURF", "ORB", "BRIEF", "FREAK", "BRISK"]
  const Matchers: seq<string> := ["BF", "FLANN"]

  /** The results-map key `make_tuple(detector, descriptor, matcher)`. */
  datatype Key = Key(detector: string, descriptor: string, matcher: string)

  /** `isCombinationValid`: BRIEF and FREAK are descriptors only. */
  predicate IsCombinationValid(detector: string, descriptor: string) {
    !(detector == "BRIEF" || detector == "FREAK")
  }

  /** The grid's `continue` for FLANN with a binary descriptor. */
  predicate SkippedInGrid(descriptor: string, matcher: string) {
    matcher == "FLANN" && IsBinaryDescriptor(descriptor)
  }

  /** The combinations the nested loops reach, described without the loops. */
  predicate Enumerated(k: Key, detectors: seq<string>, descriptors: seq<string>, matchers: seq<string>) {
    && k.detector in detectors
    && k.descriptor in descriptors
    && k.matcher in matchers
    && IsCombinationValid(k.detector, k.descriptor)
    && !SkippedInGrid(k.descriptor, k.matcher)
  }

  predicate Distinct<T(==)>(s: seq<T>) {
    forall i, j :: 0 <= i < j < |s| ==> s[i] != s[j]
  }

  /** The innermost loop, over matcher names. */
  function MatcherLoop(detector: string, descriptor: string, matchers: seq<string>): (keys: seq<Key>)
    ensures forall k :: k in keys <==>
      k.detector == detector && k.descriptor == descriptor && k.matcher in matchers && !SkippedInGrid(descriptor, k.matcher)
    decreases |matchers|
  {
    if |matchers| == 0 then []
    else
      (if SkippedInGrid(descriptor, matchers[0]) then [] else [Key(detector, descriptor, matchers[0])])
        + MatcherLoop(detector, descriptor, matchers[1..])
  }

  /** The middle loop, over descriptor names, with the validity `continue`. */
  function DescriptorLoop(detector: string, descriptors: seq<string>, matchers: seq<string>): (keys: seq<Key>)
    ensures forall k :: k in keys <==>
      && k.detector == detector && k.descriptor in descriptors && k.matcher in matchers
      && IsCombinationValid(detector, k.descriptor) && !SkippedInGrid(k.descriptor, k.matcher)
    decreases |descriptors|
  {
    if |descriptors| == 0 then []
    else
      (if !IsCombinationValid(detector, descriptors[0]) then [] else MatcherLoop(detector, descriptors[0], matchers))
        + DescriptorLoop(detector, descriptors[1..], matchers)
  }

  /** The outer loop, over detector names. */
  function DetectorLoop(detectors: seq<string>, descriptors: seq<string>, matchers: seq<string>): (keys: seq<Key>)
    ensures forall k :: k in keys <==> Enumerated(k, detectors, descriptors, matchers)
    decreases |detectors|
  {
    if |detectors| == 0 then []
    else DescriptorLoop(detectors[0], descriptors, matchers) + DetectorLoop(detectors[1..], descriptors, matchers)
  }

  /** The keys of the full grid in traversal order. */
  function GridKeys(): seq<Key> {
    DetectorLoop(Detectors, Descriptors, Matchers)
  }

  lemma DistinctConcat<T>(a: seq<T>, b: seq<T>)
    requires Distinct(a) && Distinct(b)
    requires forall x :: x in a ==> x !in b
    ensures Distinct(a + b)
  {
    forall i, j | 0 <= i < j < |a + b|
      ensures (a + b)[i] != (a + b)[j]
    {
      if i < |a| && j >= |a| {
        assert (a + b)[i] in a && (a + b)[j] in b;
      }
    }
  }

  lemma {:induction false} MatcherLoopDistinct(detector: string, descriptor: string, matchers: seq<string>)
    requires Distinct(matchers)
    ensures Distinct(MatcherLoop(detector, descriptor, matchers))
    decreases |matchers|
  {
    if |matchers| > 0 {
      MatcherLoopDistinct(detector, descriptor, matchers[1..]);
      assert matchers[0] !in matchers[1..];
      DistinctConcat(
        if SkippedInGrid(descriptor, matchers[0]) then [] else [Key(detector, descriptor, matchers[0])],
        MatcherLoop(detector, descriptor, matchers[1..]));
    }
  }

  lemma {:induction false} DescriptorLoopDistinct(detector: string, descriptors: seq<string>, matchers: seq<string>)
    requires Distinct(descriptors) && Distinct(matchers)
    ensures Distinct(DescriptorLoop(detector, descriptors, matchers))
    decreases |descriptors|
  {
    if |descriptors| > 0 {
      DescriptorLoopDistinct(detector, descriptors[1..], matchers);
      MatcherLoopDistinct(detector, descriptors[0], matchers);
      assert descriptors[0] !in descriptors[1..];
      DistinctConcat(
        if !IsCombinationValid(detector, descriptors[0]) then [] else MatcherLoop(detector, descriptors[0], matchers),
        DescriptorLoop(detector, descriptors[1..], matchers));
    }
  }

  lemma {:induction false} DetectorLoopDistinct(detectors: seq<string>, descriptors: seq<string>, matchers: seq<string>)
    requires Distinct(detectors) && Distinct(descriptors) && Distinct(matchers)
    ensures Distinct(DetectorLoop(detectors, descriptors, matchers))
    decreases |detectors|
  {
    if |detectors| > 0 {
      DetectorLoopDistinct(detectors[1..], descriptors, matchers);
      DescriptorLoopDistinct(detectors[0], descriptors, matchers);
      assert detectors[0] !in detectors[1..];
      DistinctConcat(DescriptorLoop(detectors[0], descriptors, matchers), DetectorLoop(detectors[1..], descriptors, matchers));
    }
  }

  lemma {:induction false} MatcherLoopLength(detector: string, descriptor: string)
    ensures |MatcherLoop(detector, descriptor, Matchers)| == if IsBinaryDescriptor(descriptor) then 1 else 2
  {
    assert Matchers[1..] == ["FLANN"];
    assert Matchers[1..][1..] == [];
  }

  /** The number of matcher runs the middle loop makes per descriptor list. */
  function PairCount(descriptors: seq<string>): nat {
    if |descriptors| == 0 then 0
    else (if IsBinaryDescriptor(descriptors[0]) then 1 else 2) + PairCount(descriptors[1..])
  }

  lemma {:induction false} DescriptorLoopCount(detector: string, descriptors: seq<string>)
    requires IsCombinationValid(detector, "SIFT")
    ensures |DescriptorLoop(detector, descriptors, Matchers)| == PairCount(descriptors)
    decreases |descriptors|
  {
    if |descriptors| > 0 {
      DescriptorLoopCount(detector, descriptors[1..]);
      MatcherLoopLength(detector, descriptors[0]);
    }
  }

  /** A valid detector runs eight combinations: SIFT and SURF with both
      matchers, the four binary descriptors with BF only. */
  lemma {:induction false} DescriptorLoopLength(detector: string)
    requires IsCombinationValid(detector, "SIFT")
    ensures |DescriptorLoop(detector, Descriptors, Matchers)| == 8
  {
    DescriptorLoopCount(detector, Descriptors);
    assert PairCount(["BRISK"]) == 1;
    assert PairCount(["FREAK", "BRISK"]) == 2;
    assert PairCount(["BRIEF", "FREAK", "BRISK"]) == 3;
    assert PairCount(["ORB", "BRIEF", "FREAK", "BRISK"]) == 4;
    assert PairCount(["SURF", "ORB", "BRIEF", "FREAK", "BRISK"]) == 6;
  }

  lemma {:induction false} DetectorLoopCount(detectors: seq<string>)
    requires forall i :: 0 <= i < |detectors| ==> IsCombinationValid(detectors[i], "SIFT")
    ensures |DetectorLoop(detectors, Descriptors, Matchers)| == 8 * |detectors|
    decreases |detectors|
  {
    if |detectors| > 0 {
      DetectorLoopCount(detectors[1..]);
      DescriptorLoopLength(detectors[0]);
    }
  }

  lemma GridLength()
    ensures |GridKeys()| == 40
  {
    DetectorLoopCount(Detectors);
  }

  /** The full grid: 40 distinct keys, exactly the valid combinations of the
      three name lists minus FLANN with a binary descriptor. */
  lemma GridShape()
    ensures |GridKeys()| == 40
    ensures Distinct(GridKeys())
    ensures forall k :: k in GridKeys() <==> Enumerated(k, Detectors, Descriptors, Matchers)
    ensures forall k :: k in GridKeys() ==> !(k.matcher == "FLANN" && IsBinaryDescriptor(k.descriptor))
  {
    GridLength();
    NameListsDistinct();
    DetectorLoopDistinct(Detectors, Descriptors, Matchers);
  }

  lemma NameListsDistinct()
    ensures Distinct(Detectors) && Distinct(Descriptors) && Distinct(Matchers)
  {
  }

  /** `isCombinationValid` rejects exactly the names that denote a
      description-only algorithm, and such a combination could only ever
      produce the zeroed record. */
  lemma ValidityMeansDetectorCanDetect(o: Oracles, k: Key, elapsedMs: nat)
    requires MatcherContract(o)
    ensures !IsCombinationValid(k.detector, k.descriptor) <==>
      CreateDescriptor(k.detector).Some? && !CanDetect(CreateDescriptor(k.detector).value)
    ensures !IsCombinationValid(k.detector, k.descriptor) ==>
      ProcessCombination(o, k.detector, k.descriptor, k.matcher, elapsedMs) == Zeroed
  {
    if !IsCombinationValid(k.detector, k.descriptor) {
      DescriptorOnlyDetectorIsZeroed(o, k.detector, k.descriptor, k.matcher, elapsedMs);
    }
  }

  function Process(o: Oracles, elapsed: Key -> nat, k: Key): MatchResult
    requires MatcherContract(o)
  {
    ProcessCombination(o, k.detector, k.descriptor, k.matcher, elapsed(k))
  }

  /** `results[key] = processCombination(..)` for each key in turn. */
  function RecordAll(o: Oracles, elapsed: Key -> nat, keys: seq<Key>, acc: map<Key, MatchResult>): (results: map<Key, MatchResult>)
    requires MatcherContract(o)
    ensures results.Keys == acc.Keys + set k | k in keys
    ensures forall k :: k in keys ==> results[k] == Process(o, elapsed, k)
    ensures forall k :: k in acc && k !in keys ==> results[k] == acc[k]
    decreases |keys|
  {
    if |keys| == 0 then acc
    else RecordAll(o, elapsed, keys[1..], acc[keys[0] := Process(o, elapsed, keys[0])])
  }

  /** Processing every combination of the grid; `elapsed` supplies the time
      each run measures. */
  function RunGrid(o: Oracles, elapsed: Key -> nat): (results: map<Key, MatchResult>)
    requires MatcherContract(o)
    ensures |results| == 40
    ensures forall k :: k in results <==> Enumerated(k, Detectors, Descriptors, Matchers)
    ensures forall k :: k in results ==>
      !SkippedInGrid(k.descriptor, k.matcher) && results[k] == Process(o, elapsed, k)
  {
    var keys := GridKeys();
    assert Distinct(keys) && |keys| == 40 && forall k :: k in keys <==> Enumerated(k, Detectors, Descriptors, Matchers) by {
      GridShape();
    }
    RecordGridKeys(o, elapsed, keys);
    RecordAll(o, elapsed, keys, map[])
  }

  /** Recording any duplicate-free list holding exactly the 40 enumerated
      keys gives the grid's map. */
  lemma RecordGridKeys(o: Oracles, elapsed: Key -> nat, keys: seq<Key>)
    requires MatcherContract(o)
    requires Distinct(keys) && |keys| == 40
    requires forall k :: k in keys <==> Enumerated(k, Detectors, Descriptors, Matchers)
    ensures var r := RecordAll(o, elapsed, keys, map[]);
      && |r| == 40
      && (forall k :: k in r <==> Enumerated(k, Detectors, Descriptors, Matchers))
      && (forall k :: k in r ==> !SkippedInGrid(k.descriptor, k.matcher) && r[k] == Process(o, elapsed, k))
  {
    RecordAllDistinct(o, elapsed, keys);
  }

  lemma {:induction false} DistinctSetSize<T>(s: seq<T>)
    requires Distinct(s)
    ensures |set x | x in s| == |s|
    decreases |s|
  {
    if |s| > 0 {
      DistinctSetSize(s[1..]);
      assert (set x | x in s) == (set x | x in s[1..]) + {s[0]};
      assert s[0] !in s[1..];
    }
  }

  /** Recording a list of distinct keys into an empty map gives one entry
      per key, each holding that key's own record. */
  lemma RecordAllDistinct(o: Oracles, elapsed: Key -> nat, keys: seq<Key>)
    requires MatcherContract(o)
    requires Distinct(keys)
    ensures |RecordAll(o, elapsed, keys, map[])| == |keys|
    ensures forall k :: k in RecordAll(o, elapsed, keys, map[]) <==> k in keys
  {
    DistinctSetSize(keys);
    assert RecordAll(o, elapsed, keys, map[]).Keys == set k | k in keys;
  }

  /** The single-combination run selected by command-line names: an invalid
      pair ends the program (None); otherwise the map holds one entry. */
  function RunSingle(o: Oracles, k: Key, elapsedMs: nat): (r: Option<map<Key, MatchResult>>)
    requires MatcherContract(o)
    ensures r.None? <==> k.detector == "BRIEF" || k.detector == "FREAK"
    ensures r.Some? ==> r.value.Keys == {k} && r.value[k].numGoodMatches <= r.value[k].numMatches
    ensures r.Some? ==> r.value[k] == ProcessCombination(o, k.detector, k.descriptor, k.matcher, elapsedMs)
  {
    if !IsCombinationValid(k.detector, k.descriptor) then None
    else Some(map[k := ProcessCombination(o, k.detector, k.descriptor, k.matcher, elapsedMs)])
  }

  /** A single run of a combination the grid also reaches records the same
      entry the grid records for it, given the same elapsed time. */
  lemma RunSingleAgreesWithGrid(o: Oracles, elapsed: Key -> nat, k: Key)
    requires MatcherContract(o)
    requires Enumerated(k, Detectors, Descriptors, Matchers)
    ensures k in RunGrid(o, elapsed)
    ensures RunSingle(o, k, elapsed(k)) == Some(map[k := RunGrid(o, elapsed)[k]])
  {
  }

  // ----- Ranking over the std::map iteration order -----

  /** The std::tuple order on keys: lexicographic over the three names. */
  predicate KeyLess(a: Key, b: Key) {
    || StrLess(a.detector, b.detector)
    || (a.detector == b.detector && StrLess(a.descriptor, b.descriptor))
    || (a.detector == b.detector && a.descriptor == b.descriptor && StrLess(a.matcher, b.matcher))
  }

  lemma KeyLessIrreflexive(a: Key)
    ensures !KeyLess(a, a)
  {
    StrLessIrreflexive(a.detector);
    StrLessIrreflexive(a.descriptor);
    StrLessIrreflexive(a.matcher);
  }

  lemma KeyLessTransitive(a: Key, b: Key, c: Key)
    requires KeyLess(a, b) && KeyLess(b, c)
    ensures KeyLess(a, c)
  {
    if StrLess(a.detector, b.detector) && StrLess(b.detector, c.detector) {
      StrLessTransitive(a.detector, b.detector, c.detector);
    } else if a.detector == b.detector && b.detector == c.detector {
      if StrLess(a.descriptor, b.descriptor) && StrLess(b.descriptor, c.descriptor) {
        StrLessTransitive(a.descriptor, b.descriptor, c.descriptor);
      } else if a.descriptor == b.descriptor && b.descriptor == c.descriptor {
        StrLessTransitive(a.matcher, b.matcher, c.matcher);
      }
    }
  }

  lemma KeyLessTotal(a: Key, b: Key)
    ensures a == b || KeyLess(a, b) || KeyLess(b, a)
  {
    StrLessTotal(a.detector, b.detector);
    StrLessTotal(a.descriptor, b.descriptor);
    StrLessTotal(a.matcher, b.matcher);
  }

  /** `k` is in `s` and no key of `s` comes before it. */
  predicate IsLeast(k: Key, s: set<Key>) {
    k in s && forall j :: j in s ==> !KeyLess(j, k)
  }

  /** A key below the least key of a set is the least key of the set with it added. */
  lemma BelowLeastIsLeast(t: set<Key>, x: Key, m: Key)
    requires IsLeast(m, t) && KeyLess(x, m)
    ensures IsLeast(x, t + {x})
  {
    forall j | j in t + {x}
      ensures !KeyLess(j, x)
    {
      if j == x {
        KeyLessIrreflexive(x);
      } else if KeyLess(j, x) {
        KeyLessTransitive(j, x, m);
      }
    }
  }

  /** Every finite non-empty set of keys has a least element. */
  lemma {:induction false} LeastKeyExists(s: set<Key>)
    requires s != {}
    ensures exists k :: IsLeast(k, s)
    decreases |s|
  {
    var x :| x in s;
    if s == {x} {
      KeyLessIrreflexive(x);
      assert IsLeast(x, s);
    } else {
      var t := s - {x};
      LeastKeyExists(t);
      var m :| IsLeast(m, t);
      assert s == t + {x};
      if KeyLess(x, m) {
        BelowLeastIsLeast(t, x, m);
      } else {
        assert IsLeast(m, s);
      }
    }
  }

  ghost function LeastKey(s: set<Key>): (k: Key)
    requires s != {}
    ensures k in s && forall j :: j in s ==> !KeyLess(j, k)
  {
    LeastKeyExists(s);
    var k :| IsLeast(k, s);
    k
  }

  lemma LeastKeyBelowOthers(s: set<Key>)
    requires s != {}
    ensures forall j :: j in s && j != LeastKey(s) ==> KeyLess(LeastKey(s), j)
  {
    forall j | j in s && j != LeastKey(s)
      ensures KeyLess(LeastKey(s), j)
    {
      KeyLessTotal(j, LeastKey(s));
    }
  }

  ghost predicate StrictlySorted(ks: seq<Key>) {
    forall i, j :: 0 <= i < j < |ks| ==> KeyLess(ks[i], ks[j])
  }

  /** The order in which a std::map with these keys is traversed. */
  ghost function InKeyOrder(s: set<Key>): (ks: seq<Key>)
    ensures forall k :: k in ks <==> k in s
    ensures StrictlySorted(ks)
    decreases |s|
  {
    if s == {} then []
    else
      var k := LeastKey(s);
      LeastKeyBelowOthers(s);
      [k] + InKeyOrder(s - {k})
  }

  /** `std::max_element` with `<`: the first position holding the largest value. */
  function MaxElementIndex(xs: seq<int>): (i: nat)
    requires |xs| > 0
    ensures i < |xs|
    ensures forall j :: 0 <= j < |xs| ==> xs[j] <= xs[i]
    ensures forall j :: 0 <= j < i ==> xs[j] < xs[i]
    decreases |xs|
  {
    if |xs| == 1 then 0
    else
      var best := MaxElementIndex(xs[..|xs| - 1]);
      if xs[best] < xs[|xs| - 1] then |xs| - 1 else best
  }

  /** `std::min_element` with `<`: the first position holding the smallest value. */
  function MinElementIndex(xs: seq<int>): (i: nat)
    requires |xs| > 0
    ensures i < |xs|
    ensures forall j :: 0 <= j < |xs| ==> xs[i] <= xs[j]
    ensures forall j :: 0 <= j < i ==> xs[i] < xs[j]
    decreases |xs|
  {
    if |xs| == 1 then 0
    else
      var best := MinElementIndex(xs[..|xs| - 1]);
      if xs[|xs| - 1] < xs[best] then |xs| - 1 else best
  }

  /** The combination reported as best: `max_element` by good-match count
      over the map's iteration order; None stands for `results.end()`. */
  ghost function BestMatch(results: map<Key, MatchResult>): (r: Option<Key>)
    ensures r.Some? <==> results != map[]
    ensures r.Some? ==> r.value in results
  {
    var ks := InKeyOrder(results.Keys);
    if |ks| == 0 then None
    else Some(ks[MaxElementIndex(seq(|ks|, i requires 0 <= i < |ks| => results[ks[i]].numGoodMatches))])
  }

  /** The combination reported as fastest: `min_element` by processing time. */
  ghost function FastestMatch(results: map<Key, MatchResult>): (r: Option<Key>)
    ensures r.Some? <==> results != map[]
    ensures r.Some? ==> r.value in results
  {
    var ks := InKeyOrder(results.Keys);
    if |ks| == 0 then None
    else Some(ks[MinElementIndex(seq(|ks|, i requires 0 <= i < |ks| => results[ks[i]].processingTime))])
  }

  /** Over keys in increasing order, the first maximum of the scores beats
      every later position only by the key order and every earlier one strictly. */
  lemma FirstMaxAmongSorted(ks: seq<Key>, xs: seq<int>, p: nat)
    requires StrictlySorted(ks) && |xs| == |ks| && p < |ks|
    ensures var i := MaxElementIndex(xs);
      xs[p] <= xs[i] && (xs[p] == xs[i] ==> p == i || KeyLess(ks[i], ks[p]))
  {
  }

  /** The same for the first minimum. */
  lemma FirstMinAmongSorted(ks: seq<Key>, xs: seq<int>, p: nat)
    requires StrictlySorted(ks) && |xs| == |ks| && p < |ks|
    ensures var i := MinElementIndex(xs);
      xs[i] <= xs[p] && (xs[p] == xs[i] ==> p == i || KeyLess(ks[i], ks[p]))
  {
  }

  /** The best entry has the most good matches, and among entries with that
      many it has the lexicographically least key. */
  lemma BestMatchIsFirstMaximum(results: map<Key, MatchResult>)
    ensures BestMatch(results).None? <==> results == map[]
    ensures BestMatch(results).Some? ==>
      var b := BestMatch(results).value;
      && b in results
      && (forall k :: k in results ==> results[k].numGoodMatches <= results[b].numGoodMatches)
      && (forall k :: k in results && results[k].numGoodMatches == results[b].numGoodMatches ==> k == b || KeyLess(b, k))
  {
    var ks := InKeyOrder(results.Keys);
    if |ks| == 0 {
      assert results.Keys == {};
    } else {
      var xs := seq(|ks|, i requires 0 <= i < |ks| => results[ks[i]].numGoodMatches);
      var b := ks[MaxElementIndex(xs)];
      forall k | k in results
        ensures results[k].numGoodMatches <= results[b].numGoodMatches
        ensures results[k].numGoodMatches == results[b].numGoodMatches ==> k == b || KeyLess(b, k)
      {
        var p :| 0 <= p < |ks| && ks[p] == k;
        FirstMaxAmongSorted(ks, xs, p);
      }
    }
  }

  /** The fastest entry has the smallest processing time, and among entries
      with that time it has the lexicographically least key. */
  lemma FastestMatchIsFirstMinimum(results: map<Key, MatchResult>)
    ensures FastestMatch(results).None? <==> results == map[]
    ensures FastestMatch(results).Some? ==>
      var f := FastestMatch(results).value;
      && f in results
      && (forall k :: k in results ==> results[f].processingTime <= results[k].processingTime)
      && (forall k :: k in results && results[k].processingTime == results[f].processingTime ==> k == f || KeyLess(f, k))
  {
    var ks := InKeyOrder(results.Keys);
    if |ks| == 0 {
      assert results.Keys == {};
    } else {
      var xs := seq(|ks|, i requires 0 <= i < |ks| => results[ks[i]].processingTime);
      var f := ks[MinElementIndex(xs)];
      forall k | k in results
        ensures results[f].processingTime <= results[k].processingTime
        ensures results[k].processingTime == results[f].processingTime ==> k == f || KeyLess(f, k)
      {
        var p :| 0 <= p < |ks| && ks[p] == k;
        FirstMinAmongSorted(ks, xs, p);
      }
    }
  }
}
