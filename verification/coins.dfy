/**
 * The coin counter of monedas/main.cpp after circle detection: the
 * denomination table, nearest-diameter classification, the pixels-per-mm
 * calibration from the smallest and largest radius, and the per-denomination
 * count and total value.
 */
module Coins {

  /** One denomination: its value in crowns and its diameter in mm. */
  datatype CoinInfo = CoinInfo(value: int, diameterMm: real)

  /** The Czech crown coins the program recognises. */
  const CoinTypes: seq<CoinInfo> := [
    CoinInfo(1, 20.0), CoinInfo(2, 21.5), CoinInfo(5, 23.0),
    CoinInfo(10, 24.5), CoinInfo(20, 26.0)
  ]

  const CoinValues: set<int> := {1, 2, 5, 10, 20}

  function Abs(x: real): real {
    if x < 0.0 then -x else x
  }

  function Diff(d: real, c: CoinInfo): real {
    Abs(d - c.diameterMm)
  }

  /** Entry `k` is nearest to `d` and strictly nearer than every entry before
      it, so it is the one a left-to-right scan with a strict `<` keeps. */
  predicate IsFirstNearest(d: real, table: seq<CoinInfo>, k: int) {
    && 0 <= k < |table|
    && (forall j :: 0 <= j < |table| ==> Diff(d, table[k]) <= Diff(d, table[j]))
    && (forall j :: 0 <= j < k ==> Diff(d, table[k]) < Diff(d, table[j]))
  }

  /** The entry the scan of `classifyCoin` ends on. */
  function NearestIndex(d: real, table: seq<CoinInfo>): (k: nat)
    requires |table| > 0
    ensures IsFirstNearest(d, table, k)
  {
    if |table| == 1 then 0
    else
      var i := NearestIndex(d, table[..|table| - 1]);
      if Diff(d, table[|table| - 1]) < Diff(d, table[i]) then |table| - 1 else i
  }

  /** At most one entry is the first nearest one. */
  lemma FirstNearestUnique(d: real, table: seq<CoinInfo>, k1: int, k2: int)
    requires IsFirstNearest(d, table, k1) && IsFirstNearest(d, table, k2)
    ensures k1 == k2
  {
    assert Diff(d, table[k1]) == Diff(d, table[k2]);
  }

  /** `classifyCoin`: 0 for an empty table, otherwise the value of the first
      entry whose diameter is nearest. */
  function ClassifyCoin(d: real, table: seq<CoinInfo>): (v: int)
    ensures |table| == 0 ==> v == 0
    ensures |table| > 0 ==> exists k :: IsFirstNearest(d, table, k) && v == table[k].value
  {
    if |table| == 0 then 0 else table[NearestIndex(d, table)].value
  }

  /** Classification is the value of the unique first-nearest entry. */
  lemma ClassifyCoinIsFirstNearest(d: real, table: seq<CoinInfo>, k: int)
    requires IsFirstNearest(d, table, k)
    ensures ClassifyCoin(d, table) == table[k].value
  {
    FirstNearestUnique(d, table, k, NearestIndex(d, table));
  }

  /** On the crown table the boundaries are the midpoints between adjacent
      diameters, and a diameter exactly on a midpoint goes to the smaller coin. */
  function TableIndex(d: real): nat {
    if d <= 20.75 then 0
    else if d <= 22.25 then 1
    else if d <= 23.75 then 2
    else if d <= 25.25 then 3
    else 4
  }

  lemma TableIndexIsFirstNearest(d: real)
    ensures IsFirstNearest(d, CoinTypes, TableIndex(d))
  {
    var k := TableIndex(d);
    forall j | 0 <= j < |CoinTypes|
      ensures Diff(d, CoinTypes[k]) <= Diff(d, CoinTypes[j])
      ensures j < k ==> Diff(d, CoinTypes[k]) < Diff(d, CoinTypes[j])
    {
    }
  }

  lemma ClassifyCoinTable(d: real)
    ensures ClassifyCoin(d, CoinTypes) == [1, 2, 5, 10, 20][TableIndex(d)]
  {
    TableIndexIsFirstNearest(d);
    ClassifyCoinIsFirstNearest(d, CoinTypes, TableIndex(d));
  }

  /** Anything no larger than the 1 Kč coin is a 1 Kč coin, anything no
      smaller than the 20 Kč coin is a 20 Kč coin. */
  lemma ClassifyCoinExtremes(d: real)
    ensures d <= 20.0 ==> ClassifyCoin(d, CoinTypes) == 1
    ensures d >= 26.0 ==> ClassifyCoin(d, CoinTypes) == 20
  {
    ClassifyCoinTable(d);
  }

  /** A larger diameter never classifies as a smaller denomination. */
  lemma ClassifyCoinMonotone(d1: real, d2: real)
    requires d1 <= d2
    ensures ClassifyCoin(d1, CoinTypes) <= ClassifyCoin(d2, CoinTypes)
  {
    ClassifyCoinTable(d1);
    ClassifyCoinTable(d2);
  }

  lemma ClassifyCoinInTable(d: real)
    ensures ClassifyCoin(d, CoinTypes) in CoinValues
  {
    ClassifyCoinTable(d);
  }

  /** A detected circle: centre and radius in pixels as detected, and the
      radius rounded to whole pixels as used for classification. */
  datatype Circle = Circle(centerX: real, centerY: real, radius: real, roundedRadius: int)

  predicate SortedByRadius(cs: seq<Circle>) {
    forall i, j :: 0 <= i < j < |cs| ==> cs[i].radius <= cs[j].radius
  }

  function Insert(c: Circle, s: seq<Circle>): (r: seq<Circle>)
    requires SortedByRadius(s)
    ensures SortedByRadius(r)
    ensures multiset(r) == multiset(s) + multiset{c}
    ensures |r| == |s| + 1 && (r[0] == c || (|s| > 0 && r[0] == s[0]))
  {
    if |s| == 0 || c.radius <= s[0].radius then [c] + s
    else
      var rest := Insert(c, s[1..]);
      assert s == [s[0]] + s[1..];
      PrependSorted(s[0], rest);
      [s[0]] + rest
  }

  lemma PrependSorted(x: Circle, s: seq<Circle>)
    requires SortedByRadius(s)
    requires |s| > 0 ==> x.radius <= s[0].radius
    ensures SortedByRadius([x] + s)
  {
    forall i, j | 0 <= i < j < |[x] + s|
      ensures ([x] + s)[i].radius <= ([x] + s)[j].radius
    {
      if i == 0 && j > 1 {
        assert s[0].radius <= s[j - 1].radius;
      }
    }
  }

  /** The ascending sort by radius (`std::sort` with `a[2] < b[2]`). */
  function SortByRadius(cs: seq<Circle>): (r: seq<Circle>)
    ensures SortedByRadius(r)
    ensures multiset(r) == multiset(cs)
  {
    if |cs| == 0 then []
    else
      assert cs == [cs[0]] + cs[1..];
      Insert(cs[0], SortByRadius(cs[1..]))
  }

  function MinRadius(cs: seq<Circle>): (m: real)
    requires |cs| > 0
    ensures forall i :: 0 <= i < |cs| ==> m <= cs[i].radius
    ensures exists i :: 0 <= i < |cs| && cs[i].radius == m
  {
    if |cs| == 1 then cs[0].radius
    else
      var m := MinRadius(cs[1..]);
      assert forall i :: 1 <= i < |cs| ==> cs[i] == cs[1..][i - 1];
      if cs[0].radius <= m then cs[0].radius else m
  }

  function MaxRadius(cs: seq<Circle>): (m: real)
    requires |cs| > 0
    ensures forall i :: 0 <= i < |cs| ==> cs[i].radius <= m
    ensures exists i :: 0 <= i < |cs| && cs[i].radius == m
  {
    if |cs| == 1 then cs[0].radius
    else
      var m := MaxRadius(cs[1..]);
      assert forall i :: 1 <= i < |cs| ==> cs[i] == cs[1..][i - 1];
      if cs[0].radius >= m then cs[0].radius else m
  }

  /** Pixels per millimetre: 1 with no circles, otherwise the mean of the
      scales implied by taking the first circle as a 1 Kč coin (20 mm) and
      the last as a 20 Kč coin (26 mm). */
  function Calibrate(sorted: seq<Circle>): (pxPerMm: real)
    ensures |sorted| == 0 ==> pxPerMm == 1.0
    ensures (forall i :: 0 <= i < |sorted| ==> sorted[i].radius > 0.0) ==> pxPerMm > 0.0
    ensures |sorted| > 0 && SortedByRadius(sorted) ==>
      pxPerMm == (2.0 * MinRadius(sorted) / 20.0 + 2.0 * MaxRadius(sorted) / 26.0) / 2.0
  {
    if |sorted| == 0 then 1.0
    else
      SortedEndsAreExtremes(sorted);
      (2.0 * sorted[0].radius / 20.0 + 2.0 * sorted[|sorted| - 1].radius / 26.0) / 2.0
  }

  /** In a radius-sorted list the front carries the least radius and the
      back the greatest. */
  lemma SortedEndsAreExtremes(sorted: seq<Circle>)
    ensures |sorted| > 0 && SortedByRadius(sorted) ==>
      sorted[0].radius == MinRadius(sorted) && sorted[|sorted| - 1].radius == MaxRadius(sorted)
  {
    if |sorted| > 0 && SortedByRadius(sorted) {
      SortedFrontIsMin(sorted, sorted);
      SortedBackIsMax(sorted, sorted);
    }
  }

  /** The first circle of a radius-sorted permutation has the smallest radius. */
  lemma SortedFrontIsMin(cs: seq<Circle>, sorted: seq<Circle>)
    requires |cs| > 0
    requires SortedByRadius(sorted) && multiset(sorted) == multiset(cs)
    ensures |sorted| == |cs| && sorted[0].radius == MinRadius(cs)
  {
    assert |sorted| == |multiset(cs)| == |cs|;
    assert sorted[0] in multiset(cs);
    var lo :| 0 <= lo < |cs| && cs[lo].radius == MinRadius(cs);
    assert cs[lo] in multiset(sorted);
    var i :| 0 <= i < |sorted| && sorted[i] == cs[lo];
  }

  /** The last circle of a radius-sorted permutation has the largest radius. */
  lemma SortedBackIsMax(cs: seq<Circle>, sorted: seq<Circle>)
    requires |cs| > 0
    requires SortedByRadius(sorted) && multiset(sorted) == multiset(cs)
    ensures |sorted| == |cs| && sorted[|sorted| - 1].radius == MaxRadius(cs)
  {
    assert |sorted| == |multiset(cs)| == |cs|;
    assert sorted[|sorted| - 1] in multiset(cs);
    var hi :| 0 <= hi < |cs| && cs[hi].radius == MaxRadius(cs);
    assert cs[hi] in multiset(sorted);
    var j :| 0 <= j < |sorted| && sorted[j] == cs[hi];
  }

  /** Whatever order a sort leaves equal radii in, the calibration uses the
      smallest and largest radius of the detected circles. */
  lemma CalibrationUsesExtremeRadii(cs: seq<Circle>, sorted: seq<Circle>)
    requires |cs| > 0
    requires SortedByRadius(sorted) && multiset(sorted) == multiset(cs)
    ensures Calibrate(sorted) == (2.0 * MinRadius(cs) / 20.0 + 2.0 * MaxRadius(cs) / 26.0) / 2.0
  {
    SortedFrontIsMin(cs, sorted);
    SortedBackIsMax(cs, sorted);
  }

  /** With positive radii the scale is positive, so the division by it in
      the classification loop is defined. */
  lemma CalibrationPositive(sorted: seq<Circle>)
    requires forall i :: 0 <= i < |sorted| ==> sorted[i].radius > 0.0
    ensures Calibrate(sorted) > 0.0
  {
  }

  function Diameter(c: Circle, pxPerMm: real): real
    requires pxPerMm != 0.0
  {
    (2 * c.roundedRadius) as real / pxPerMm
  }

  /** The denomination of each circle, in order. */
  function Classified(cs: seq<Circle>, pxPerMm: real): (vs: seq<int>)
    requires pxPerMm != 0.0
    ensures |vs| == |cs|
  {
    if |cs| == 0 then []
    else [ClassifyCoin(Diameter(cs[0], pxPerMm), CoinTypes)] + Classified(cs[1..], pxPerMm)
  }

  /** Each entry is the classification of the circle at the same position. */
  lemma {:induction false} ClassifiedAt(cs: seq<Circle>, pxPerMm: real, i: int)
    requires pxPerMm != 0.0
    requires 0 <= i < |cs|
    ensures Classified(cs, pxPerMm)[i] == ClassifyCoin(Diameter(cs[i], pxPerMm), CoinTypes)
    decreases i
  {
    if i > 0 {
      ClassifiedAt(cs[1..], pxPerMm, i - 1);
    }
  }

  lemma {:induction false} ClassifiedConcat(a: seq<Circle>, b: seq<Circle>, pxPerMm: real)
    requires pxPerMm != 0.0
    ensures Classified(a + b, pxPerMm) == Classified(a, pxPerMm) + Classified(b, pxPerMm)
    decreases |a|
  {
    if |a| == 0 {
      assert a + b == b;
    } else {
      assert (a + b)[0] == a[0] && (a + b)[1..] == a[1..] + b;
      ClassifiedConcat(a[1..], b, pxPerMm);
    }
  }

  /** Taking the same circle out of two permutations of each other leaves
      permutations of each other. */
  lemma RemoveMatching(s: seq<Circle>, t: seq<Circle>, j: int)
    requires multiset(s) == multiset(t)
    requires |s| > 0 && 0 <= j < |t| && t[j] == s[0]
    ensures multiset(s[1..]) == multiset(t[..j] + t[j + 1..])
  {
    var x := s[0];
    var rest := t[..j] + t[j + 1..];
    assert t == t[..j] + [x] + t[j + 1..];
    assert s == [x] + s[1..];
    forall y
      ensures multiset(s[1..])[y] == multiset(rest)[y]
    {
      assert multiset(s)[y] == multiset{x}[y] + multiset(s[1..])[y];
      assert multiset(t)[y] == multiset(t[..j])[y] + multiset{x}[y] + multiset(t[j + 1..])[y];
    }
  }

  /** Classifying a list splits around any one circle. */
  lemma ClassifiedSplit(t: seq<Circle>, j: int, pxPerMm: real)
    requires pxPerMm != 0.0
    requires 0 <= j < |t|
    ensures multiset(Classified(t, pxPerMm))
      == multiset(Classified(t[..j] + t[j + 1..], pxPerMm)) + multiset{ClassifyCoin(Diameter(t[j], pxPerMm), CoinTypes)}
  {
    assert t == t[..j] + [t[j]] + t[j + 1..];
    ClassifiedConcat(t[..j] + [t[j]], t[j + 1..], pxPerMm);
    ClassifiedConcat(t[..j], [t[j]], pxPerMm);
    ClassifiedConcat(t[..j], t[j + 1..], pxPerMm);
  }

  /** Classifying a permutation of the circles gives a permutation of the
      denominations, so the tally does not depend on the sort's order. */
  lemma {:induction false} ClassifiedPermutation(s: seq<Circle>, t: seq<Circle>, pxPerMm: real)
    requires pxPerMm != 0.0
    requires multiset(s) == multiset(t)
    ensures multiset(Classified(s, pxPerMm)) == multiset(Classified(t, pxPerMm))
    decreases |s|
  {
    if |s| > 0 {
      assert s[0] in multiset(t);
      var j :| 0 <= j < |t| && t[j] == s[0];
      RemoveMatching(s, t, j);
      ClassifiedPermutation(s[1..], t[..j] + t[j + 1..], pxPerMm);
      ClassifiedSplit(t, j, pxPerMm);
      assert Classified(s, pxPerMm) == [ClassifyCoin(Diameter(s[0], pxPerMm), CoinTypes)] + Classified(s[1..], pxPerMm);
    } else {
      assert |t| == |multiset(t)| == 0;
    }
  }

  /** A key chosen from a non-empty map. */
  ghost function Pick(m: map<int, int>): int
    requires m != map[]
    ensures Pick(m) in m
  {
    assert exists k :: k in m by {
      if forall k :: k !in m {
      }
    }
    var k :| k in m; k
  }

  /** Σ w(k)·m[k] over the keys of `m`. */
  ghost function SumBy(m: map<int, int>, w: int -> int): int
    decreases m.Keys
  {
    if m == map[] then 0
    else
      var k := Pick(m);
      w(k) * m[k] + SumBy(m - {k}, w)
  }

  function Unit(k: int): int {
    1
  }

  function Id(k: int): int {
    k
  }

  /** The number of coins a count map records. */
  ghost function CountSum(m: map<int, int>): int {
    SumBy(m, Unit)
  }

  /** The value in crowns a count map records. */
  ghost function ValueSum(m: map<int, int>): int {
    SumBy(m, Id)
  }

  lemma {:induction false} SumByRemove(m: map<int, int>, w: int -> int, k: int)
    requires k in m
    ensures SumBy(m, w) == w(k) * m[k] + SumBy(m - {k}, w)
    decreases m.Keys
  {
    var j := Pick(m);
    if j != k {
      SumByRemove(m - {j}, w, k);
      SumByRemove(m - {k}, w, j);
      assert m - {j} - {k} == m - {k} - {j};
    }
  }

  /** `coin_counts[value]++`. */
  function Increment(m: map<int, int>, v: int): (r: map<int, int>)
    ensures r.Keys == m.Keys + {v}
    ensures r[v] == (if v in m then m[v] else 0) + 1
    ensures forall k :: k in m && k != v ==> r[k] == m[k]
  {
    m[v := if v in m then m[v] + 1 else 1]
  }

  lemma Distribute(a: int, c: int)
    ensures a * (c + 1) == a * c + a
  {
  }

  lemma IncrementSum(m: map<int, int>, w: int -> int, v: int)
    ensures SumBy(Increment(m, v), w) == SumBy(m, w) + w(v)
  {
    var m' := Increment(m, v);
    var c := if v in m then m[v] else 0;
    SumByRemove(m', w, v);
    assert m' - {v} == m - {v};
    if v in m {
      SumByRemove(m, w, v);
    } else {
      assert m - {v} == m;
    }
    Distribute(w(v), c);
  }

  /** The sum of a sequence of values. */
  function SeqSum(vs: seq<int>): int {
    if |vs| == 0 then 0 else SeqSum(vs[..|vs| - 1]) + vs[|vs| - 1]
  }

  lemma SeqSumAppend(vs: seq<int>, x: int)
    ensures SeqSum(vs + [x]) == SeqSum(vs) + x
  {
    assert (vs + [x])[..|vs|] == vs;
  }

  lemma {:induction false} SeqSumSplit(vs: seq<int>, j: int)
    requires 0 <= j < |vs|
    ensures SeqSum(vs) == SeqSum(vs[..j] + vs[j + 1..]) + vs[j]
    decreases |vs|
  {
    var n := |vs|;
    if j < n - 1 {
      SeqSumSplit(vs[..n - 1], j);
      assert vs[..n - 1][..j] == vs[..j];
      assert vs[..n - 1][j + 1..] == vs[j + 1..n - 1];
      var rest := vs[..j] + vs[j + 1..];
      assert rest[..|rest| - 1] == vs[..j] + vs[j + 1..n - 1];
      assert rest[|rest| - 1] == vs[n - 1];
    } else {
      assert vs[..j] + vs[j + 1..] == vs[..n - 1];
    }
  }

  /** Reordering values does not change their sum. */
  lemma {:induction false} SeqSumPermutation(a: seq<int>, b: seq<int>)
    requires multiset(a) == multiset(b)
    ensures SeqSum(a) == SeqSum(b)
    decreases |a|
  {
    if |a| == 0 {
      assert |b| == |multiset(b)| == 0;
    } else {
      var x := a[|a| - 1];
      assert x in multiset(b);
      var j :| 0 <= j < |b| && b[j] == x;
      var rest := b[..j] + b[j + 1..];
      assert b == b[..j] + [x] + b[j + 1..];
      assert a == a[..|a| - 1] + [x];
      assert multiset(a[..|a| - 1]) == multiset(rest) by {
        forall y
          ensures multiset(a[..|a| - 1])[y] == multiset(rest)[y]
        {
          assert multiset(a)[y] == multiset(a[..|a| - 1])[y] + multiset{x}[y];
          assert multiset(b)[y] == multiset(b[..j])[y] + multiset{x}[y] + multiset(b[j + 1..])[y];
        }
      }
      SeqSumPermutation(a[..|a| - 1], rest);
      SeqSumSplit(b, j);
    }
  }

  /** `counts` holds exactly the values of `vs`, each with its multiplicity. */
  ghost predicate CountsMatch(counts: map<int, int>, vs: seq<int>) {
    && (forall v :: v in counts <==> v in multiset(vs))
    && (forall v :: v in counts ==> counts[v] == multiset(vs)[v])
  }

  /** Counts of some values are counts of any reordering of them: every
      value at a position is a key, and each key is counted by its positive
      multiplicity. */
  lemma CountsOfReordering(counts: map<int, int>, vs: seq<int>, ws: seq<int>)
    requires CountsMatch(counts, vs)
    requires multiset(vs) == multiset(ws)
    ensures forall i :: 0 <= i < |ws| ==> ws[i] in counts
    ensures forall v :: v in counts ==> 0 < counts[v] == multiset(ws)[v]
  {
    forall i | 0 <= i < |ws|
      ensures ws[i] in counts
    {
      var v := ws[i];
      assert v in multiset(ws);
      assert v in counts <==> v in multiset(vs);
    }
  }

  lemma IncrementMatches(counts: map<int, int>, vs: seq<int>, v: int)
    requires CountsMatch(counts, vs)
    ensures CountsMatch(Increment(counts, v), vs + [v])
  {
    assert multiset(vs + [v]) == multiset(vs) + multiset{v};
  }

  /** What the accumulation loop maintains over the values seen so far. */
  ghost predicate Tallied(counts: map<int, int>, total: int, vs: seq<int>) {
    && CountsMatch(counts, vs)
    && CountSum(counts) == |vs|
    && total == ValueSum(counts)
    && total == SeqSum(vs)
  }

  /** One iteration of the loop keeps the tally in step with the values. */
  lemma TallyStep(counts: map<int, int>, total: int, vs: seq<int>, v: int)
    requires Tallied(counts, total, vs)
    ensures Tallied(Increment(counts, v), total + v, vs + [v])
  {
    IncrementMatches(counts, vs, v);
    IncrementSum(counts, Unit, v);
    IncrementSum(counts, Id, v);
    SeqSumAppend(vs, v);
  }

  /** The accumulation loop: `coin_counts[value]++` and `total_value +=
      value` for each classified circle in turn. */
  method Tally(values: seq<int>) returns (counts: map<int, int>, total: int)
    ensures CountsMatch(counts, values)
    ensures CountSum(counts) == |values|
    ensures total == ValueSum(counts)
    ensures total == SeqSum(values)
  {
    counts := map[];
    total := 0;
    var i := 0;
    while i < |values|
      invariant 0 <= i <= |values|
      invariant Tallied(counts, total, values[..i])
    {
      var value := values[i];
      assert values[..i + 1] == values[..i] + [value];
      TallyStep(counts, total, values[..i], value);
      counts := Increment(counts, value);
      total := total + value;
      i := i + 1;
    }
    assert values[..i] == values;
  }

  /** The calibration and tally steps on the detected circles: sort,
      calibrate, then classify each circle in sorted order and tally the values. */
  method CountCoins(circles: seq<Circle>) returns (pxPerMm: real, counts: map<int, int>, total: int)
    requires forall i :: 0 <= i < |circles| ==> circles[i].radius > 0.0
    ensures pxPerMm > 0.0
    ensures |circles| > 0 ==> pxPerMm == (2.0 * MinRadius(circles) / 20.0 + 2.0 * MaxRadius(circles) / 26.0) / 2.0
    ensures forall v :: v in counts ==> v in CoinValues
    ensures forall i :: 0 <= i < |circles| ==> Classified(circles, pxPerMm)[i] in counts
    ensures forall v :: v in counts ==> 0 < counts[v] == multiset(Classified(circles, pxPerMm))[v]
    ensures CountSum(counts) == |circles|
    ensures total == ValueSum(counts)
    ensures total == SeqSum(Classified(circles, pxPerMm))
  {
    var sorted := SortByRadius(circles);
    assert forall i :: 0 <= i < |sorted| ==> sorted[i] in multiset(circles);
    pxPerMm := Calibrate(sorted);
    CalibrationPositive(sorted);
    if |circles| > 0 {
      CalibrationUsesExtremeRadii(circles, sorted);
    }
    var values := Classified(sorted, pxPerMm);
    ClassifiedPermutation(sorted, circles, pxPerMm);
    SeqSumPermutation(values, Classified(circles, pxPerMm));
    counts, total := Tally(values);
    forall v | v in counts
      ensures v in CoinValues
    {
      var i :| 0 <= i < |values| && values[i] == v;
      ClassifiedAt(sorted, pxPerMm, i);
      ClassifyCoinInTable(Diameter(sorted[i], pxPerMm));
    }
    CountsOfReordering(counts, values, Classified(circles, pxPerMm));
  }
}
