/**
 The two percentile algorithms: nearest rank over a sorted list (bot.py, _percentile) and
 linear interpolation over any list (scripts/latency_report.py, percentile).
 Values are exact reals.
 */
module Percentiles {
  import opened Wrappers

  ghost predicate Ascending(s: seq<real>) {
    forall i, j | 0 <= i < j < |s| :: s[i] <= s[j]
  }

  // --- nearest rank ------------------------------------------------------------------

  function Ceil(x: real): int {
    -((-x).Floor)
  }

  /** The position that _percentile reads in a list of n values. */
  function RankIndex(n: nat, pct: real): (i: nat)
    requires n > 0
    ensures i < n
  {
    if pct <= 0.0 then 0
    else if pct >= 100.0 then n - 1
    else
      var rank := Ceil(pct / 100.0 * n as real) - 1;
      var clamped := if rank > n - 1 then n - 1 else rank;
      if clamped < 0 then 0 else clamped
  }

  /** _percentile on a list that is already sorted; 0 for an empty list. */
  function NearestRank(s: seq<real>, pct: real): real {
    if s == [] then 0.0 else s[RankIndex(|s|, pct)]
  }

  /** How many values are at or below x. */
  function AtMost(s: seq<real>, x: real): nat {
    if s == [] then 0 else AtMost(s[..|s| - 1], x) + (if s[|s| - 1] <= x then 1 else 0)
  }

  /** At least pct percent of the values are at or below x. */
  predicate Covers(s: seq<real>, pct: real, x: real) {
    AtMost(s, x) as real * 100.0 >= pct * |s| as real
  }

  lemma {:induction false} AtMostIsBounded(s: seq<real>, x: real)
    ensures AtMost(s, x) <= |s|
  {
    if s != [] { AtMostIsBounded(s[..|s| - 1], x); }
  }

  lemma {:induction false} AtMostOfSorted(s: seq<real>, x: real, k: nat)
    requires Ascending(s) && k < |s|
    ensures s[k] <= x ==> AtMost(s, x) >= k + 1
    ensures s[k] > x ==> AtMost(s, x) <= k
  {
    var n := |s| - 1;
    if k < n {
      AtMostOfSorted(s[..n], x, k);
    } else {
      AtMostIsBounded(s[..n], x);
      if n > 0 && s[n - 1] <= x { AtMostOfSorted(s[..n], x, n - 1); }
    }
  }

  /** The rank is the position whose predecessors fall short of the wanted share. */
  lemma RankIsExact(n: nat, pct: real)
    requires n > 0 && 0.0 < pct < 100.0
    ensures var i := RankIndex(n, pct); i as real * 100.0 < pct * n as real <= (i + 1) as real * 100.0
  {
    var y := pct / 100.0 * n as real;
    assert y * 100.0 == pct * n as real;
    assert 0.0 < y < n as real;
  }

  /** The nearest-rank percentile is the smallest element of the list that covers pct percent. */
  lemma NearestRankIsTheSmallestCover(s: seq<real>, pct: real)
    requires Ascending(s) && s != [] && 0.0 < pct <= 100.0
    ensures NearestRank(s, pct) in s && Covers(s, pct, NearestRank(s, pct))
    ensures forall k | 0 <= k < |s| && Covers(s, pct, s[k]) :: NearestRank(s, pct) <= s[k]
  {
    var n := |s|;
    var rank := RankIndex(n, pct);
    if pct < 100.0 { RankIsExact(n, pct); }
    AtMostOfSorted(s, s[rank], rank);
    forall k | 0 <= k < n && s[k] < s[rank] ensures !Covers(s, pct, s[k]) {
      AtMostOfSorted(s, s[k], rank);
    }
  }

  /** A higher percentage never gives a lower value. */
  lemma NearestRankIsMonotone(s: seq<real>, p: real, q: real)
    requires Ascending(s) && p <= q
    ensures NearestRank(s, p) <= NearestRank(s, q)
  {
    if s != [] && 0.0 < p && q < 100.0 {
      RankIsMonotone(|s|, p, q);
    }
  }

  lemma RankIsMonotone(n: nat, p: real, q: real)
    requires n > 0 && 0.0 < p <= q < 100.0
    ensures RankIndex(n, p) <= RankIndex(n, q)
  {
    ScaleIsMonotone(p, q, n);
    RanksInOrder(n, p, q, p * n as real, q * n as real);
  }

  lemma RanksInOrder(n: nat, p: real, q: real, x: real, y: real)
    requires n > 0 && 0.0 < p < 100.0 && 0.0 < q < 100.0
    requires x <= y && x == p * n as real && y == q * n as real
    ensures RankIndex(n, p) <= RankIndex(n, q)
  {
    RankIsExact(n, p);
    RankIsExact(n, q);
    HundredthsInOrder(RankIndex(n, p), RankIndex(n, q), x, y);
  }

  lemma ScaleIsMonotone(p: real, q: real, n: nat)
    requires p <= q
    ensures p * n as real <= q * n as real
  {
    assert (q - p) * n as real >= 0.0;
  }

  lemma HundredthsInOrder(i: nat, j: nat, x: real, y: real)
    requires i as real * 100.0 < x
    requires x <= y
    requires y <= (j + 1) as real * 100.0
    ensures i <= j
  {
  }

  // --- interpolation ----------------------------------------------------------------

  /** How often x occurs. */
  function Count(s: seq<real>, x: real): nat {
    if s == [] then 0 else Count(s[..|s| - 1], x) + (if s[|s| - 1] == x then 1 else 0)
  }

  ghost predicate Permutation(a: seq<real>, b: seq<real>) {
    forall x :: Count(a, x) == Count(b, x)
  }

  lemma {:induction false} CountsMembers(s: seq<real>, x: real)
    ensures Count(s, x) > 0 <==> x in s
  {
    if s != [] {
      var n := |s| - 1;
      CountsMembers(s[..n], x);
      assert s == s[..n] + [s[n]];
    }
  }

  function Insert(x: real, s: seq<real>): (r: seq<real>)
    requires Ascending(s)
    ensures Ascending(r) && |r| == |s| + 1
    ensures r[|s|] == x || (s != [] && r[|s|] == s[|s| - 1])
  {
    if s == [] || s[|s| - 1] <= x then s + [x] else Insert(x, s[..|s| - 1]) + [s[|s| - 1]]
  }

  /** sorted(values). */
  function Sorted(s: seq<real>): (r: seq<real>)
    ensures Ascending(r) && |r| == |s|
  {
    if s == [] then [] else Insert(s[|s| - 1], Sorted(s[..|s| - 1]))
  }

  lemma {:induction false} InsertCounts(x: real, s: seq<real>, y: real)
    requires Ascending(s)
    ensures Count(Insert(x, s), y) == Count(s, y) + (if x == y then 1 else 0)
  {
    var r := Insert(x, s);
    if s == [] || s[|s| - 1] <= x {
      assert r[..|s|] == s;
    } else {
      var n := |s| - 1;
      InsertCounts(x, s[..n], y);
      assert r[..|s|] == Insert(x, s[..n]);
    }
  }

  lemma {:induction false} SortedIsAPermutation(s: seq<real>, y: real)
    ensures Count(Sorted(s), y) == Count(s, y)
  {
    if s != [] {
      var n := |s| - 1;
      SortedIsAPermutation(s[..n], y);
      InsertCounts(s[n], Sorted(s[..n]), y);
    }
  }

  datatype Error = ValueError

  function At(s: seq<real>, rank: real): real
    requires s != [] && 0.0 <= rank <= (|s| - 1) as real
  {
    var lo := rank.Floor;
    var hi := if lo + 1 <= |s| - 1 then lo + 1 else |s| - 1;
    s[lo] + (s[hi] - s[lo]) * (rank - lo as real)
  }

  /** The position of percentage p on the scale from 0 to n - 1. */
  function Rank(p: real, n: nat): (r: real)
    requires n > 0 && 0.0 <= p <= 100.0
    ensures 0.0 <= r <= (n - 1) as real
  {
    p / 100.0 * (n - 1) as real
  }

  function Percentile(values: seq<real>, p: real): Result<real, Error> {
    if values == [] || !(0.0 <= p <= 100.0) then Failure(ValueError)
    else
      var s := Sorted(values);
      Success(if |s| == 1 then s[0] else At(s, Rank(p, |s|)))
  }

  lemma Between(a: real, b: real, f: real)
    requires a <= b && 0.0 <= f <= 1.0
    ensures a <= a + (b - a) * f <= b
  {
  }

  lemma AtStaysInStep(s: seq<real>, rank: real)
    requires Ascending(s) && s != [] && 0.0 <= rank <= (|s| - 1) as real
    ensures s[rank.Floor] <= At(s, rank)
    ensures At(s, rank) <= s[if rank.Floor + 1 <= |s| - 1 then rank.Floor + 1 else |s| - 1]
  {
    var lo := rank.Floor;
    var hi := if lo + 1 <= |s| - 1 then lo + 1 else |s| - 1;
    assert s[lo] <= s[hi];
    var f := rank - lo as real;
    Between(s[lo], s[hi], f);
    assert At(s, rank) == s[lo] + (s[hi] - s[lo]) * f;
  }

  lemma StepIsMonotone(a: real, b: real, f: real, g: real)
    requires a <= b && f <= g
    ensures a + (b - a) * f <= a + (b - a) * g
  {
  }

  lemma AtIsMonotone(s: seq<real>, x: real, y: real)
    requires Ascending(s) && s != [] && 0.0 <= x <= y <= (|s| - 1) as real
    ensures At(s, x) <= At(s, y)
  {
    var lo, lo' := x.Floor, y.Floor;
    var hi := if lo + 1 <= |s| - 1 then lo + 1 else |s| - 1;
    if lo == lo' {
      StepIsMonotone(s[lo], s[hi], x - lo as real, y - lo as real);
    } else {
      AtStaysInStep(s, x);
      AtStaysInStep(s, y);
      assert s[hi] <= s[lo'];
    }
  }

  /** A higher percentage never gives a lower value. */
  lemma PercentileIsMonotone(values: seq<real>, p: real, q: real)
    requires values != [] && 0.0 <= p <= q <= 100.0
    ensures Percentile(values, p).value <= Percentile(values, q).value
  {
    var s := Sorted(values);
    if |s| > 1 {
      StepIsMonotone(0.0, (|s| - 1) as real, p / 100.0, q / 100.0);
      AtIsMonotone(s, Rank(p, |s|), Rank(q, |s|));
    }
  }

  /** x is the least value, or the greatest. */
  ghost predicate IsMin(values: seq<real>, x: real) {
    x in values && forall k | 0 <= k < |values| :: x <= values[k]
  }

  ghost predicate IsMax(values: seq<real>, x: real) {
    x in values && forall k | 0 <= k < |values| :: values[k] <= x
  }

  lemma EndsOfSorted(values: seq<real>)
    requires values != []
    ensures IsMin(values, Sorted(values)[0]) && IsMax(values, Sorted(values)[|values| - 1])
  {
    var s := Sorted(values);
    SortedHasTheSameMembers(values, s[0]);
    SortedHasTheSameMembers(values, s[|s| - 1]);
    forall k | 0 <= k < |values| ensures s[0] <= values[k] <= s[|s| - 1] {
      SortedHasTheSameMembers(values, values[k]);
    }
  }

  lemma SortedHasTheSameMembers(values: seq<real>, x: real)
    ensures x in Sorted(values) <==> x in values
  {
    SortedIsAPermutation(values, x);
    CountsMembers(values, x);
    CountsMembers(Sorted(values), x);
  }

  /** p = 0 is the minimum and p = 100 the maximum; by monotonicity all lies between. */
  lemma PercentileEnds(values: seq<real>)
    requires values != []
    ensures IsMin(values, Percentile(values, 0.0).value)
    ensures IsMax(values, Percentile(values, 100.0).value)
  {
    EndsOfSorted(values);
    var s := Sorted(values);
    assert Rank(100.0, |s|) == (|s| - 1) as real;
    assert At(s, (|s| - 1) as real) == s[|s| - 1];
    assert At(s, 0.0) == s[0];
  }

  lemma {:induction false} SortedIsUnique(a: seq<real>, b: seq<real>)
    requires Ascending(a) && Ascending(b) && Permutation(a, b)
    ensures a == b
  {
    if a == [] {
      if b != [] { CountsMembers(b, b[0]); }
    } else {
      var n, m := |a| - 1, |b| - 1;
      CountsMembers(a, a[n]);
      CountsMembers(b, a[n]);
      CountsMembers(b, b[m]);
      CountsMembers(a, b[m]);
      assert a[n] == b[m];
      forall x ensures Count(a[..n], x) == Count(b[..m], x) { assert Count(a, x) == Count(b, x); }
      SortedIsUnique(a[..n], b[..m]);
      assert a == a[..n] + [a[n]] && b == b[..m] + [b[m]];
    }
  }

  /** The order of the values does not matter. */
  lemma PercentileIgnoresOrder(values: seq<real>, other: seq<real>, p: real)
    requires Permutation(values, other)
    ensures Percentile(values, p) == Percentile(other, p)
  {
    forall x ensures Count(Sorted(values), x) == Count(Sorted(other), x) {
      SortedIsAPermutation(values, x);
      SortedIsAPermutation(other, x);
      assert Count(values, x) == Count(other, x);
    }
    SortedIsUnique(Sorted(values), Sorted(other));
  }

  // --- between the ranks ----------------------------------------------------------------------

  lemma Share(x: real, d: real)
    requires 0.0 <= x <= d && d > 0.0
    ensures 0.0 <= 100.0 * x / d <= 100.0 && 100.0 * x / d / 100.0 * d == x
  {
    var q := x / d;
    Scaled(x, d, q);
    InUnit(q, d);
  }

  lemma Scaled(x: real, d: real, q: real)
    requires d > 0.0 && q == x / d
    ensures 100.0 * x / d == 100.0 * q && q * d == x
  {
  }

  lemma InUnit(q: real, d: real)
    requires d > 0.0 && 0.0 <= q * d <= d
    ensures 0.0 <= q <= 1.0
  {
  }

  lemma RankOf(n: nat, i: nat, f: real)
    requires n >= 2 && i < n - 1 && 0.0 <= f <= 1.0
    ensures var p := 100.0 * (i as real + f) / (n - 1) as real;
            0.0 <= p <= 100.0 && Rank(p, n) == i as real + f
  {
    Share(i as real + f, (n - 1) as real);
  }

  lemma AtIsLinear(s: seq<real>, i: nat, f: real)
    requires i + 1 < |s| && 0.0 <= f <= 1.0
    ensures At(s, i as real + f) == (1.0 - f) * s[i] + f * s[i + 1]
  {
    if f < 1.0 {
      assert (i as real + f).Floor == i;
    } else {
      var rank := (i + 1) as real;
      assert rank == i as real + f && rank.Floor == i + 1;
      assert rank - (i + 1) as real == 0.0;
    }
  }

  /** The percentile is linear between neighbouring ranks; s is the values in order. */
  lemma PercentileIsLinear(values: seq<real>, s: seq<real>, i: nat, f: real)
    requires Ascending(s) && Permutation(s, values) && i + 1 < |s| && 0.0 <= f <= 1.0
    ensures |s| == |values|
    ensures Percentile(values, 100.0 * (i as real + f) / (|values| - 1) as real)
            == Success((1.0 - f) * s[i] + f * s[i + 1])
  {
    SortedIsTheOrder(values, s);
    RankOf(|values|, i, f);
    AtIsLinear(s, i, f);
  }

  lemma SortedIsTheOrder(values: seq<real>, s: seq<real>)
    requires Ascending(s) && Permutation(s, values)
    ensures Sorted(values) == s && |s| == |values|
  {
    forall x ensures Count(s, x) == Count(Sorted(values), x) { SortedIsAPermutation(values, x); }
    SortedIsUnique(s, Sorted(values));
  }

  /** At a whole rank it is the value there. */
  lemma PercentileAtRank(values: seq<real>, s: seq<real>, i: nat)
    requires Ascending(s) && Permutation(s, values) && i < |s| && |s| >= 2
    ensures |s| == |values|
    ensures Percentile(values, 100.0 * i as real / (|values| - 1) as real) == Success(s[i])
  {
    if i + 1 < |s| {
      PercentileIsLinear(values, s, i, 0.0);
    } else {
      PercentileIsLinear(values, s, i - 1, 1.0);
      assert (i - 1) as real + 1.0 == i as real;
    }
  }

  /** The median of two values is their mean. */
  lemma MedianOfTwo(a: real, b: real)
    ensures Percentile([a, b], 50.0) == Success((a + b) / 2.0)
  {
    var values, s := [a, b], if a <= b then [a, b] else [b, a];
    assert values[..1] == [a] && s[..1] == [s[0]] && [a][..0] == [] && [s[0]][..0] == [];
    forall x ensures Count(s, x) == Count(values, x) {
      assert Count(values[..1], x) == (if a == x then 1 else 0);
      assert Count(s[..1], x) == (if s[0] == x then 1 else 0);
    }
    PercentileIsLinear(values, s, 0, 0.5);
  }
}
