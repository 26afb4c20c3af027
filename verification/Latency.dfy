/** Latency statistics over real samples: interpolated percentiles of the sorted samples, and their mean. */
module Latency {
  // ---------------------------------------------------------------- sorting

  function Insert(sorted: seq<real>, x: real): seq<real> {
    if sorted == [] || x < sorted[0] then [x] + sorted else [sorted[0]] + Insert(sorted[1..], x)
  }

  function Sorted(values: seq<real>): seq<real> {
    if values == [] then [] else Insert(Sorted(values[1..]), values[0])
  }

  ghost predicate Ascending(values: seq<real>) {
    forall i, j :: 0 <= i <= j < |values| ==> values[i] <= values[j]
  }

  lemma {:induction false} InsertKeeps(sorted: seq<real>, x: real)
    ensures multiset(Insert(sorted, x)) == multiset(sorted) + multiset{x}
  {
    if sorted != [] && x >= sorted[0] {
      InsertKeeps(sorted[1..], x);
      assert sorted == [sorted[0]] + sorted[1..];
    }
  }

  lemma {:induction false} InsertAscends(sorted: seq<real>, x: real)
    requires Ascending(sorted)
    ensures Ascending(Insert(sorted, x))
  {
    if sorted != [] && x >= sorted[0] {
      var rest := Insert(sorted[1..], x);
      InsertAscends(sorted[1..], x);
      InsertKeeps(sorted[1..], x);
      forall j | 0 <= j < |rest|
        ensures sorted[0] <= rest[j]
      {
        assert rest[j] in multiset(rest);
        if rest[j] != x {
          var k :| 0 <= k < |sorted[1..]| && sorted[1..][k] == rest[j];
        }
      }
    }
  }

  lemma {:induction false} SortedIsAscending(values: seq<real>)
    ensures Ascending(Sorted(values)) && multiset(Sorted(values)) == multiset(values) && |Sorted(values)| == |values|
  {
    if values != [] {
      SortedIsAscending(values[1..]);
      InsertAscends(Sorted(values[1..]), values[0]);
      InsertKeeps(Sorted(values[1..]), values[0]);
      assert values == [values[0]] + values[1..];
    }
    SameLength(Sorted(values), values);
  }

  lemma HeadIsLeast(a: seq<real>, x: real)
    requires Ascending(a) && x in multiset(a)
    ensures a[0] <= x
  {
    var k :| 0 <= k < |a| && a[k] == x;
  }

  lemma SameHead(a: seq<real>, b: seq<real>)
    requires Ascending(a) && Ascending(b) && multiset(a) == multiset(b) && a != [] && b != []
    ensures a[0] == b[0]
  {
    assert a[0] in multiset(a) && b[0] in multiset(b);
    HeadIsLeast(a, b[0]);
    HeadIsLeast(b, a[0]);
  }

  lemma TailMultiset(a: seq<real>)
    requires a != []
    ensures multiset(a[1..]) == multiset(a) - multiset{a[0]}
  {
    assert a == [a[0]] + a[1..];
  }

  lemma SameLength(a: seq<real>, b: seq<real>)
    requires multiset(a) == multiset(b)
    ensures |a| == |b|
  {
    assert |multiset(a)| == |a| && |multiset(b)| == |b|;
  }

  /** Ascending values are determined by how often each occurs. */
  lemma {:induction false} AscendingIsUnique(a: seq<real>, b: seq<real>)
    requires Ascending(a) && Ascending(b) && multiset(a) == multiset(b)
    ensures a == b
  {
    SameLength(a, b);
    if a != [] {
      SameHead(a, b);
      TailMultiset(a);
      TailMultiset(b);
      AscendingIsUnique(a[1..], b[1..]);
      assert a == [a[0]] + a[1..] && b == [b[0]] + b[1..];
    }
  }

  // ---------------------------------------------------------------- percentiles

  function Clamp(p: real): (r: real)
    ensures 0.0 <= r <= 1.0
  {
    var low := if p < 0.0 then 0.0 else p;
    if low > 1.0 then 1.0 else low
  }

  function Ceiling(x: real): int { if x == x.Floor as real then x.Floor else x.Floor + 1 }

  /** The weighted sum of two samples. */
  function Mix(a: real, b: real, u: real, v: real): real { a * u + b * v }

  /** The value at a position between the samples. */
  function At(sorted: seq<real>, index: real): real
    requires 0.0 <= index <= (|sorted| - 1) as real
  {
    var lower, upper := index.Floor, Ceiling(index);
    if lower == upper then sorted[lower]
    else Mix(sorted[lower], sorted[upper], upper as real - index, index - lower as real)
  }

  function Times(a: real, b: real): real { a * b }

  lemma ProductNotNegative(a: real, b: real)
    requires a >= 0.0 && b >= 0.0
    ensures a * b >= 0.0
  {
  }

  lemma TimesGrows(c: real, d: real, m: real)
    requires c <= d && m >= 0.0
    ensures Times(c, m) <= Times(d, m)
  {
    ProductNotNegative(d - c, m);
    assert (d - c) * m == d * m - c * m;
  }

  lemma MixBetween(a: real, b: real, u: real, v: real)
    requires a <= b && 0.0 <= u && 0.0 <= v && u == 1.0 - v
    ensures a <= Mix(a, b, u, v) <= b
  {
    ProductNotNegative(b - a, v);
    ProductNotNegative(b - a, u);
    assert Mix(a, b, u, v) == a + (b - a) * v;
    assert Mix(a, b, u, v) == b - (b - a) * u;
  }

  lemma MixGrows(a: real, b: real, s: real, t: real)
    requires a <= b && s <= t
    ensures Mix(a, b, 1.0 - s, s) <= Mix(a, b, 1.0 - t, t)
  {
    ProductNotNegative(b - a, t - s);
    assert Mix(a, b, 1.0 - t, t) - Mix(a, b, 1.0 - s, s) == (b - a) * (t - s);
  }

  /** Where a rank falls among `n` sorted samples. */
  function Position(p: real, n: nat): (index: real)
    requires n > 0
    ensures 0.0 <= index <= (n - 1) as real
  {
    TimesGrows(0.0, Clamp(p), (n - 1) as real);
    TimesGrows(Clamp(p), 1.0, (n - 1) as real);
    Times(Clamp(p), (n - 1) as real)
  }

  lemma PositionGrows(p: real, q: real, n: nat)
    requires n > 0 && p <= q
    ensures Position(p, n) <= Position(q, n)
  {
    TimesGrows(Clamp(p), Clamp(q), (n - 1) as real);
  }

  function Percentile(values: seq<real>, p: real): real {
    if values == [] then 0.0
    else if |values| == 1 then values[0]
    else
      SortedIsAscending(values);
      At(Sorted(values), Position(p, |values|))
  }

  /** Between two samples the percentile is on the line through them, by how far the rank is from the first. */
  lemma PercentileInterpolates(values: seq<real>, p: real) returns (k: nat)
    requires values != [] && 0.0 <= p <= 1.0
    ensures var index, sorted := Times(p, (|values| - 1) as real), Sorted(values);
            && |sorted| == |values| && k < |values| && k as real <= index < (k + 1) as real
            && (k as real == index ==> Percentile(values, p) == sorted[k])
            && (k as real < index ==>
                && k + 1 < |values|
                && Percentile(values, p) - sorted[k] == Times(sorted[k + 1] - sorted[k], index - k as real))
  {
    SortedIsAscending(values);
    SameSize(values);
    var index := Position(p, |values|);
    k := index.Floor;
    if |values| == 1 {
      assert index == 0.0;
      SingletonIsSorted(values);
    } else if k as real < index {
      MixIsLine(Sorted(values)[k], Sorted(values)[k + 1], (k + 1) as real - index, index - k as real);
    }
  }

  lemma MixIsLine(a: real, b: real, u: real, v: real)
    requires u == 1.0 - v
    ensures Mix(a, b, u, v) - a == Times(b - a, v)
  {
  }

  lemma SameSize(values: seq<real>)
    ensures |Sorted(values)| == |values|
  {
    SortedIsAscending(values);
    assert |multiset(Sorted(values))| == |multiset(values)|;
  }

  /** A rank below zero counts as zero, one above one as one. */
  lemma PercentileClamps(values: seq<real>, p: real)
    ensures p <= 0.0 ==> Percentile(values, p) == Percentile(values, 0.0)
    ensures p >= 1.0 ==> Percentile(values, p) == Percentile(values, 1.0)
  {
  }

  /** The value at a position lies between those of its two neighbours. */
  lemma AtIsBetween(sorted: seq<real>, index: real)
    requires Ascending(sorted) && 0.0 <= index <= (|sorted| - 1) as real
    ensures sorted[index.Floor] <= At(sorted, index) <= sorted[Ceiling(index)]
  {
    var lower := index.Floor;
    if lower != Ceiling(index) {
      MixBetween(sorted[lower], sorted[lower + 1], (lower + 1) as real - index, index - lower as real);
    }
  }

  lemma AtGrows(sorted: seq<real>, i: real, j: real)
    requires Ascending(sorted) && 0.0 <= i <= j <= (|sorted| - 1) as real
    ensures At(sorted, i) <= At(sorted, j)
  {
    AtIsBetween(sorted, i);
    AtIsBetween(sorted, j);
    if i.Floor == j.Floor && Ceiling(i) == Ceiling(j) && i.Floor != Ceiling(i) {
      var lower, s, t := i.Floor, i - i.Floor as real, j - i.Floor as real;
      MixGrows(sorted[lower], sorted[lower + 1], s, t);
      assert (lower + 1) as real - i == 1.0 - s && (lower + 1) as real - j == 1.0 - t;
    }
  }

  /** A higher rank never gives a lower percentile. */
  lemma PercentileGrows(values: seq<real>, p: real, q: real)
    requires p <= q
    ensures Percentile(values, p) <= Percentile(values, q)
  {
    if |values| > 1 {
      SortedIsAscending(values);
      PositionGrows(p, q, |values|);
      AtGrows(Sorted(values), Position(p, |values|), Position(q, |values|));
    }
  }

  lemma SortedIgnoresOrder(a: seq<real>, b: seq<real>)
    requires multiset(a) == multiset(b)
    ensures Sorted(a) == Sorted(b) && |a| == |b|
  {
    SameLength(a, b);
    SortedIsAscending(a);
    SortedIsAscending(b);
    AscendingIsUnique(Sorted(a), Sorted(b));
  }

  lemma SingletonIsSorted(values: seq<real>)
    requires |values| == 1
    ensures Sorted(values) == values
  {
    assert Sorted(values[1..]) == [];
  }

  /** The order of the samples does not matter. */
  lemma PercentileIgnoresOrder(a: seq<real>, b: seq<real>, p: real)
    requires multiset(a) == multiset(b)
    ensures Percentile(a, p) == Percentile(b, p)
  {
    SortedIgnoresOrder(a, b);
    if |a| == 1 {
      SingletonIsSorted(a);
      SingletonIsSorted(b);
    }
  }

  // ---------------------------------------------------------------- the statistics

  function Sum(values: seq<real>, n: nat): real
    requires n <= |values|
  {
    if n == 0 then 0.0 else Sum(values, n - 1) + values[n - 1]
  }

  ghost predicate IsMin(values: seq<real>, m: real) { m in values && forall v :: v in values ==> m <= v }

  ghost predicate IsMax(values: seq<real>, m: real) { m in values && forall v :: v in values ==> v <= m }

  method Extremes(values: seq<real>) returns (min: real, max: real)
    requires values != []
    ensures IsMin(values, min) && IsMax(values, max)
  {
    min, max := values[0], values[0];
    for i := 1 to |values|
      invariant min in values && max in values
      invariant forall j :: 0 <= j < i ==> min <= values[j] <= max
    {
      if values[i] < min { min := values[i]; }
      if values[i] > max { max := values[i]; }
    }
  }

  datatype Stats = Stats(count: nat, min: real, max: real, mean: real, p50: real, p95: real, p99: real, deviation: real)

  function Squares(values: seq<real>, mean: real, n: nat): real
    requires n <= |values|
  {
    if n == 0 then 0.0 else Squares(values, mean, n - 1) + (values[n - 1] - mean) * (values[n - 1] - mean)
  }

  function SquareSum(values: seq<real>, n: nat): real
    requires n <= |values|
  {
    if n == 0 then 0.0 else SquareSum(values, n - 1) + Times(values[n - 1], values[n - 1])
  }

  /** The squares of the differences, by the sums of the samples and of their squares. */
  lemma {:induction false} SquaresAre(values: seq<real>, mean: real, n: nat)
    requires n <= |values|
    ensures Squares(values, mean, n)
         == SquareSum(values, n) - 2.0 * Times(mean, Sum(values, n)) + Times(n as real, Times(mean, mean))
  {
    if n == 0 {
      TimesZero(mean);
      TimesZero(Times(mean, mean));
    } else {
      SquaresAre(values, mean, n - 1);
      SquareOfDifference(values[n - 1], mean);
      TimesAdds(mean, Sum(values, n - 1), values[n - 1]);
      OneMore(n, Times(mean, mean));
    }
  }

  lemma TimesZero(a: real)
    ensures Times(a, 0.0) == 0.0 && Times(0.0, a) == 0.0
  {
  }

  lemma SquareOfDifference(x: real, m: real)
    ensures (x - m) * (x - m) == Times(x, x) - 2.0 * Times(m, x) + Times(m, m)
  {
  }

  lemma TimesAdds(a: real, b: real, c: real)
    ensures Times(a, b + c) == Times(a, b) + Times(a, c)
  {
  }

  lemma OneMore(n: nat, a: real)
    requires n > 0
    ensures Times(n as real, a) == Times((n - 1) as real, a) + a
  {
    assert n as real == (n - 1) as real + 1.0;
  }

  method SumOfSquares(values: seq<real>, mean: real) returns (squares: real)
    ensures squares == Squares(values, mean, |values|)
  {
    squares := 0.0;
    for i := 0 to |values|
      invariant squares == Squares(values, mean, i)
    {
      squares := squares + (values[i] - mean) * (values[i] - mean);
    }
  }

  /** `root` is the square root. */
  ghost predicate SquareRoot(root: real -> real) { forall x :: x >= 0.0 ==> IsRoot(root(x), x) }

  ghost predicate IsRoot(r: real, x: real) { r >= 0.0 && r * r == x }

  /** The standard deviation: the root of the mean of the squares. */
  method Latency(values: seq<real>, root: real -> real) returns (s: Stats)
    requires SquareRoot(root)
    ensures values == [] ==> s == Stats(0, 0.0, 0.0, 0.0, 0.0, 0.0, 0.0, 0.0)
    ensures values != [] ==>
              && s.count == |values| && IsMin(values, s.min) && IsMax(values, s.max)
              && s.mean == Sum(values, |values|) / |values| as real
              && s.p50 == Percentile(values, 0.5) && s.p95 == Percentile(values, 0.95)
              && s.p99 == Percentile(values, 0.99)
              && IsRoot(s.deviation, Squares(values, s.mean, |values|) / |values| as real)
    ensures s.min <= s.p50 <= s.p95 <= s.p99 <= s.max && s.min <= s.mean <= s.max
  {
    if values == [] {
      return Stats(0, 0.0, 0.0, 0.0, 0.0, 0.0, 0.0, 0.0);
    }
    var sum := 0.0;
    for i := 0 to |values|
      invariant sum == Sum(values, i)
    {
      sum := sum + values[i];
    }
    var mean := sum / |values| as real;
    var squares := SumOfSquares(values, mean);
    var min, max := Extremes(values);
    PercentilesAreOrdered(values, min, max);
    MeanIsBetween(values, min, max);
    VarianceNotNegative(values, mean);
    s := Stats(|values|, min, max, mean, Percentile(values, 0.5), Percentile(values, 0.95), Percentile(values, 0.99),
               root(squares / |values| as real));
  }

  lemma SortedEnds(values: seq<real>, min: real, max: real)
    requires IsMin(values, min) && IsMax(values, max)
    ensures |Sorted(values)| == |values| && Sorted(values)[0] == min && Sorted(values)[|values| - 1] == max
  {
    var sorted := Sorted(values);
    SortedIsAscending(values);
    InSorted(values, min);
    InSorted(values, max);
    assert sorted[0] in multiset(sorted) && sorted[|sorted| - 1] in multiset(sorted);
    assert sorted[0] in multiset(values) && sorted[|sorted| - 1] in multiset(values);
    assert sorted[0] in values && sorted[|sorted| - 1] in values;
  }

  lemma InSorted(values: seq<real>, x: real)
    requires x in values
    ensures |Sorted(values)| == |values| && Sorted(values)[0] <= x <= Sorted(values)[|values| - 1]
  {
    var sorted := Sorted(values);
    SortedIsAscending(values);
    assert x in multiset(values);
    var i :| 0 <= i < |sorted| && sorted[i] == x;
  }

  /** Rank zero is the minimum, rank one the maximum. */
  lemma PercentileEnds(values: seq<real>, min: real, max: real)
    requires IsMin(values, min) && IsMax(values, max)
    ensures Percentile(values, 0.0) == min && Percentile(values, 1.0) == max
  {
    if |values| > 1 {
      SortedEnds(values, min, max);
      assert Position(0.0, |values|) == 0.0 && Position(1.0, |values|) == (|values| - 1) as real;
    }
  }

  lemma PercentilesAreOrdered(values: seq<real>, min: real, max: real)
    requires IsMin(values, min) && IsMax(values, max)
    ensures min <= Percentile(values, 0.5) <= Percentile(values, 0.95) <= Percentile(values, 0.99) <= max
  {
    PercentileEnds(values, min, max);
    PercentileGrows(values, 0.0, 0.5);
    PercentileGrows(values, 0.5, 0.95);
    PercentileGrows(values, 0.95, 0.99);
    PercentileGrows(values, 0.99, 1.0);
  }

  lemma {:induction false} SumBounds(values: seq<real>, min: real, max: real, n: nat)
    requires n <= |values| && forall i :: 0 <= i < |values| ==> min <= values[i] <= max
    ensures n as real * min <= Sum(values, n) <= n as real * max
  {
    if n > 0 {
      SumBounds(values, min, max, n - 1);
      assert n as real * min == (n - 1) as real * min + min && n as real * max == (n - 1) as real * max + max;
    }
  }

  lemma MeanIsBetween(values: seq<real>, min: real, max: real)
    requires IsMin(values, min) && IsMax(values, max)
    ensures min <= Sum(values, |values|) / |values| as real <= max
  {
    forall i | 0 <= i < |values|
      ensures min <= values[i] <= max
    {
      assert values[i] in values;
    }
    SumBounds(values, min, max, |values|);
    QuotientIsBetween(Sum(values, |values|), |values| as real, min, max);
  }

  lemma QuotientIsBetween(sum: real, n: real, min: real, max: real)
    requires n > 0.0 && n * min <= sum <= n * max
    ensures min <= sum / n <= max
  {
    var q := sum / n;
    assert q * n == sum;
    assert (q - min) * n >= 0.0 && (max - q) * n >= 0.0;
  }

  lemma {:induction false} SquaresAreNotNegative(values: seq<real>, mean: real, n: nat)
    requires n <= |values|
    ensures Squares(values, mean, n) >= 0.0
  {
    if n > 0 {
      SquaresAreNotNegative(values, mean, n - 1);
      SquareNotNegative(values[n - 1] - mean);
    }
  }

  lemma VarianceNotNegative(values: seq<real>, mean: real)
    requires values != []
    ensures Squares(values, mean, |values|) / |values| as real >= 0.0
  {
    SquaresAreNotNegative(values, mean, |values|);
  }

  lemma SquareNotNegative(a: real)
    ensures a * a >= 0.0
  {
    if a >= 0.0 {
      ProductNotNegative(a, a);
    } else {
      ProductNotNegative(-a, -a);
      assert a * a == (-a) * (-a);
    }
  }

  // ---------------------------------------------------------------- the order of the samples

  lemma {:induction false} SumConcat(a: seq<real>, b: seq<real>, n: nat)
    requires n <= |b|
    ensures Sum(a + b, |a| + n) == Sum(a, |a|) + Sum(b, n)
  {
    if n == 0 {
      SumOfPrefix(a, b, |a|);
    } else {
      SumConcat(a, b, n - 1);
    }
  }

  lemma {:induction false} SumOfPrefix(a: seq<real>, b: seq<real>, n: nat)
    requires n <= |a|
    ensures Sum(a + b, n) == Sum(a, n)
  {
    if n > 0 {
      SumOfPrefix(a, b, n - 1);
    }
  }

  function Without(values: seq<real>, k: nat): seq<real>
    requires k < |values|
  {
    values[..k] + values[k + 1..]
  }

  lemma SumWithout(values: seq<real>, k: nat)
    requires k < |values|
    ensures Sum(values, |values|) == Sum(Without(values, k), |values| - 1) + values[k]
  {
    var front, back := values[..k], values[k + 1..];
    assert values == front + [values[k]] + back;
    SumConcat(front + [values[k]], back, |back|);
    SumConcat(front, [values[k]], 1);
    SumConcat(front, back, |back|);
    assert Sum([values[k]], 1) == Sum([values[k]], 0) + values[k];
  }

  lemma MultisetWithout(values: seq<real>, k: nat)
    requires k < |values|
    ensures multiset(Without(values, k)) == multiset(values) - multiset{values[k]}
  {
    assert values == values[..k] + [values[k]] + values[k + 1..];
  }

  /** The mean, like the percentiles, does not depend on the order of the samples. */
  lemma {:induction false} SumIgnoresOrder(a: seq<real>, b: seq<real>)
    requires multiset(a) == multiset(b)
    ensures |a| == |b| && Sum(a, |a|) == Sum(b, |b|)
  {
    SameLength(a, b);
    if a != [] {
      assert a[0] in multiset(b);
      var k :| 0 <= k < |b| && b[k] == a[0];
      SumWithout(a, 0);
      SumWithout(b, k);
      MultisetWithout(a, 0);
      MultisetWithout(b, k);
      SumIgnoresOrder(Without(a, 0), Without(b, k));
    }
  }
}
