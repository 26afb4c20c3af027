/** The retrieval metrics of one query at a cutoff. The discount of a rank is any positive, strictly decreasing one. */
module RankingMetrics {
  import opened Common

  /** What a hit was matched with: nothing, or the id of an evidence event. */
  type Hit = Option<string>

  datatype Metrics = Metrics(k: nat, queries: nat, hitRate: real, precision: real, recall: real, f1: real, mrr: real,
                             ndcg: real)

  ghost predicate Discount(w: nat -> real) {
    (forall i :: w(i) > 0.0) && forall i, j :: i < j ==> w(i) > w(j)
  }

  // ---------------------------------------------------------------- what counts as a gain

  /** A relevant hit that no earlier hit has found already; an empty id counts as none. */
  predicate Useful(hits: seq<Hit>, relevant: set<string>, i: nat)
    requires i < |hits|
  {
    hits[i].Some? && hits[i].value != "" && hits[i].value in relevant && forall j :: 0 <= j < i ==> hits[j] != hits[i]
  }

  function Gain(hits: seq<Hit>, relevant: set<string>, i: nat): nat
    requires i < |hits|
  {
    if Useful(hits, relevant, i) then 1 else 0
  }

  /** How many of the first `n` hits are useful. */
  function Found(hits: seq<Hit>, relevant: set<string>, n: nat): nat
    requires n <= |hits|
  {
    if n == 0 then 0 else Found(hits, relevant, n - 1) + Gain(hits, relevant, n - 1)
  }

  /** The rank, from one, of the first useful hit among the first `n`; zero if there is none. */
  function FirstRank(hits: seq<Hit>, relevant: set<string>, n: nat): nat
    requires n <= |hits|
  {
    if n == 0 then 0
    else if FirstRank(hits, relevant, n - 1) > 0 then FirstRank(hits, relevant, n - 1)
    else if Useful(hits, relevant, n - 1) then n else 0
  }

  /** What a gain of one is worth at position `i`, and one of zero. */
  function Discounted(w: nat -> real, gain: bool, i: nat): real { if gain then w(i) else 0.0 }

  function Dcg(w: nat -> real, gains: seq<bool>, n: nat): real
    requires n <= |gains|
  {
    if n == 0 then 0.0 else Dcg(w, gains, n - 1) + Discounted(w, gains[n - 1], n - 1)
  }

  /** Which of the first `n` hits gain one; the others gain zero. */
  function Gains(hits: seq<Hit>, relevant: set<string>, n: nat): (gains: seq<bool>)
    requires n <= |hits|
    ensures |gains| == n
    ensures forall i :: 0 <= i < n ==> gains[i] == Useful(hits, relevant, i)
  {
    seq(n, i requires 0 <= i < n => Useful(hits, relevant, i))
  }

  /** The gains of an ideal list: `n` useful hits. */
  function Ideal(w: nat -> real, n: nat): real { if n == 0 then 0.0 else Ideal(w, n - 1) + w(n - 1) }

  function Ratio(a: real, b: real): real { if b == 0.0 then 0.0 else a / b }

  function F1(precision: real, recall: real): real { Ratio(2.0 * precision * recall, precision + recall) }

  function Score(w: nat -> real, hits: seq<Hit>, relevant: set<string>, k: nat): Metrics {
    var n := Min(k, |hits|);
    var found := Found(hits, relevant, n) as real;
    var precision, recall := Ratio(found, n as real), Ratio(found, |relevant| as real);
    Metrics(k, if relevant == {} then 0 else 1, if found > 0.0 then 1.0 else 0.0,
            precision, recall, F1(precision, recall),
            Ratio(1.0, FirstRank(hits, relevant, n) as real),
            Ratio(Dcg(w, Gains(hits, relevant, n), n), Ideal(w, Min(|relevant|, k))))
  }

  /** `score_at_k`: one pass over the top hits, which collects the evidence already seen. */
  method ScoreAtK(w: nat -> real, hits: seq<Hit>, evidence: seq<string>, k: nat) returns (m: Metrics)
    ensures m == Score(w, hits, (set id | id in evidence), k)
  {
    var relevant := set id | id in evidence;
    var n := Min(k, |hits|);
    var seen: set<string> := {};
    var firstRank := 0;
    var gains: seq<bool> := [];
    for i := 0 to n
      invariant gains == Gains(hits, relevant, i)
      invariant seen == Seen(hits, relevant, i)
      invariant firstRank == FirstRank(hits, relevant, i)
    {
      UsefulIsUnseen(hits, relevant, i, seen);
      SeenStep(hits, relevant, i);
      if hits[i].None? || hits[i].value == "" || hits[i].value !in relevant || hits[i].value in seen {
        gains := gains + [false];
      } else {
        seen := seen + {hits[i].value};
        if firstRank == 0 {
          firstRank := i + 1;
        }
        gains := gains + [true];
      }
    }
    FoundIsSeen(hits, relevant, n);
    var found := |seen| as real;
    var precision, recall := Ratio(found, n as real), Ratio(found, |relevant| as real);
    var ideal := IdealOf(w, Min(|relevant|, k));
    var dcg := DcgOf(w, gains);
    m := Metrics(k, if relevant == {} then 0 else 1, if found > 0.0 then 1.0 else 0.0,
                 precision, recall, F1(precision, recall),
                 Ratio(1.0, firstRank as real), Ratio(dcg, ideal));
  }

  lemma UsefulIsUnseen(hits: seq<Hit>, relevant: set<string>, i: nat, seen: set<string>)
    requires i < |hits| && forall id :: id in seen <==> id in relevant && id != "" && Some(id) in hits[..i]
    ensures Useful(hits, relevant, i)
       <==> hits[i].Some? && hits[i].value != "" && hits[i].value in relevant && hits[i].value !in seen
  {
    if hits[i].Some? && hits[i].value in seen {
      var j :| 0 <= j < |hits[..i]| && hits[..i][j] == hits[i];
      assert hits[j] == hits[i];
    }
    assert forall j :: 0 <= j < i ==> hits[..i][j] == hits[j];
  }

  method DcgOf(w: nat -> real, gains: seq<bool>) returns (sum: real)
    ensures sum == Dcg(w, gains, |gains|)
  {
    sum := 0.0;
    for i := 0 to |gains|
      invariant sum == Dcg(w, gains, i)
    {
      sum := sum + Discounted(w, gains[i], i);
    }
  }

  method IdealOf(w: nat -> real, n: nat) returns (sum: real)
    ensures sum == Ideal(w, n)
  {
    sum := 0.0;
    for i := 0 to n
      invariant sum == Ideal(w, i)
    {
      sum := sum + w(i);
    }
  }

  // ---------------------------------------------------------------- counting

  /** The evidence that the first `n` hits have found. */
  ghost function Seen(hits: seq<Hit>, relevant: set<string>, n: nat): set<string>
    requires n <= |hits|
  {
    set id | id in relevant && id != "" && Some(id) in hits[..n]
  }

  lemma SeenStep(hits: seq<Hit>, relevant: set<string>, n: nat)
    requires n < |hits|
    ensures Useful(hits, relevant, n) ==> hits[n].Some? && hits[n].value !in Seen(hits, relevant, n)
    ensures Useful(hits, relevant, n) ==> Seen(hits, relevant, n + 1) == Seen(hits, relevant, n) + {hits[n].value}
    ensures !Useful(hits, relevant, n) ==> Seen(hits, relevant, n + 1) == Seen(hits, relevant, n)
  {
    UsefulIsUnseen(hits, relevant, n, Seen(hits, relevant, n));
    assert hits[..n + 1] == hits[..n] + [hits[n]];
  }

  lemma SeenNext(hits: seq<Hit>, relevant: set<string>, n: nat)
    requires n < |hits|
    ensures |Seen(hits, relevant, n + 1)| == |Seen(hits, relevant, n)| + if Useful(hits, relevant, n) then 1 else 0
  {
    SeenStep(hits, relevant, n);
  }

  lemma {:induction false} FoundIsSeen(hits: seq<Hit>, relevant: set<string>, n: nat)
    requires n <= |hits|
    ensures Found(hits, relevant, n) == |Seen(hits, relevant, n)|
  {
    if n == 0 {
      assert Seen(hits, relevant, 0) == {};
    } else {
      FoundIsSeen(hits, relevant, n - 1);
      SeenNext(hits, relevant, n - 1);
    }
  }

  /** The rank is that of the first useful hit. */
  lemma {:induction false} FirstRankIs(hits: seq<Hit>, relevant: set<string>, n: nat)
    requires n <= |hits|
    ensures var r := FirstRank(hits, relevant, n);
            && r <= n && (forall i :: 0 <= i < n && i < r - 1 ==> !Useful(hits, relevant, i))
            && (r > 0 ==> Useful(hits, relevant, r - 1))
            && (r == 0 ==> forall i :: 0 <= i < n ==> !Useful(hits, relevant, i))
  {
    if n > 0 {
      FirstRankIs(hits, relevant, n - 1);
    }
  }

  /** Hit `i` is the first of the first `n` that names evidence. */
  ghost predicate FirstFind(hits: seq<Hit>, relevant: set<string>, n: nat, i: int)
    requires n <= |hits|
  {
    && 0 <= i < n && hits[i].Some? && hits[i].value in Seen(hits, relevant, n)
    && forall j :: 0 <= j < i ==> !(hits[j].Some? && hits[j].value in Seen(hits, relevant, n))
  }

  lemma FirstFindIs(hits: seq<Hit>, relevant: set<string>, n: nat)
    requires n <= |hits|
    ensures FirstRank(hits, relevant, n) == 0 ==> Seen(hits, relevant, n) == {}
    ensures FirstRank(hits, relevant, n) > 0 ==> FirstFind(hits, relevant, n, FirstRank(hits, relevant, n) - 1)
  {
    var r := FirstRank(hits, relevant, n);
    FirstRankIs(hits, relevant, n);
    FoundIsSeen(hits, relevant, n);
    FoundWhereUseful(hits, relevant, n);
    if r > 0 {
      assert hits[..n][r - 1] == hits[r - 1];
      forall j | 0 <= j < r - 1
        ensures !(hits[j].Some? && hits[j].value in Seen(hits, relevant, n))
      {
        assert !Useful(hits, relevant, j);
        NotUsefulBefore(hits, relevant, j);
      }
    }
  }

  lemma {:induction false} FoundWhereUseful(hits: seq<Hit>, relevant: set<string>, n: nat)
    requires n <= |hits|
    ensures Found(hits, relevant, n) > 0 ==> exists i :: 0 <= i < n && Useful(hits, relevant, i)
  {
    if n > 0 {
      FoundWhereUseful(hits, relevant, n - 1);
    }
  }

  /** Where no hit up to `j` is useful, hit `j` names no evidence. */
  lemma {:induction false} NotUsefulBefore(hits: seq<Hit>, relevant: set<string>, j: nat)
    requires j < |hits| && forall i :: 0 <= i <= j ==> !Useful(hits, relevant, i)
    ensures !(hits[j].Some? && hits[j].value != "" && hits[j].value in relevant)
  {
    if hits[j].Some? && hits[j].value != "" && hits[j].value in relevant {
      assert !Useful(hits, relevant, j);
      var i :| 0 <= i < j && hits[i] == hits[j];
      NotUsefulBefore(hits, relevant, i);
    }
  }

  /** The metrics in terms of the evidence found among the hits up to the cutoff. */
  lemma MetricsAre(w: nat -> real, hits: seq<Hit>, relevant: set<string>, k: nat)
    ensures var m, n := Score(w, hits, relevant, k), Min(k, |hits|);
            var found := Seen(hits, relevant, n);
            && m.k == k && (m.queries == 1 <==> relevant != {}) && m.queries <= 1
            && (found == {} ==>
                m.hitRate == 0.0 && m.precision == 0.0 && m.recall == 0.0 && m.f1 == 0.0 && m.mrr == 0.0)
            && (found != {} ==>
                && m.hitRate == 1.0 && m.precision == |found| as real / n as real
                && m.recall == |found| as real / |relevant| as real
                && exists i :: FirstFind(hits, relevant, n, i) && m.mrr == 1.0 / (i + 1) as real)
  {
    var n := Min(k, |hits|);
    FoundIsSeen(hits, relevant, n);
    FirstFindIs(hits, relevant, n);
    FoundBounds(hits, relevant, n);
    if Seen(hits, relevant, n) != {} {
      var id :| id in Seen(hits, relevant, n);
      assert relevant != {} && n > 0;
      assert FirstRank(hits, relevant, n) > 0;
    } else {
      FirstRankIs(hits, relevant, n);
    }
  }

  lemma {:induction false} FoundBounds(hits: seq<Hit>, relevant: set<string>, n: nat)
    requires n <= |hits|
    ensures Found(hits, relevant, n) <= n && Found(hits, relevant, n) <= |relevant|
  {
    FoundIsSeen(hits, relevant, n);
    SubsetSize(Seen(hits, relevant, n), relevant);
    FoundAtMost(hits, relevant, n);
  }

  lemma {:induction false} FoundAtMost(hits: seq<Hit>, relevant: set<string>, n: nat)
    requires n <= |hits|
    ensures Found(hits, relevant, n) <= n
    ensures Found(hits, relevant, n) == n <==> forall i :: 0 <= i < n ==> Useful(hits, relevant, i)
  {
    if n > 0 {
      FoundAtMost(hits, relevant, n - 1);
    }
  }

  lemma {:induction false} FoundGrows(hits: seq<Hit>, relevant: set<string>, n: nat, m: nat)
    requires n <= m <= |hits|
    ensures Found(hits, relevant, n) <= Found(hits, relevant, m)
    ensures FirstRank(hits, relevant, n) > 0 ==> FirstRank(hits, relevant, m) == FirstRank(hits, relevant, n)
  {
    if n < m {
      FoundGrows(hits, relevant, n, m - 1);
    }
  }

  // ---------------------------------------------------------------- the exchange argument

  lemma {:induction false} IdealGrows(w: nat -> real, n: nat, m: nat)
    requires Discount(w) && n <= m
    ensures Ideal(w, n) <= Ideal(w, m) && (Ideal(w, n) == Ideal(w, m) <==> n == m) && Ideal(w, m) >= 0.0
  {
    if n < m {
      IdealGrows(w, n, m - 1);
    } else if n > 0 {
      IdealGrows(w, n - 1, m - 1);
    }
  }

  /** The first `c` hits are useful. */
  ghost predicate FrontUseful(hits: seq<Hit>, relevant: set<string>, c: nat) {
    forall i :: 0 <= i < c ==> UsefulAt(hits, relevant, i)
  }

  lemma FrontIsFound(hits: seq<Hit>, relevant: set<string>, c: nat, n: nat)
    requires FrontUseful(hits, relevant, c) && c <= n <= |hits|
    ensures Found(hits, relevant, n) >= c
  {
    forall i | 0 <= i < c
      ensures Useful(hits, relevant, i)
    {
      assert UsefulAt(hits, relevant, i);
    }
    FoundAtMost(hits, relevant, c);
    FoundGrows(hits, relevant, c, n);
  }

  /** A gain at position `n` is worth at most one at position `c`, before it. */
  lemma ExchangeStep(w: nat -> real, c: nat, n: nat, gained: real, ideal: real)
    requires Discount(w) && c <= n && gained <= ideal
    ensures gained + w(n) <= ideal + w(c)
    ensures gained + w(n) == ideal + w(c) <==> gained == ideal && c == n
  {
    assert c < n ==> w(n) < w(c);
  }

  /** A gain is at most the ideal one, and only equal to it if `front`. */
  predicate AtMostIdeal(gained: real, ideal: real,
                        front: bool) { 0.0 <= gained <= ideal && (gained == ideal <==> front) }

  lemma UsefulStep(w: nat -> real, hits: seq<Hit>, relevant: set<string>, n: nat, gained: real)
    requires Discount(w) && n < |hits| && Useful(hits, relevant, n)
    requires AtMostIdeal(gained, Ideal(w, Found(hits, relevant, n)),
                         FrontUseful(hits, relevant, Found(hits, relevant, n)))
    ensures AtMostIdeal(gained + w(n), Ideal(w, Found(hits, relevant, n) + 1),
                        FrontUseful(hits, relevant, Found(hits, relevant, n) + 1))
  {
    var c := Found(hits, relevant, n);
    FoundAtMost(hits, relevant, n);
    FrontStep(hits, relevant, n);
    ExchangeStep(w, c, n, gained, Ideal(w, c));
  }

  /** The first `n` gains are at most those of as many useful hits in front, and only as much if these are in front. */
  ghost predicate Bounded(w: nat -> real, hits: seq<Hit>, relevant: set<string>, gains: seq<bool>, n: nat)
    requires n <= |gains| <= |hits|
  {
    var c := Found(hits, relevant, n);
    AtMostIdeal(Dcg(w, gains, n), Ideal(w, c), FrontUseful(hits, relevant, c))
  }

  lemma BoundedNext(w: nat -> real, hits: seq<Hit>, relevant: set<string>, gains: seq<bool>, n: nat)
    requires Discount(w) && n < |gains| <= |hits| && gains[n] == Useful(hits, relevant, n)
    requires Bounded(w, hits, relevant, gains, n)
    ensures Bounded(w, hits, relevant, gains, n + 1)
  {
    if gains[n] {
      UsefulStep(w, hits, relevant, n, Dcg(w, gains, n));
      assert Found(hits, relevant, n + 1) == Found(hits, relevant, n) + 1;
      assert Dcg(w, gains, n + 1) == Dcg(w, gains, n) + w(n);
    }
  }

  /** So it is for the gains of any list of hits. */
  lemma {:induction false} DcgAtMostIdeal(w: nat -> real, hits: seq<Hit>, relevant: set<string>, gains: seq<bool>,
                                          n: nat)
    requires Discount(w) && n <= |gains| <= |hits| && gains == Gains(hits, relevant, |gains|)
    ensures Bounded(w, hits, relevant, gains, n)
  {
    if n > 0 {
      DcgAtMostIdeal(w, hits, relevant, gains, n - 1);
      BoundedNext(w, hits, relevant, gains, n - 1);
    }
  }

  /** With a further useful hit, all found hits are in front exactly when they were before and it directly
      follows them. */
  lemma FrontStep(hits: seq<Hit>, relevant: set<string>, n: nat)
    requires n < |hits| && Useful(hits, relevant, n) && Found(hits, relevant, n) <= n
    ensures var c := Found(hits, relevant, n);
            FrontUseful(hits, relevant, c + 1) <==> FrontUseful(hits, relevant, c) && c == n
  {
    var c := Found(hits, relevant, n);
    assert UsefulAt(hits, relevant, n);
    if FrontUseful(hits, relevant, c + 1) && c < n {
      FrontIsFound(hits, relevant, c + 1, n);
    }
  }

  predicate UsefulAt(hits: seq<Hit>, relevant: set<string>, i: nat) { i < |hits| && Useful(hits, relevant, i) }

  lemma RatioAtMostOne(a: real, b: real)
    requires 0.0 <= a <= b
    ensures 0.0 <= Ratio(a, b) <= 1.0
    ensures Ratio(a, b) == 1.0 <==> a == b && b > 0.0
  {
    if b > 0.0 {
      assert a / b * b == a;
    }
  }

  /** For every list of hits, every evidence and every cutoff, nDCG lies between 0 and 1; it is 1 exactly when there is
      evidence and the first hits, as many as the evidence and the cutoff allow, are all useful. */
  lemma NdcgIsNormalized(w: nat -> real, hits: seq<Hit>, relevant: set<string>, k: nat)
    requires Discount(w)
    ensures 0.0 <= Score(w, hits, relevant, k).ndcg <= 1.0
    ensures Score(w, hits, relevant, k).ndcg == 1.0
       <==> Min(|relevant|, k) > 0 && FrontUseful(hits, relevant, Min(|relevant|, k))
  {
    var n, best := Min(k, |hits|), Min(|relevant|, k);
    var found, dcg := Found(hits, relevant, n), Dcg(w, Gains(hits, relevant, n), n);
    FoundBounds(hits, relevant, n);
    DcgAtMostIdeal(w, hits, relevant, Gains(hits, relevant, n), n);
    IdealGrows(w, found, best);
    IdealGrows(w, 0, best);
    RatioAtMostOne(dcg, Ideal(w, best));
    if FrontUseful(hits, relevant, best) {
      assert best > 0 ==> UsefulAt(hits, relevant, best - 1);
      FrontIsFound(hits, relevant, best, n);
    }
  }

  /** A gain is worth more at an earlier position. */
  lemma EarlierIsBetter(w: nat -> real, gains: seq<bool>, i: nat, j: nat)
    requires Discount(w) && i < j < |gains| && !gains[i] && gains[j]
    ensures Dcg(w, gains[i := true][j := false], |gains|) > Dcg(w, gains, |gains|)
  {
    SwapShift(w, gains, i, j, |gains|);
  }

  lemma {:induction false} SwapShift(w: nat -> real, gains: seq<bool>, i: nat, j: nat, n: nat)
    requires i < j < |gains| && !gains[i] && gains[j] && n <= |gains|
    ensures Dcg(w, gains[i := true][j := false], n)
         == Dcg(w, gains, n) + (if n > i then w(i) else 0.0) - (if n > j then w(j) else 0.0)
  {
    if n > 0 {
      SwapShift(w, gains, i, j, n - 1);
    }
  }

  // ---------------------------------------------------------------- recall, hit rate, precision and F1

  lemma RatioGrows(a: real, b: real, c: real)
    requires 0.0 <= a <= b && c >= 0.0
    ensures Ratio(a, c) <= Ratio(b, c)
  {
    if c > 0.0 {
      assert a / c * c == a && b / c * c == b;
    }
  }

  /** A larger cutoff never lowers recall, hit rate or reciprocal rank. */
  lemma RecallGrows(w: nat -> real, hits: seq<Hit>, relevant: set<string>, k: nat, l: nat)
    requires k <= l
    ensures Score(w, hits, relevant, k).recall <= Score(w, hits, relevant, l).recall
    ensures Score(w, hits, relevant, k).hitRate <= Score(w, hits, relevant, l).hitRate
    ensures Score(w, hits, relevant, k).mrr <= Score(w, hits, relevant, l).mrr
  {
    var n, m := Min(k, |hits|), Min(l, |hits|);
    FoundGrows(hits, relevant, n, m);
    RatioGrows(Found(hits, relevant, n) as real, Found(hits, relevant, m) as real, |relevant| as real);
    var rank := FirstRank(hits, relevant, m) as real;
    assert rank > 0.0 ==> 1.0 / rank > 0.0;
  }

  lemma FoundRates(w: nat -> real, hits: seq<Hit>, relevant: set<string>, k: nat)
    ensures var m := Score(w, hits, relevant, k);
            0.0 <= m.precision <= 1.0 && 0.0 <= m.recall <= 1.0 && (m.hitRate == 1.0 || m.hitRate == 0.0)
    ensures var m := Score(w, hits, relevant, k);
            (m.recall > 0.0 <==> m.hitRate == 1.0) && (m.precision > 0.0 <==> m.hitRate == 1.0)
  {
    var n := Min(k, |hits|);
    FoundBounds(hits, relevant, n);
    var found := Found(hits, relevant, n) as real;
    RatioAtMostOne(found, n as real);
    RatioAtMostOne(found, |relevant| as real);
    assert found > 0.0 ==> found / n as real > 0.0 && found / |relevant| as real > 0.0;
  }

  /** The harmonic mean lies between its arguments. */
  lemma F1Between(p: real, r: real)
    requires 0.0 <= p && 0.0 <= r
    ensures p <= r ==> p <= F1(p, r) <= r
    ensures r <= p ==> r <= F1(p, r) <= p
  {
    if p + r > 0.0 {
      if p <= r {
        HarmonicBetween(p, r, F1(p, r));
      } else {
        HarmonicBetween(r, p, F1(p, r));
      }
    }
  }

  lemma HarmonicBetween(p: real, r: real, f: real)
    requires 0.0 <= p <= r && p + r > 0.0 && f * (p + r) == 2.0 * p * r
    ensures p <= f <= r
  {
    assert 2.0 * p * r - p * (p + r) == p * (r - p) >= 0.0;
    assert r * (p + r) - 2.0 * p * r == r * (r - p) >= 0.0;
    assert (f - p) * (p + r) >= 0.0 && (r - f) * (p + r) >= 0.0;
  }

  /** F1 lies between precision and recall. */
  lemma F1IsBetween(w: nat -> real, hits: seq<Hit>, relevant: set<string>, k: nat)
    ensures var m := Score(w, hits, relevant, k);
            (m.precision <= m.f1 <= m.recall) || (m.recall <= m.f1 <= m.precision)
  {
    FoundRates(w, hits, relevant, k);
    F1Between(Score(w, hits, relevant, k).precision, Score(w, hits, relevant, k).recall);
  }

  lemma Dice(found: real, a: real, b: real)
    requires found > 0.0 && a > 0.0 && b > 0.0
    ensures F1(Ratio(found, a), Ratio(found, b)) == Ratio(2.0 * found, a + b)
  {
    var p, r := Ratio(found, a), Ratio(found, b);
    assert p * a == found && r * b == found && p > 0.0 && r > 0.0;
    var f := F1(p, r);
    assert f * (p + r) == 2.0 * p * r;
    assert (p + r) * (a * b) == found * (a + b);
    assert (f * (a + b) - 2.0 * found) * found == 0.0;
  }

  lemma DiceOfCounts(found: real, a: real, b: real)
    requires found >= 0.0 && (found > 0.0 ==> a > 0.0 && b > 0.0)
    ensures F1(Ratio(found, a), Ratio(found, b)) == Ratio(2.0 * found, a + b)
  {
    if found > 0.0 {
      Dice(found, a, b);
    } else {
      assert found == 0.0 && 2.0 * found == 0.0;
      DiceOfNothing(a, b);
    }
  }

  lemma NothingOf(b: real)
    ensures Ratio(0.0, b) == 0.0
  {
  }

  lemma F1OfNothing(precision: real, recall: real)
    requires precision == 0.0 && recall == 0.0
    ensures F1(precision, recall) == 0.0
  {
  }

  lemma DiceOfNothing(a: real, b: real)
    ensures F1(Ratio(0.0, a), Ratio(0.0, b)) == Ratio(0.0, a + b)
  {
    NothingOf(a);
    NothingOf(b);
    NothingOf(a + b);
    F1OfNothing(Ratio(0.0, a), Ratio(0.0, b));
  }

  /** F1 is the share of the found hits in the hits and the evidence together. */
  lemma F1IsDice(w: nat -> real, hits: seq<Hit>, relevant: set<string>, k: nat)
    ensures var n := Min(k, |hits|);
            Score(w, hits, relevant, k).f1
                == Ratio(2.0 * Found(hits, relevant, n) as real, n as real + |relevant| as real)
  {
    var n := Min(k, |hits|);
    FoundBounds(hits, relevant, n);
    DiceOfCounts(Found(hits, relevant, n) as real, n as real, |relevant| as real);
  }
}
