/** Sampling benchmark cases by category: a window over the corpora of each category, started at an offset, and
    optionally staggered so that categories prefer corpora no earlier category has used. */
module Sampling {
  import opened Common

  datatype Case = Case(id: string, category: string, corpus: string)

  // ---------------------------------------------------------------- one case for each corpus

  function IndexOf(cases: seq<Case>, corpus: string): (i: nat)
    ensures i <= |cases| && (i < |cases| ==> cases[i].corpus == corpus)
    ensures forall j :: 0 <= j < i ==> cases[j].corpus != corpus
  {
    if cases == [] || cases[0].corpus == corpus then 0 else 1 + IndexOf(cases[1..], corpus)
  }

  /** A map by corpus: a corpus keeps its first place and takes its last case. */
  function Put(unique: seq<Case>, c: Case): seq<Case> {
    var i := IndexOf(unique, c.corpus);
    if i < |unique| then unique[i := c] else unique + [c]
  }

  /** The cases of the category among the first `n`, one for each corpus. */
  function Unique(cases: seq<Case>, category: string, n: nat): seq<Case>
    requires n <= |cases|
  {
    if n == 0 then []
    else if cases[n - 1].category == category then Put(Unique(cases, category, n - 1), cases[n - 1])
    else Unique(cases, category, n - 1)
  }

  ghost predicate DistinctCorpora(cases: seq<Case>) {
    forall i, j :: 0 <= i < j < |cases| ==> cases[i].corpus != cases[j].corpus
  }

  predicate HasCorpus(cases: seq<Case>, category: string, n: nat, corpus: string)
    requires n <= |cases|
  {
    exists k :: 0 <= k < n && cases[k].category == category && cases[k].corpus == corpus
  }

  lemma UniqueStep(cases: seq<Case>, category: string, n: nat, corpus: string)
    requires n < |cases|
    requires HasCorpus(cases, category, n, corpus)
        <==> IndexOf(Unique(cases, category, n), corpus) < |Unique(cases, category, n)|
    ensures HasCorpus(cases, category, n + 1, corpus)
       <==> IndexOf(Unique(cases, category, n + 1), corpus) < |Unique(cases, category, n + 1)|
  {
    var prior, c := Unique(cases, category, n), cases[n];
    assert HasCorpus(cases, category, n + 1, corpus)
      <==> HasCorpus(cases, category, n, corpus) || (c.category == category && c.corpus == corpus);
    if c.category == category {
      PutCorpora(prior, c, corpus);
    }
  }

  lemma PutKeeps(unique: seq<Case>, c: Case)
    requires DistinctCorpora(unique)
    ensures DistinctCorpora(Put(unique, c))
    ensures forall d :: d in Put(unique, c) ==> d == c || d in unique
  {
  }

  lemma {:induction false} UniqueIs(cases: seq<Case>, category: string, n: nat)
    requires n <= |cases|
    ensures DistinctCorpora(Unique(cases, category, n))
    ensures forall c :: c in Unique(cases, category, n) ==> c in cases && c.category == category
    ensures forall corpus :: HasCorpus(cases, category, n, corpus)
                        <==> IndexOf(Unique(cases, category, n), corpus) < |Unique(cases, category, n)|
  {
    if n > 0 {
      UniqueIs(cases, category, n - 1);
      PutKeeps(Unique(cases, category, n - 1), cases[n - 1]);
      forall corpus
        ensures HasCorpus(cases, category, n, corpus)
           <==> IndexOf(Unique(cases, category, n), corpus) < |Unique(cases, category, n)|
      {
        UniqueStep(cases, category, n - 1, corpus);
      }
    }
  }

  lemma PutCorpora(unique: seq<Case>, c: Case, corpus: string)
    ensures IndexOf(Put(unique, c), corpus) < |Put(unique, c)|
       <==> IndexOf(unique, corpus) < |unique| || corpus == c.corpus
  {
    var put, i, j := Put(unique, c), IndexOf(unique, corpus), IndexOf(unique, c.corpus);
    if i < |unique| {
      assert put[i].corpus == corpus;
    }
    if corpus == c.corpus {
      assert if j < |unique| then put[j].corpus == corpus else put[|unique|].corpus == corpus;
    }
    var k := IndexOf(put, corpus);
    if k < |put| && corpus != c.corpus {
      assert put[k] == unique[k];
    }
  }

  // ---------------------------------------------------------------- rotation

  lemma MultiplesGap(q: nat, q': nat, n: nat)
    requires q < q'
    ensures q * n + n <= q' * n
  {
    assert q' * n == q * n + n + (q' - q - 1) * n;
  }

  lemma QuotientIsUnique(q: nat, r: nat, q': nat, r': nat, n: nat)
    requires q * n + r == q' * n + r' && r < n && r' < n
    ensures q == q' && r == r'
  {
    if q < q' {
      MultiplesGap(q, q', n);
    } else if q' < q {
      MultiplesGap(q', q, n);
    }
  }

  lemma ModUnique(a: nat, n: nat, q: nat, r: nat)
    requires n > 0 && a == q * n + r && r < n
    ensures a % n == r
  {
    QuotientIsUnique(a / n, a % n, q, r, n);
  }

  lemma ModAdd(s: nat, i: nat, n: nat)
    requires i < n
    ensures (s + i) % n == if s % n + i < n then s % n + i else s % n + i - n
  {
    var q, r := s / n, s % n;
    assert s == q * n + r;
    if r + i < n {
      ModUnique(s + i, n, q, r + i);
    } else {
      assert (q + 1) * n == q * n + n;
      ModUnique(s + i, n, q + 1, r + i - n);
    }
  }

  function Rotated(unique: seq<Case>, start: nat): (r: seq<Case>)
    ensures |r| == |unique|
    ensures forall i :: 0 <= i < |unique| ==> r[i] == unique[(start + i) % |unique|]
  {
    seq(|unique|, i requires 0 <= i < |unique| => unique[(start + i) % |unique|])
  }

  /** A rotation is the cases from some place on, and then those before it. */
  lemma RotatedIs(unique: seq<Case>, start: nat)
    requires unique != []
    ensures Rotated(unique, start) == unique[start % |unique|..] + unique[..start % |unique|]
  {
    var n := |unique|;
    forall i | 0 <= i < n
      ensures Rotated(unique, start)[i] == (unique[start % n..] + unique[..start % n])[i]
    {
      ModAdd(start, i, n);
    }
  }

  lemma SwappedHalves(unique: seq<Case>, r: nat)
    requires DistinctCorpora(unique) && r <= |unique|
    ensures multiset(unique[r..] + unique[..r]) == multiset(unique) && DistinctCorpora(unique[r..] + unique[..r])
  {
    assert unique == unique[..r] + unique[r..];
  }

  /** A rotation is a permutation, and keeps the corpora distinct. */
  lemma RotationPermutes(unique: seq<Case>, start: nat)
    requires DistinctCorpora(unique)
    ensures multiset(Rotated(unique, start)) == multiset(unique) && DistinctCorpora(Rotated(unique, start))
  {
    if unique != [] {
      RotatedIs(unique, start);
      SwappedHalves(unique, start % |unique|);
    }
  }

  // ---------------------------------------------------------------- windows

  /** What a category gives without staggering: a window of the rotation. */
  function Window(unique: seq<Case>, start: nat, size: nat): seq<Case> {
    Rotated(unique, start)[..Min(size, |unique|)]
  }

  lemma LaterWindow(unique: seq<Case>, start: nat, shift: nat, i: nat)
    requires shift + i < |unique|
    ensures Rotated(unique, start + shift)[i] == Rotated(unique, start)[shift + i]
  {
    assert start + shift + i == start + (shift + i);
  }

  ghost predicate SameCorpora(a: seq<Case>, b: seq<Case>) {
    exists i, j :: 0 <= i < |a| && 0 <= j < |b| && a[i].corpus == b[j].corpus
  }

  /** Where two windows are more than the corpora, the next one comes back to where this one starts. */
  lemma WindowsMeet(unique: seq<Case>, start: nat, size: nat)
    requires 0 < |unique| < 2 * size
    ensures SameCorpora(Window(unique, start, size), Window(unique, start + size, size))
  {
    var n := |unique|;
    var back: nat := if size < n then n - size else 0;
    if size < n {
      ModAdd(start + n, 0, n);
      ModUnique(start + n, n, start / n + 1, start % n);
      assert start + size + back == start + n;
      assert Window(unique, start, size)[0] == Window(unique, start + size, size)[back];
    } else {
      var other := (start + size) % n;
      AllInWindow(unique, start, size, other);
    }
  }

  /** A window as large as the corpora holds them all. */
  lemma AllInWindow(unique: seq<Case>, start: nat, size: nat, other: nat)
    requires other < |unique| <= size && other == (start + size) % |unique|
    ensures SameCorpora(Window(unique, start, size), Window(unique, start + size, size))
  {
    var n := |unique|;
    var i: nat := if other >= start % n then other - start % n else other + n - start % n;
    ModAdd(start, i, n);
    assert Window(unique, start, size)[i] == unique[other] == Window(unique, start + size, size)[0];
  }

  lemma WindowsAreApart(unique: seq<Case>, start: nat, size: nat)
    requires DistinctCorpora(unique) && 2 * size <= |unique|
    ensures !SameCorpora(Window(unique, start, size), Window(unique, start + size, size))
  {
    RotationPermutes(unique, start);
    var here, next := Window(unique, start, size), Window(unique, start + size, size);
    forall i, j | 0 <= i < |here| && 0 <= j < |next|
      ensures here[i].corpus != next[j].corpus
    {
      LaterWindow(unique, start, size, j);
    }
  }

  lemma InWindow(unique: seq<Case>, start: nat, size: nat, shift: nat, i: nat)
    requires shift + i < |unique| && i < size
    ensures Rotated(unique, start)[shift + i] in Window(unique, start + shift, size)
  {
    LaterWindow(unique, start, shift, i);
    assert Window(unique, start + shift, size)[i] == Rotated(unique, start + shift)[i];
  }

  function Times(t: nat, size: nat): nat { t * size }

  lemma Divide(j: nat, size: nat) returns (t: nat, i: nat)
    requires size > 0
    ensures j == Times(t, size) + i && i < size
  {
    t, i := j / size, j % size;
  }

  lemma PlaceInRotation(unique: seq<Case>, start: nat, c: Case) returns (j: nat)
    requires DistinctCorpora(unique) && c in unique
    ensures j < |unique| && Rotated(unique, start)[j] == c
  {
    RotationPermutes(unique, start);
    assert c in multiset(Rotated(unique, start));
    j :| 0 <= j < |unique| && Rotated(unique, start)[j] == c;
  }

  /** Windows that follow one another come to every corpus within one turn. */
  lemma WindowComes(unique: seq<Case>, start: nat, size: nat, c: Case) returns (t: nat)
    requires size > 0 && DistinctCorpora(unique) && c in unique
    ensures Times(t, size) < |unique| && c in Window(unique, start + Times(t, size), size)
  {
    var j := PlaceInRotation(unique, start, c);
    var i;
    t, i := Divide(j, size);
    InWindow(unique, start, size, Times(t, size), i);
  }

  // ---------------------------------------------------------------- staggering

  function Keep(cases: seq<Case>, used: set<string>, wanted: bool): seq<Case> {
    if cases == [] then []
    else (if (cases[0].corpus in used) == wanted then [cases[0]] else []) + Keep(cases[1..], used, wanted)
  }

  lemma {:induction false} KeepIs(cases: seq<Case>, used: set<string>, wanted: bool)
    ensures forall c :: c in Keep(cases, used, wanted) <==> c in cases && ((c.corpus in used) == wanted)
    ensures DistinctCorpora(cases) ==> DistinctCorpora(Keep(cases, used, wanted))
  {
    if cases != [] {
      KeepIs(cases[1..], used, wanted);
      var rest := Keep(cases[1..], used, wanted);
      assert cases == [cases[0]] + cases[1..];
      if DistinctCorpora(cases) {
        forall j | 0 <= j < |rest|
          ensures rest[j].corpus != cases[0].corpus
        {
          assert rest[j] in rest;
          var k :| 0 <= k < |cases[1..]| && cases[1..][k] == rest[j];
          assert cases[k + 1] == rest[j];
        }
      }
    }
  }

  /** The unused first, then the used ones. */
  function Ordered(rotated: seq<Case>, used: set<string>, stagger: bool): seq<Case> {
    if stagger then Keep(rotated, used, false) + Keep(rotated, used, true) else rotated
  }

  lemma {:induction false} KeepCounts(cases: seq<Case>, used: set<string>)
    ensures multiset(Keep(cases, used, false)) + multiset(Keep(cases, used, true)) == multiset(cases)
  {
    if cases != [] {
      KeepCounts(cases[1..], used);
      assert cases == [cases[0]] + cases[1..];
    }
  }

  lemma OrderedIs(rotated: seq<Case>, used: set<string>, stagger: bool)
    requires DistinctCorpora(rotated)
    ensures multiset(Ordered(rotated, used, stagger)) == multiset(rotated)
         && |Ordered(rotated, used, stagger)| == |rotated|
    ensures DistinctCorpora(Ordered(rotated, used, stagger))
  {
    if stagger {
      KeepIs(rotated, used, false);
      KeepIs(rotated, used, true);
      KeepCounts(rotated, used);
      var a, b := Keep(rotated, used, false), Keep(rotated, used, true);
      assert multiset(a + b) == multiset(rotated);
      assert |multiset(a + b)| == |a + b| && |multiset(rotated)| == |rotated|;
      forall i, j | 0 <= i < |a| && 0 <= j < |b|
        ensures a[i].corpus != b[j].corpus
      {
        assert a[i] in a && b[j] in b;
      }
    }
  }

  /** What a category gives. */
  function Chosen(unique: seq<Case>, start: nat, size: nat, used: set<string>, stagger: bool): seq<Case> {
    var ordered := Ordered(Rotated(unique, start), used, stagger);
    ordered[..Min(Min(size, |unique|), |ordered|)]
  }

  /** Without staggering this is a window. */
  lemma ChosenIsWindow(unique: seq<Case>, start: nat, size: nat, used: set<string>)
    ensures Chosen(unique, start, size, used, false) == Window(unique, start, size)
  {
  }

  /** A category gives as many cases as asked for, or one for each of its corpora, and none twice. */
  lemma ChosenIs(unique: seq<Case>, start: nat, size: nat, used: set<string>, stagger: bool)
    requires DistinctCorpora(unique)
    ensures |Chosen(unique, start, size, used, stagger)| == Min(size, |unique|)
    ensures DistinctCorpora(Chosen(unique, start, size, used, stagger))
    ensures forall c :: c in Chosen(unique, start, size, used, stagger) ==> c in unique
  {
    RotationPermutes(unique, start);
    OrderedIs(Rotated(unique, start), used, stagger);
    var ordered := Ordered(Rotated(unique, start), used, stagger);
    forall c | c in Chosen(unique, start, size, used, stagger)
      ensures c in unique
    {
      assert c in multiset(ordered) && c in multiset(unique);
    }
  }

  lemma UsedIsBehind(unused: seq<Case>, rest: seq<Case>, used: set<string>, j: nat)
    requires forall c :: c in unused ==> c.corpus !in used
    requires j < |unused + rest| && (unused + rest)[j].corpus in used
    ensures j >= |unused|
  {
    forall i | 0 <= i < |unused|
      ensures (unused + rest)[i].corpus !in used
    {
      assert unused[i] in unused;
    }
  }

  /** Staggered, a category gives a corpus used before only once it has given all others. */
  lemma UnusedComeFirst(unique: seq<Case>, start: nat, size: nat, used: set<string>, c: Case, d: Case)
    requires DistinctCorpora(unique) && c in Chosen(unique, start, size, used, true) && c.corpus in used
    requires d in unique && d.corpus !in used
    ensures d in Chosen(unique, start, size, used, true)
  {
    RotationPermutes(unique, start);
    var rotated := Rotated(unique, start);
    KeepIs(rotated, used, false);
    var unused, chosen := Keep(rotated, used, false), Chosen(unique, start, size, used, true);
    assert d in multiset(rotated);
    var i :| 0 <= i < |unused| && unused[i] == d;
    var j :| 0 <= j < |chosen| && chosen[j] == c;
    UsedIsBehind(unused, Keep(rotated, used, true), used, j);
    assert chosen[i] == unused[i];
  }

  // ---------------------------------------------------------------- the sample

  function Categories(cases: seq<Case>, n: nat): seq<string>
    requires n <= |cases|
  {
    if n == 0 then []
    else
      var prior := Categories(cases, n - 1);
      if cases[n - 1].category in prior then prior else prior + [cases[n - 1].category]
  }

  function Corpora(cases: seq<Case>): set<string> { set c | c in cases :: c.corpus }

  function StartOf(offset: nat, index: nat, size: nat,
                   stagger: bool): nat { offset + if stagger then index * size else 0 }

  function TakenOf(cases: seq<Case>, category: string, start: nat, size: nat, used: set<string>,
                   stagger: bool): seq<Case> {
    var unique := Unique(cases, category, |cases|);
    if unique == [] then [] else Chosen(unique, start, size, used, stagger)
  }

  /** What each category gives, by its index and the corpora used before it. */
  type Parts = (nat, set<string>) -> seq<Case>

  function PartsOf(cases: seq<Case>, size: nat, offset: nat, stagger: bool): Parts {
    (index: nat, used: set<string>) =>
      var categories := Categories(cases, |cases|);
      if index < |categories| then
        TakenOf(cases, categories[index], StartOf(offset, index, size, stagger), size, used, stagger)
      else []
  }

  /** The sample of the first `n` categories and the corpora it uses. */
  function Collected(parts: Parts, n: nat): (seq<Case>, set<string>) {
    if n == 0 then ([], {})
    else
      var prior := Collected(parts, n - 1);
      var chosen := parts(n - 1, prior.1);
      (prior.0 + chosen, prior.1 + Corpora(chosen))
  }

  function Sample(cases: seq<Case>, size: nat, offset: nat, stagger: bool): seq<Case> {
    Collected(PartsOf(cases, size, offset, stagger), |Categories(cases, |cases|)|).0
  }

  lemma PartsAt(cases: seq<Case>, size: nat, offset: nat, stagger: bool, i: nat, used: set<string>)
    requires i < |Categories(cases, |cases|)|
    ensures PartsOf(cases, size, offset, stagger)(i, used)
         == TakenOf(cases, Categories(cases, |cases|)[i], StartOf(offset, i, size, stagger), size, used, stagger)
  {
  }

  lemma CollectedNext(parts: Parts, n: nat, chosen: seq<Case>)
    requires chosen == parts(n, Collected(parts, n).1)
    ensures Collected(parts, n + 1) == (Collected(parts, n).0 + chosen, Collected(parts, n).1 + Corpora(chosen))
  {
  }

  method SampleByCategory(cases: seq<Case>, size: nat, offset: nat, stagger: bool) returns (sample: seq<Case>)
    ensures sample == Sample(cases, size, offset, stagger)
  {
    var categories := Categories(cases, |cases|);
    ghost var parts := PartsOf(cases, size, offset, stagger);
    var used: set<string> := {};
    sample := [];
    for i := 0 to |categories|
      invariant (sample, used) == Collected(parts, i)
    {
      var chosen := TakeCategory(cases, categories[i], StartOf(offset, i, size, stagger), size, used, stagger);
      PartsAt(cases, size, offset, stagger, i, used);
      CollectedNext(parts, i, chosen);
      used := used + Corpora(chosen);
      sample := sample + chosen;
    }
  }

  method TakeCategory(cases: seq<Case>, category: string, start: nat, size: nat, used: set<string>, stagger: bool)
    returns (chosen: seq<Case>)
    ensures chosen == TakenOf(cases, category, start, size, used, stagger)
  {
    var unique := Unique(cases, category, |cases|);
    if unique == [] {
      return [];
    }
    var rotated := Rotated(unique, start);
    var ordered := if stagger then Keep(rotated, used, false) + Keep(rotated, used, true) else rotated;
    chosen := ordered[..Min(Min(size, |unique|), |ordered|)];
  }

  function OfCategory(cases: seq<Case>, category: string): seq<Case> {
    if cases == [] then []
    else (if cases[0].category == category then [cases[0]] else []) + OfCategory(cases[1..], category)
  }

  lemma {:induction false} OfCategoryConcat(a: seq<Case>, b: seq<Case>, category: string)
    ensures OfCategory(a + b, category) == OfCategory(a, category) + OfCategory(b, category)
  {
    if a == [] {
      assert a + b == b;
    } else {
      OfCategoryConcat(a[1..], b, category);
      assert (a + b)[1..] == a[1..] + b && (a + b)[0] == a[0];
      var head := if a[0].category == category then [a[0]] else [];
      var p, q := OfCategory(a[1..], category), OfCategory(b, category);
      assert head + (p + q) == (head + p) + q;
    }
  }

  lemma {:induction false} AllOfCategory(cases: seq<Case>, category: string, wanted: string)
    requires forall c :: c in cases ==> c.category == category
    ensures OfCategory(cases, wanted) == if wanted == category then cases else []
  {
    if cases != [] {
      assert cases[0] in cases && forall c :: c in cases[1..] ==> c in cases;
      AllOfCategory(cases[1..], category, wanted);
    }
  }

  lemma {:induction false} CategoriesAre(cases: seq<Case>, n: nat)
    requires n <= |cases|
    ensures forall i, j :: 0 <= i < j < |Categories(cases, n)| ==> Categories(cases, n)[i] != Categories(cases, n)[j]
    ensures forall k :: 0 <= k < n ==> cases[k].category in Categories(cases, n)
  {
    if n > 0 {
      CategoriesAre(cases, n - 1);
    }
  }

  ghost predicate IsPart(cases: seq<Case>, size: nat, category: string, part: seq<Case>) {
    && |part| == Min(size, |Unique(cases, category, |cases|)|) && DistinctCorpora(part)
    && forall c :: c in part ==> c in cases && c.category == category
  }

  lemma TakenIsPart(cases: seq<Case>, category: string, start: nat, size: nat, used: set<string>, stagger: bool)
    ensures IsPart(cases, size, category, TakenOf(cases, category, start, size, used, stagger))
  {
    UniqueIs(cases, category, |cases|);
    if Unique(cases, category, |cases|) != [] {
      ChosenIs(Unique(cases, category, |cases|), start, size, used, stagger);
    }
  }

  ghost predicate OfCategories(parts: Parts, categories: seq<string>) {
    && (forall i, j :: 0 <= i < j < |categories| ==> categories[i] != categories[j])
    && forall k: nat, used :: k < |categories| ==> Only(parts(k, used), categories[k])
  }

  ghost predicate Only(part: seq<Case>, category: string) { forall c :: c in part ==> c.category == category }

  /** What the first `n` categories give of the category at `index`. */
  function Given(parts: Parts, categories: seq<string>, n: nat, index: nat): seq<Case>
    requires index < |categories|
  {
    OfCategory(Collected(parts, n).0, categories[index])
  }

  lemma GivenStep(parts: Parts, categories: seq<string>, n: nat, index: nat)
    requires OfCategories(parts, categories) && n < |categories| && index < |categories|
    ensures index != n ==> Given(parts, categories, n + 1, index) == Given(parts, categories, n, index)
    ensures Given(parts, categories, n + 1, n) == Given(parts, categories, n, n) + parts(n, Collected(parts, n).1)
  {
    var prior, part := Collected(parts, n).0, parts(n, Collected(parts, n).1);
    assert Only(part, categories[n]);
    CollectedNext(parts, n, part);
    OfCategoryConcat(prior, part, categories[index]);
    AllOfCategory(part, categories[n], categories[index]);
    OfCategoryConcat(prior, part, categories[n]);
    AllOfCategory(part, categories[n], categories[n]);
  }

  lemma {:induction false} NotYetGiven(parts: Parts, categories: seq<string>, n: nat, index: nat)
    requires OfCategories(parts, categories) && n <= index < |categories|
    ensures Given(parts, categories, n, index) == []
  {
    if n > 0 {
      NotYetGiven(parts, categories, n - 1, index);
      GivenStep(parts, categories, n - 1, index);
    }
  }

  lemma GivenAtOnce(parts: Parts, categories: seq<string>, index: nat)
    requires OfCategories(parts, categories) && index < |categories|
    ensures Given(parts, categories, index + 1, index) == parts(index, Collected(parts, index).1)
  {
    NotYetGiven(parts, categories, index, index);
    GivenStep(parts, categories, index, index);
    var part := parts(index, Collected(parts, index).1);
    assert [] + part == part;
  }

  /** What the collection holds of a category is what the category gave. */
  lemma {:induction false} CollectedOfCategory(parts: Parts, categories: seq<string>, n: nat, index: nat)
    requires OfCategories(parts, categories) && index < n <= |categories|
    ensures Given(parts, categories, n, index) == parts(index, Collected(parts, index).1)
  {
    if index == n - 1 {
      GivenAtOnce(parts, categories, index);
    } else {
      GivenStep(parts, categories, n - 1, index);
      CollectedOfCategory(parts, categories, n - 1, index);
    }
  }

  lemma PartsAreOfCategories(cases: seq<Case>, size: nat, offset: nat, stagger: bool)
    ensures OfCategories(PartsOf(cases, size, offset, stagger), Categories(cases, |cases|))
  {
    var parts, categories := PartsOf(cases, size, offset, stagger), Categories(cases, |cases|);
    CategoriesAre(cases, |cases|);
    forall k: nat, used: set<string> | k < |categories|
      ensures Only(parts(k, used), categories[k])
    {
      TakenIsPart(cases, categories[k], StartOf(offset, k, size, stagger), size, used, stagger);
    }
  }

  /** What the sample holds of a category is what the category gave, by its index and the corpora used before it. */
  lemma SampleOfCategory(cases: seq<Case>, size: nat, offset: nat, stagger: bool, category: string)
    returns (index: nat, used: set<string>)
    requires category in Categories(cases, |cases|)
    ensures OfCategory(Sample(cases, size, offset, stagger), category)
         == TakenOf(cases, category, StartOf(offset, index, size, stagger), size, used, stagger)
  {
    var parts, categories := PartsOf(cases, size, offset, stagger), Categories(cases, |cases|);
    index :| 0 <= index < |categories| && categories[index] == category;
    used := Collected(parts, index).1;
    PartsAreOfCategories(cases, size, offset, stagger);
    CollectedOfCategory(parts, categories, |categories|, index);
    PartsAt(cases, size, offset, stagger, index, used);
  }

  /** Of every category the sample holds as many cases as asked for, or one for each of its corpora, of different
      corpora. */
  lemma SampleIsFair(cases: seq<Case>, size: nat, offset: nat, stagger: bool, category: string)
    requires category in Categories(cases, |cases|)
    ensures IsPart(cases, size, category, OfCategory(Sample(cases, size, offset, stagger), category))
  {
    var index, used := SampleOfCategory(cases, size, offset, stagger, category);
    TakenIsPart(cases, category, StartOf(offset, index, size, stagger), size, used, stagger);
  }

  lemma {:induction false} CollectedUses(parts: Parts, n: nat)
    ensures Collected(parts, n).1 == Corpora(Collected(parts, n).0)
  {
    if n > 0 {
      CollectedUses(parts, n - 1);
    }
  }

  lemma {:induction false} CollectedSplit(parts: Parts, i: nat, n: nat) returns (after: seq<Case>)
    requires i < n
    ensures Collected(parts, n).0 == Collected(parts, i).0 + parts(i, Collected(parts, i).1) + after
  {
    if i == n - 1 {
      after := [];
    } else {
      var front := CollectedSplit(parts, i, n - 1);
      after := front + parts(n - 1, Collected(parts, n - 1).1);
    }
  }

  /** The rotation, with the corpora not used first. */
  function UnusedFirst(unique: seq<Case>, start: nat, used: set<string>): seq<Case> {
    Keep(Rotated(unique, start), used, false) + Keep(Rotated(unique, start), used, true)
  }

  lemma ChosenIsFront(unique: seq<Case>, start: nat, size: nat, used: set<string>)
    requires DistinctCorpora(unique)
    ensures |UnusedFirst(unique, start, used)| == |unique|
    ensures Chosen(unique, start, size, used, true) == UnusedFirst(unique, start, used)[..Min(size, |unique|)]
  {
    RotationPermutes(unique, start);
    OrderedIs(Rotated(unique, start), used, true);
  }

  lemma TakenIsFront(cases: seq<Case>, category: string, start: nat, size: nat, used: set<string>)
    ensures var unique := Unique(cases, category, |cases|);
            && |UnusedFirst(unique, start, used)| == |unique|
            && TakenOf(cases, category, start, size, used, true)
                == UnusedFirst(unique, start, used)[..Min(size, |unique|)]
  {
    UniqueIs(cases, category, |cases|);
    ChosenIsFront(Unique(cases, category, |cases|), start, size, used);
  }

  /** A sample is what came before a category, what the category gives with the corpora used so far, and the rest. */
  lemma SampleSplits(cases: seq<Case>, size: nat, offset: nat, stagger: bool, i: nat)
    returns (before: seq<Case>, after: seq<Case>)
    requires i < |Categories(cases, |cases|)|
    ensures Sample(cases, size, offset, stagger)
         == before + TakenOf(cases, Categories(cases, |cases|)[i], StartOf(offset, i, size, stagger), size,
                             Corpora(before), stagger) + after
    ensures before == Collected(PartsOf(cases, size, offset, stagger), i).0
  {
    var parts := PartsOf(cases, size, offset, stagger);
    before := Collected(parts, i).0;
    CollectedUses(parts, i);
    after := CollectedSplit(parts, i, |Categories(cases, |cases|)|);
    PartsAt(cases, size, offset, stagger, i, Corpora(before));
  }

  /** Every category starts where the sample does, or, staggered, one window further on for each category before it. */
  lemma {:induction false} StartMoves(offset: nat, i: nat, size: nat)
    ensures StartOf(offset, i, size, false) == offset && StartOf(offset, 0, size, true) == offset
    ensures StartOf(offset, i + 1, size, true) == StartOf(offset, i, size, true) + size
  {
    assert (i + 1) * size == i * size + size;
  }

  /** Staggered, a category gives of its rotation the corpora that the categories before it have not given, then the
      others, as many as asked for. */
  lemma StaggeredSampleIs(cases: seq<Case>, size: nat, offset: nat, i: nat, start: nat)
    returns (before: seq<Case>, after: seq<Case>)
    requires i < |Categories(cases, |cases|)| && start == StartOf(offset, i, size, true)
    ensures var unique := Unique(cases, Categories(cases, |cases|)[i], |cases|);
            && |UnusedFirst(unique, start, Corpora(before))| == |unique|
            && Sample(cases, size, offset, true)
                == before + UnusedFirst(unique, start, Corpora(before))[..Min(size, |unique|)] + after
    ensures before == Collected(PartsOf(cases, size, offset, true), i).0
  {
    before, after := SampleSplits(cases, size, offset, true, i);
    TakenIsFront(cases, Categories(cases, |cases|)[i], start, size, Corpora(before));
  }

  /** Of every category the sample without staggering holds the window at the offset. */
  lemma SampleIsWindow(cases: seq<Case>, size: nat, offset: nat, category: string)
    requires category in Categories(cases, |cases|)
    ensures OfCategory(Sample(cases, size, offset, false), category)
         == Window(Unique(cases, category, |cases|), offset, size)
  {
    var index, used := SampleOfCategory(cases, size, offset, false, category);
    ChosenIsWindow(Unique(cases, category, |cases|), offset, size, used);
  }

  lemma {:induction false} CategoryHasCase(cases: seq<Case>, n: nat, category: string) returns (k: nat)
    requires n <= |cases| && category in Categories(cases, n)
    ensures k < n && cases[k].category == category
  {
    if category in Categories(cases, n - 1) {
      k := CategoryHasCase(cases, n - 1, category);
    } else {
      k := n - 1;
    }
  }

  /** One sample after the other repeats no corpus of a category exactly when the category has enough for both. */
  lemma SamplesAreApartExactlyWhen(cases: seq<Case>, size: nat, offset: nat, category: string)
    requires category in Categories(cases, |cases|)
    ensures !SameCorpora(OfCategory(Sample(cases, size, offset, false), category),
                         OfCategory(Sample(cases, size, offset + size, false), category))
       <==> 2 * size <= |Unique(cases, category, |cases|)|
  {
    var unique := Unique(cases, category, |cases|);
    SampleIsWindow(cases, size, offset, category);
    SampleIsWindow(cases, size, offset + size, category);
    UniqueIs(cases, category, |cases|);
    var k := CategoryHasCase(cases, |cases|, category);
    assert HasCorpus(cases, category, |cases|, cases[k].corpus);
    if 2 * size <= |unique| {
      WindowsAreApart(unique, offset, size);
    } else {
      WindowsMeet(unique, offset, size);
    }
  }

  /** The sample `t` samples on holds the corpus in the category. */
  predicate InTurn(cases: seq<Case>, size: nat, offset: nat, t: nat, category: string, corpus: string) {
    exists d :: d in OfCategory(Sample(cases, size, offset + Times(t, size), false), category) && d.corpus == corpus
  }

  /** Samples that follow one another come to every corpus of every category, within one turn of its corpora. */
  lemma SamplesCover(cases: seq<Case>, size: nat, offset: nat, c: Case) returns (t: nat)
    requires size > 0 && c in cases
    ensures InTurn(cases, size, offset, t, c.category, c.corpus)
    ensures Times(t, size) < |Unique(cases, c.category, |cases|)|
  {
    var unique := Unique(cases, c.category, |cases|);
    var k :| 0 <= k < |cases| && cases[k] == c;
    CategoriesAre(cases, |cases|);
    UniqueIs(cases, c.category, |cases|);
    assert HasCorpus(cases, c.category, |cases|, c.corpus);
    var d := unique[IndexOf(unique, c.corpus)];
    t := WindowComes(unique, offset, size, d);
    SampleIsWindow(cases, size, offset + Times(t, size), c.category);
    assert d.corpus == c.corpus;
  }
}
