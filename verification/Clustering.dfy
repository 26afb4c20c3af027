/** Clustering of memories by similarity: seeds with a quota of nearest memories each, and a merge of similar clusters.
    Memories are their indices. The vectors are kept in a map by content and listed from it, so the vector at an index
    is that of the content which came up in this place, and the last indices have none where contents repeat. */
module Clustering {
  import opened Common

  /** The similarity of two vectors: never negative, as neither term counts nor their weights are. */
  ghost predicate Similarity(sim: (nat, nat) -> real) { forall j, k :: sim(j, k) >= 0.0 }

  // ---------------------------------------------------------------- the vectors

  /** How alike the vectors of two contents are. */
  type Likeness = (string, string) -> real

  ghost predicate NotNegative(like: Likeness) { forall a, b :: like(a, b) >= 0.0 }

  /** The contents that have a vector, in the order in which they first come up among the first `n`. */
  function Firsts(contents: seq<string>, n: nat): seq<string>
    requires n <= |contents|
  {
    if n == 0 then []
    else
      var prior := Firsts(contents, n - 1);
      if contents[n - 1] in prior then prior else prior + [contents[n - 1]]
  }

  function Vectors(contents: seq<string>): seq<string> { Firsts(contents, |contents|) }

  /** The similarity by index, as the clustering looks it up. */
  function ByIndex(like: Likeness, vectors: seq<string>): (nat, nat) -> real {
    (j: nat, k: nat) => if j < |vectors| && k < |vectors| then like(vectors[j], vectors[k]) else 0.0
  }

  method ListVectors(contents: seq<string>) returns (vectors: seq<string>)
    ensures vectors == Vectors(contents)
  {
    vectors := [];
    for i := 0 to |contents|
      invariant vectors == Firsts(contents, i)
    {
      if contents[i] !in vectors {
        vectors := vectors + [contents[i]];
      }
    }
  }

  /** The first `n` contents are pairwise different. */
  ghost predicate Differ(contents: seq<string>, n: nat)
    requires n <= |contents|
  {
    forall i, j :: 0 <= i < j < n ==> contents[i] != contents[j]
  }

  /** Every vector stands at the index of a memory with its content. */
  ghost predicate Aligned(contents: seq<string>) {
    |Vectors(contents)| <= |contents|
    && forall k :: 0 <= k < |Vectors(contents)| ==> Vectors(contents)[k] == contents[k]
  }

  lemma {:induction false} FirstsAre(contents: seq<string>, n: nat)
    requires n <= |contents|
    ensures |Firsts(contents, n)| <= n && Differ(Firsts(contents, n), |Firsts(contents, n)|)
    ensures forall i :: 0 <= i < n ==> contents[i] in Firsts(contents, n)
  {
    if n > 0 {
      FirstsAre(contents, n - 1);
    }
  }

  lemma {:induction false} FirstsGrow(contents: seq<string>, m: nat, n: nat)
    requires m <= n <= |contents|
    ensures Firsts(contents, m) <= Firsts(contents, n)
  {
    if m < n {
      FirstsGrow(contents, m, n - 1);
    }
  }

  lemma {:induction false} DifferentAreFirsts(contents: seq<string>, n: nat)
    requires n <= |contents| && Differ(contents, n)
    ensures Firsts(contents, n) == contents[..n]
  {
    if n > 0 {
      DifferentAreFirsts(contents, n - 1);
      assert contents[..n] == contents[..n - 1] + [contents[n - 1]];
    }
  }

  /** The vectors stand at the indices of their memories exactly when as many first contents as there are vectors are
      pairwise different. */
  lemma AlignedExactlyWhen(contents: seq<string>)
    ensures |Vectors(contents)| <= |contents|
    ensures Aligned(contents) <==> Differ(contents, |Vectors(contents)|)
  {
    var v := |Vectors(contents)|;
    FirstsAre(contents, |contents|);
    if Aligned(contents) {
      forall i, j | 0 <= i < j < v
        ensures contents[i] != contents[j]
      {
        assert Vectors(contents)[i] != Vectors(contents)[j];
      }
    }
    if Differ(contents, v) {
      DifferentAreFirsts(contents, v);
      FirstsGrow(contents, v, |contents|);
    }
  }

  lemma {:induction false} ShorterWhereRepeated(contents: seq<string>, n: nat, i: nat, j: nat)
    requires i < j < n <= |contents| && contents[i] == contents[j]
    ensures |Firsts(contents, n)| < n
  {
    FirstsAre(contents, n - 1);
    if j < n - 1 {
      ShorterWhereRepeated(contents, n - 1, i, j);
    }
  }

  /** Every memory has a vector at its index exactly when all contents are different. */
  lemma AllHaveVectorsExactlyWhen(contents: seq<string>)
    ensures |Vectors(contents)| == |contents| <==> Differ(contents, |contents|)
  {
    if Differ(contents, |contents|) {
      DifferentAreFirsts(contents, |contents|);
    } else {
      var i, j :| 0 <= i < j < |contents| && contents[i] == contents[j];
      ShorterWhereRepeated(contents, |contents|, i, j);
    }
  }

  // ---------------------------------------------------------------- the quota

  /** The ceiling of a quotient. */
  function CeilDiv(a: nat, b: nat): nat
    requires b > 0
  {
    if a == 0 then 0 else if a <= b then 1 else 1 + CeilDiv(a - b, b)
  }

  lemma {:induction false} CeilDivBounds(a: nat, b: nat)
    requires b > 0
    ensures a <= CeilDiv(a, b) * b < a + b
  {
    if a > b {
      CeilDivBounds(a - b, b);
      assert (1 + CeilDiv(a - b, b)) * b == b + CeilDiv(a - b, b) * b;
    }
  }

  /** With at least as many memories left besides the next seed as clusters, the quota leaves as many for the clusters
      behind. */
  lemma {:induction false} QuotaLeavesEnough(left: nat, clusters: nat)
    requires left >= clusters > 0
    ensures 1 <= CeilDiv(left, clusters) <= left - (clusters - 1)
    ensures clusters == 1 ==> CeilDiv(left, clusters) == left
  {
    if left > clusters {
      if left - clusters >= clusters {
        QuotaLeavesEnough(left - clusters, clusters);
      }
    }
  }

  // ---------------------------------------------------------------- candidates

  /** The memories below `v` that are not assigned. */
  function Unassigned(v: nat, taken: set<nat>): seq<nat> {
    if v == 0 then [] else Unassigned(v - 1, taken) + if v - 1 in taken then [] else [v - 1]
  }

  ghost predicate Distinct(s: seq<nat>) { forall i, j :: 0 <= i < j < |s| ==> s[i] != s[j] }

  lemma {:induction false} UnassignedAre(v: nat, taken: set<nat>)
    ensures forall k: nat :: k in Unassigned(v, taken) <==> k < v && k !in taken
    ensures Distinct(Unassigned(v, taken))
  {
    if v > 0 {
      UnassignedAre(v - 1, taken);
    }
  }

  function Below(v: nat): set<nat> { if v == 0 then {} else Below(v - 1) + {v - 1} }

  lemma {:induction false} BelowIs(v: nat)
    ensures |Below(v)| == v && forall k: nat :: k in Below(v) <==> k < v
  {
    if v > 0 {
      BelowIs(v - 1);
      assert v - 1 !in Below(v - 1);
    }
  }

  function Members(cluster: seq<nat>): set<nat> { set k | k in cluster }

  lemma {:induction false} MembersCount(cluster: seq<nat>)
    requires Distinct(cluster)
    ensures |Members(cluster)| == |cluster|
  {
    if cluster == [] {
      assert Members([]) == {};
    } else {
      MembersCount(cluster[1..]);
      assert cluster == [cluster[0]] + cluster[1..];
      assert Members(cluster) == Members(cluster[1..]) + {cluster[0]};
    }
  }

  lemma UnassignedCount(n: nat, taken: set<nat>)
    requires taken <= Below(n)
    ensures |Unassigned(n, taken)| == n - |taken|
  {
    BelowIs(n);
    UnassignedAre(n, taken);
    MembersCount(Unassigned(n, taken));
    assert Members(Unassigned(n, taken)) == Below(n) - taken;
  }

  function Place(sim: nat -> real, sorted: seq<nat>, k: nat): seq<nat> {
    if sorted == [] || sim(k) <= sim(sorted[|sorted| - 1]) then sorted + [k]
    else Place(sim, sorted[..|sorted| - 1], k) + [sorted[|sorted| - 1]]
  }

  /** The memories by falling similarity, in their order where it is the same. */
  function ByFalling(sim: nat -> real, s: seq<nat>): seq<nat> {
    if s == [] then [] else Place(sim, ByFalling(sim, s[..|s| - 1]), s[|s| - 1])
  }

  ghost predicate Falling(sim: nat -> real, s: seq<nat>) {
    forall i, j :: 0 <= i < j < |s| ==> sim(s[i]) >= sim(s[j])
  }

  lemma {:induction false} PlaceKeeps(sim: nat -> real, sorted: seq<nat>, k: nat)
    ensures multiset(Place(sim, sorted, k)) == multiset(sorted) + multiset{k}
    decreases |sorted|
  {
    if sorted != [] && sim(k) > sim(sorted[|sorted| - 1]) {
      PlaceKeeps(sim, sorted[..|sorted| - 1], k);
      assert sorted == sorted[..|sorted| - 1] + [sorted[|sorted| - 1]];
    }
  }

  lemma LastStaysLast(sim: nat -> real, sorted: seq<nat>, k: nat, front: seq<nat>)
    requires Falling(sim, sorted) && sorted != [] && sim(k) > sim(sorted[|sorted| - 1])
    requires multiset(front) == multiset(sorted[..|sorted| - 1]) + multiset{k}
    ensures forall i :: 0 <= i < |front| ==> sim(front[i]) >= sim(sorted[|sorted| - 1])
  {
    forall i | 0 <= i < |front|
      ensures sim(front[i]) >= sim(sorted[|sorted| - 1])
    {
      assert front[i] in multiset(front);
      if front[i] != k {
        var j :| 0 <= j < |sorted| - 1 && sorted[j] == front[i];
      }
    }
  }

  lemma {:induction false} PlaceFalls(sim: nat -> real, sorted: seq<nat>, k: nat)
    requires Falling(sim, sorted)
    ensures Falling(sim, Place(sim, sorted, k))
    decreases |sorted|
  {
    if sorted != [] && sim(k) > sim(sorted[|sorted| - 1]) {
      PlaceFalls(sim, sorted[..|sorted| - 1], k);
      PlaceKeeps(sim, sorted[..|sorted| - 1], k);
      LastStaysLast(sim, sorted, k, Place(sim, sorted[..|sorted| - 1], k));
    }
  }

  lemma {:induction false} ByFallingIs(sim: nat -> real, s: seq<nat>)
    ensures Falling(sim, ByFalling(sim, s)) && multiset(ByFalling(sim, s)) == multiset(s) && |ByFalling(sim, s)| == |s|
    decreases |s|
  {
    if s != [] {
      ByFallingIs(sim, s[..|s| - 1]);
      PlaceFalls(sim, ByFalling(sim, s[..|s| - 1]), s[|s| - 1]);
      PlaceKeeps(sim, ByFalling(sim, s[..|s| - 1]), s[|s| - 1]);
      assert s == s[..|s| - 1] + [s[|s| - 1]];
    }
    assert |multiset(ByFalling(sim, s))| == |ByFalling(sim, s)| && |multiset(s)| == |s|;
  }

  lemma DistinctByMultiset(a: seq<nat>, b: seq<nat>)
    requires multiset(a) == multiset(b) && Distinct(b)
    ensures Distinct(a) && forall k :: k in a <==> k in b
  {
    forall k
      ensures k in a <==> k in b
    {
      assert k in multiset(a) <==> k in multiset(b);
    }
    forall i, j | 0 <= i < j < |a|
      ensures a[i] != a[j]
    {
      if a[i] == a[j] {
        assert a == a[..i] + [a[i]] + a[i + 1..j] + [a[j]] + a[j + 1..];
        assert multiset(a)[a[i]] >= 2;
        AtMostOnce(b, a[i]);
      }
    }
  }

  lemma {:induction false} AtMostOnce(s: seq<nat>, k: nat)
    requires Distinct(s)
    ensures multiset(s)[k] <= 1
  {
    if s != [] {
      AtMostOnce(s[1..], k);
      assert s == [s[0]] + s[1..];
      if s[0] == k {
        assert k !in s[1..];
      }
    }
  }

  // ---------------------------------------------------------------- one cluster

  /** The sum, over which the mean is taken, of how similar a memory is to all that are not assigned, itself among them;
      nothing for one without a vector. */
  function Density(sim: (nat, nat) -> real, v: nat, taken: set<nat>, j: nat, k: nat): real {
    if k == 0 then 0.0
    else Density(sim, v, taken, j, k - 1) + if k - 1 in taken || j >= v then 0.0 else sim(j, k - 1)
  }

  function SumOf(sim: nat -> real, ks: seq<nat>): real {
    if ks == [] then 0.0 else SumOf(sim, ks[..|ks| - 1]) + sim(ks[|ks| - 1])
  }

  /** The density of a memory with a vector is the sum of its similarities to the vectors that are not assigned. */
  lemma {:induction false} DensityIs(sim: (nat, nat) -> real, v: nat, taken: set<nat>, j: nat, k: nat)
    ensures j < v ==> Density(sim, v, taken, j, k) == SumOf(ToSeed(sim, j), Unassigned(k, taken))
    ensures j >= v ==> Density(sim, v, taken, j, k) == 0.0
  {
    if k > 0 {
      DensityIs(sim, v, taken, j, k - 1);
      var front := Unassigned(k - 1, taken);
      assert (front + [k - 1])[..|front|] == front;
      assert front + [] == front;
    }
  }

  lemma {:induction false} DensityNotNegative(sim: (nat, nat) -> real, v: nat, taken: set<nat>, j: nat, k: nat)
    requires Similarity(sim)
    ensures Density(sim, v, taken, j, k) >= 0.0
  {
    if k > 0 {
      DensityNotNegative(sim, v, taken, j, k - 1);
    }
  }

  /** The densest memory that is not taken, the first of them: there always is one. */
  method Seed(sim: (nat, nat) -> real, n: nat, v: nat, taken: set<nat>) returns (seed: nat)
    requires Similarity(sim) && v <= n && taken < Below(n)
    ensures seed < n && seed !in taken
    ensures forall j: nat :: j < n && j !in taken ==> Density(sim, v, taken, j, v) <= Density(sim, v, taken, seed, v)
    ensures forall j: nat :: j < seed && j !in taken ==> Density(sim, v, taken, j, v) < Density(sim, v, taken, seed, v)
  {
    BelowIs(n);
    ghost var free :| free in Below(n) && free !in taken;
    var found, best := -1, -1.0;
    for j := 0 to n
      invariant -1 <= found < j
      invariant found == -1 ==> best == -1.0 && forall i: nat :: i < j ==> i in taken
      invariant found >= 0 ==> found !in taken && best == Density(sim, v, taken, found, v)
      invariant found >= 0 ==> forall i: nat :: i < j && i !in taken ==> Density(sim, v, taken, i, v) <= best
      invariant found >= 0 ==> forall i: nat :: i < found && i !in taken ==> Density(sim, v, taken, i, v) < best
    {
      if j in taken {
        continue;
      }
      var density := 0.0;
      for k := 0 to v
        invariant density == Density(sim, v, taken, j, k)
      {
        density := density + if k in taken || j >= v then 0.0 else sim(j, k);
      }
      DensityNotNegative(sim, v, taken, j, v);
      if density > best {
        found, best := j, density;
      }
    }
    assert found >= 0;
    seed := found;
  }

  /** How many memories join a seed: the quota less the seed itself, as far as there are any. */
  function Joining(quota: nat, available: nat): nat { if quota == 0 then 0 else Min(quota - 1, available) }

  /** Among falling candidates, none behind the first ones is nearer than one of them. */
  lemma NearestJoin(sim: nat -> real, candidates: seq<nat>, joining: nat, k: nat, l: nat)
    requires Falling(sim, candidates) && joining <= |candidates| && k in candidates[..joining]
          && l in candidates[joining..]
    ensures sim(k) >= sim(l)
  {
    var i :| 0 <= i < |candidates[..joining]| && candidates[..joining][i] == k;
    var j :| 0 <= j < |candidates[joining..]| && candidates[joining..][j] == l;
    assert candidates[i] == k && candidates[joining + j] == l;
  }

  function ToSeed(sim: (nat, nat) -> real, seed: nat): nat -> real { (k: nat) => sim(seed, k) }

  /** The memories with a vector that are not assigned, nearest to the seed first. */
  function Candidates(sim: (nat, nat) -> real, v: nat, taken: set<nat>, seed: nat): seq<nat> {
    ByFalling(ToSeed(sim, seed), Unassigned(v, taken))
  }

  lemma CandidatesAre(sim: (nat, nat) -> real, v: nat, taken: set<nat>, seed: nat)
    ensures var candidates := Candidates(sim, v, taken, seed);
            && Falling(ToSeed(sim, seed), candidates) && Distinct(candidates) && |candidates| == |Unassigned(v, taken)|
            && forall k: nat :: k in candidates <==> k < v && k !in taken
  {
    UnassignedAre(v, taken);
    ByFallingIs(ToSeed(sim, seed), Unassigned(v, taken));
    DistinctByMultiset(Candidates(sim, v, taken, seed), Unassigned(v, taken));
  }

  /** A seed with the nearest of the memories that are not assigned. */
  function Grown(sim: (nat, nat) -> real, v: nat, taken: set<nat>, seed: nat, joining: nat): seq<nat>
    requires joining <= |Candidates(sim, v, taken, seed)|
  {
    [seed] + Candidates(sim, v, taken, seed)[..joining]
  }

  lemma GrownIs(sim: (nat, nat) -> real, v: nat, taken: set<nat>, seed: nat, joining: nat)
    requires seed in taken && joining <= |Candidates(sim, v, taken, seed)|
    ensures Distinct(Grown(sim, v, taken, seed, joining))
    ensures forall k :: k in Grown(sim, v, taken, seed, joining) ==> k == seed || (k < v && k !in taken)
  {
    CandidatesAre(sim, v, taken, seed);
    PrefixBehind(seed, Candidates(sim, v, taken, seed), joining);
  }

  lemma PrefixBehind(first: nat, s: seq<nat>, n: nat)
    requires Distinct(s) && first !in s && n <= |s|
    ensures Distinct([first] + s[..n]) && forall k :: k in [first] + s[..n] ==> k == first || k in s
  {
  }

  method Grow(sim: (nat, nat) -> real, v: nat, taken: set<nat>, seed: nat, quota: nat) returns (cluster: seq<nat>)
    requires seed in taken
    ensures Joining(quota, |Unassigned(v, taken)|) <= |Candidates(sim, v, taken, seed)|
    ensures cluster == Grown(sim, v, taken, seed, Joining(quota, |Unassigned(v, taken)|))
    ensures |cluster| == 1 + Joining(quota, |Unassigned(v, taken)|)
    ensures Distinct(cluster) && forall k :: k in cluster ==> k == seed || (k < v && k !in taken)
  {
    CandidatesAre(sim, v, taken, seed);
    var candidates := Candidates(sim, v, taken, seed);
    cluster := [seed];
    for k := 0 to Joining(quota, |candidates|)
      invariant cluster == [seed] + candidates[..k]
    {
      cluster := cluster + [candidates[k]];
    }
    GrownIs(sim, v, taken, seed, Joining(quota, |candidates|));
  }

  lemma NearestIndicesAreTaken(sim: (nat, nat) -> real, v: nat, taken: set<nat>, seed: nat, joining: nat, k: nat,
                               l: nat)
    requires joining <= |Candidates(sim, v, taken, seed)|
    requires k in Candidates(sim, v, taken, seed)[..joining]
    requires l < v && l !in taken && l !in Candidates(sim, v, taken, seed)[..joining]
    ensures k < v && sim(seed, k) >= sim(seed, l)
  {
    CandidatesAre(sim, v, taken, seed);
    var candidates := Candidates(sim, v, taken, seed);
    assert candidates == candidates[..joining] + candidates[joining..];
    assert k in candidates;
    NearestJoin(ToSeed(sim, seed), candidates, joining, k, l);
  }

  /** Where the vectors stand at the indices of their memories, no memory at such an index that is left outside is more
      like the seed than one that joins it. */
  lemma NearestAreTaken(like: Likeness, contents: seq<string>, taken: set<nat>, seed: nat, joining: nat, k: nat, l: nat)
    requires |Vectors(contents)| <= |contents| && Differ(contents, |Vectors(contents)|) && seed < |Vectors(contents)|
    requires var candidates := Candidates(ByIndex(like, Vectors(contents)), |Vectors(contents)|, taken, seed);
             joining <= |candidates| && k in candidates[..joining] && l !in candidates[..joining]
    requires l < |Vectors(contents)| && l !in taken
    ensures k < |contents| && like(contents[seed], contents[k]) >= like(contents[seed], contents[l])
  {
    AlignedExactlyWhen(contents);
    NearestIndicesAreTaken(ByIndex(like, Vectors(contents)), |Vectors(contents)|, taken, seed, joining, k, l);
  }

  function Repeats(): seq<string> { ["a", "a", "b", "c"] }

  lemma VectorsOfRepeats()
    ensures Vectors(Repeats()) == ["a", "b", "c"]
  {
    var contents := Repeats();
    assert Firsts(contents, 1) == ["a"] && Firsts(contents, 2) == ["a"] && Firsts(contents, 3) == ["a", "b"];
  }

  lemma SecondFallsFirst(sim: nat -> real)
    requires sim(1) < sim(2)
    ensures ByFalling(sim, [1, 2]) == [2, 1]
  {
    assert [1, 2][..1] == [1] && [1][..0] == [];
    assert ByFalling(sim, [1]) == Place(sim, [], 1) == [1];
    assert Place(sim, [1], 2) == Place(sim, [], 2) + [1] == [2, 1];
  }

  lemma UnassignedBehindSeed()
    ensures Unassigned(3, {0}) == [1, 2]
  {
    assert Unassigned(1, {0}) == [] && Unassigned(2, {0}) == [1];
  }

  /** Two memories of content "a" before one of "b" and one of "c": the second "a" is compared as "b", the memory of "b"
      as "c". Where "a" is more like "c" than like "b", the memory of "b" joins the first "a" before the second "a"
      does, although that is the same. */
  lemma RepeatedContentMisplaces(like: Likeness)
    requires like("a", "b") < like("a", "c") && like("a", "b") < like("a", "a")
    ensures !Aligned(Repeats())
    ensures Candidates(ByIndex(like, Vectors(Repeats())), |Vectors(Repeats())|, {0}, 0) == [2, 1]
    ensures like(Repeats()[0], Repeats()[2]) < like(Repeats()[0], Repeats()[1])
  {
    VectorsOfRepeats();
    assert Vectors(Repeats())[1] == "b" && Repeats()[1] == "a";
    UnassignedBehindSeed();
    SecondFallsFirst(ToSeed(ByIndex(like, ["a", "b", "c"]), 0));
  }

  // ---------------------------------------------------------------- all clusters

  /** The members of all clusters. */
  ghost function Flat<T>(clusters: seq<seq<T>>): seq<T> {
    if clusters == [] then [] else Flat(clusters[..|clusters| - 1]) + clusters[|clusters| - 1]
  }

  lemma FlatAppend<T>(clusters: seq<seq<T>>, cluster: seq<T>)
    ensures Flat(clusters + [cluster]) == Flat(clusters) + cluster
  {
    assert (clusters + [cluster])[..|clusters|] == clusters;
  }

  /** Nonempty clusters that hold the taken memories, each once. */
  ghost predicate Holds(clusters: seq<seq<nat>>, taken: set<nat>) {
    && (forall c :: c in clusters ==> c != [])
    && Distinct(Flat(clusters)) && (forall k :: k in Flat(clusters) <==> k in taken) && |Flat(clusters)| == |taken|
  }

  lemma HoldsMore(clusters: seq<seq<nat>>, taken: set<nat>, cluster: seq<nat>)
    requires Holds(clusters, taken) && cluster != [] && Distinct(cluster) && forall k :: k in cluster ==> k !in taken
    ensures Holds(clusters + [cluster], taken + Members(cluster))
  {
    FlatAppend(clusters, cluster);
    MembersCount(cluster);
    var flat := Flat(clusters);
    assert |taken + Members(cluster)| == |taken| + |Members(cluster)| by {
      assert taken !! Members(cluster);
    }
    forall i, j | 0 <= i < j < |flat + cluster|
      ensures (flat + cluster)[i] != (flat + cluster)[j]
    {
      if i < |flat| && j >= |flat| {
        assert flat[i] in taken && cluster[j - |flat|] in cluster;
      }
    }
  }

  /** As many clusters as memories: each is one of its own. */
  function Singletons(n: nat): seq<seq<nat>> { if n == 0 then [] else Singletons(n - 1) + [[n - 1]] }

  lemma NothingHeld()
    ensures Holds([], {})
  {
    assert Flat<nat>([]) == [];
  }

  lemma BelowStep(i: nat)
    ensures i !in Below(i) && Below(i) + Members([i]) == Below(i + 1)
  {
    BelowIs(i);
    assert Members([i]) == {i};
  }

  lemma SingletonStep(clusters: seq<seq<nat>>, i: nat)
    requires Holds(clusters, Below(i))
    ensures Holds(clusters + [[i]], Below(i + 1))
  {
    BelowStep(i);
    HoldsMore(clusters, Below(i), [i]);
  }

  lemma SingletonsNext(n: nat)
    ensures Singletons(n + 1) == Singletons(n) + [[n]]
  {
  }

  lemma {:induction false} SingletonsHold(n: nat)
    ensures |Singletons(n)| == n
    ensures Holds(Singletons(n), Below(n))
  {
    if n == 0 {
      NothingHeld();
    } else {
      SingletonsHold(n - 1);
      SingletonStep(Singletons(n - 1), n - 1);
      SingletonsNext(n - 1);
    }
  }

  /** `cluster`, over the contents of the memories. */
  method Cluster(like: Likeness, contents: seq<string>, maxClusters: nat)
    returns (clusters: seq<seq<nat>>, taken: set<nat>)
    requires NotNegative(like)
    ensures Holds(clusters, taken) && taken <= Below(|contents|) && |clusters| <= maxClusters
    ensures |contents| <= maxClusters ==> |clusters| == |contents| && taken == Below(|contents|)
    ensures 0 < maxClusters < |contents| ==> |clusters| == maxClusters && |taken| < |contents|
    ensures 0 < maxClusters < |contents| && Differ(contents, |contents|) ==> |taken| == |contents| - 1
  {
    var n := |contents|;
    if n <= maxClusters {
      SingletonsHold(n);
      clusters, taken := Singletons(n), Below(n);
    } else {
      var vectors := ListVectors(contents);
      FirstsAre(contents, n);
      AllHaveVectorsExactlyWhen(contents);
      clusters, taken := Quotas(ByIndex(like, vectors), n, |vectors|, maxClusters);
    }
  }

  /** More memories than clusters: every cluster takes its quota. */
  method Quotas(sim: (nat, nat) -> real, n: nat, v: nat, maxClusters: nat)
    returns (clusters: seq<seq<nat>>, taken: set<nat>)
    requires Similarity(sim) && v <= n && maxClusters < n
    ensures Holds(clusters, taken) && taken <= Below(n) && |clusters| == maxClusters
    ensures |taken| < n && (n == v && maxClusters > 0 ==> |taken| == n - 1)
  {
    BelowIs(n);
    clusters, taken := [], {};
    for i := 0 to maxClusters
      invariant taken <= Below(n) && |clusters| == i && Holds(clusters, taken)
      invariant |taken| + (maxClusters - i) < n
      invariant n == v && i == maxClusters > 0 ==> |taken| == n - 1
    {
      QuotaLeavesEnough(n - |taken| - 1, maxClusters - i);
      var cluster := NextCluster(sim, n, v, maxClusters - i, taken);
      HoldsMore(clusters, taken, cluster);
      TakenCount(taken, cluster);
      clusters := clusters + [cluster];
      taken := taken + Members(cluster);
    }
  }

  /** The next of the clusters that are left, while more memories are: its quota leaves enough for the clusters behind
      it, and the last one takes all but one if all memories have vectors. */
  method NextCluster(sim: (nat, nat) -> real, n: nat, v: nat, left: nat, taken: set<nat>) returns (cluster: seq<nat>)
    requires Similarity(sim) && v <= n && taken <= Below(n) && 0 < left && |taken| + left < n
    ensures |cluster| <= CeilDiv(n - |taken| - 1, left) && (n == v ==> |cluster| == CeilDiv(n - |taken| - 1, left))
    ensures cluster != [] && Distinct(cluster) && forall k :: k in cluster ==> k !in taken && k < n
  {
    ProperSubset(taken, n);
    var seed := Seed(sim, n, v, taken);
    var started := taken + {seed};
    assert |started| == |taken| + 1;
    var quota := CeilDiv(n - |started|, left);
    QuotaLeavesEnough(n - |started|, left);
    cluster := Grow(sim, v, started, seed, quota);
    if n == v {
      BelowIs(n);
      UnassignedCount(n, started);
    }
  }

  lemma TakenCount(taken: set<nat>, cluster: seq<nat>)
    requires Distinct(cluster) && forall k :: k in cluster ==> k !in taken
    ensures |taken + Members(cluster)| == |taken| + |cluster|
  {
    MembersCount(cluster);
    assert taken !! Members(cluster);
  }

  lemma ProperSubset(taken: set<nat>, n: nat)
    requires taken <= Below(n) && |taken| < n
    ensures taken < Below(n)
  {
    BelowIs(n);
    assert Below(n) <= taken ==> Below(n) == taken;
  }

  // ---------------------------------------------------------------- merging similar clusters

  /** The members of the clusters of a group, in the order of the group. */
  ghost function Joined<T>(clusters: seq<seq<T>>, group: seq<nat>): seq<T> {
    if group == [] then [] else Joined(clusters, group[..|group| - 1]) + Pick(clusters, group[|group| - 1])
  }

  function Pick<T>(clusters: seq<seq<T>>, k: nat): seq<T> { if k < |clusters| then clusters[k] else [] }

  /** A cluster with all later ones that are similar to it and not used yet. */
  ghost predicate Group(similar: (nat, nat) -> bool, used: set<nat>, group: seq<nat>, base: nat, n: nat) {
    && group != [] && group[0] == base && Distinct(group)
    && (forall k :: k in group ==> base <= k < n && k !in used)
    && (forall k: nat :: base < k < n && k !in used ==> (k in group <==> similar(base, k)))
  }

  lemma GroupGrows(similar: (nat, nat) -> bool, used: set<nat>, group: seq<nat>, base: nat, j: nat)
    requires Group(similar, used, group, base, j) && base < j
    ensures j !in used && similar(base, j) ==>
              Group(similar, used, group + [j], base, j + 1) && Members(group + [j]) == Members(group) + {j}
    ensures !(j !in used && similar(base, j)) ==> Group(similar, used, group, base, j + 1)
  {
  }

  /** The inner loop: gathers what joins the cluster at `base`. */
  method Gather<T>(clusters: seq<seq<T>>, similar: (nat, nat) -> bool, used: set<nat>, base: nat)
    returns (members: seq<T>, joined: set<nat>, ghost group: seq<nat>)
    requires base < |clusters| && base !in used
    ensures Group(similar, used, group, base, |clusters|)
    ensures members == Joined(clusters, group) && joined == Members(group)
  {
    members, joined, group := clusters[base], {base}, [base];
    assert Joined(clusters, [base][..0]) == [] && Members([base]) == {base};
    for j := base + 1 to |clusters|
      invariant Group(similar, used, group, base, j)
      invariant members == Joined(clusters, group) && joined == Members(group)
    {
      GroupGrows(similar, used, group, base, j);
      if j !in used && similar(base, j) {
        JoinedAppend(clusters, group, j);
        members, joined, group := members + clusters[j], joined + {j}, group + [j];
      }
    }
  }

  ghost predicate Apart(similar: (nat, nat) -> bool, groups: seq<seq<nat>>, g: nat, h: nat)
    requires g < |groups| && h < |groups|
  {
    groups[g] != [] && groups[h] != [] && groups[g][0] < groups[h][0] && !similar(groups[g][0], groups[h][0])
  }

  /** No unused cluster behind the base of the group is similar to it. */
  ghost predicate Exhausts(similar: (nat, nat) -> bool, group: seq<nat>, used: set<nat>, n: nat) {
    group != [] && forall k: nat :: group[0] < k < n && k !in used ==> !similar(group[0], k)
  }

  /** All groups exhaust, and their bases lie below `i`. */
  ghost predicate AllExhaust(similar: (nat, nat) -> bool, groups: seq<seq<nat>>, used: set<nat>, i: nat, n: nat) {
    forall g :: 0 <= g < |groups| ==> Exhausts(similar, groups[g], used, n) && groups[g][0] < i
  }

  ghost predicate AllApart(similar: (nat, nat) -> bool, groups: seq<seq<nat>>) {
    forall g, h :: 0 <= g < h < |groups| ==> Apart(similar, groups, g, h)
  }

  ghost predicate UsesAllBelow(used: set<nat>, i: nat, n: nat) {
    (forall k :: k in used ==> k < n) && forall k: nat :: k < i ==> k in used
  }

  /** The groups of a merge: together they name every cluster below `i`, and all used ones, once; no base is similar to
      an earlier one. */
  ghost predicate Grouped(similar: (nat, nat) -> bool, groups: seq<seq<nat>>, used: set<nat>, i: nat, n: nat) {
    && Holds(groups, used) && UsesAllBelow(used, i, n)
    && AllExhaust(similar, groups, used, i, n) && AllApart(similar, groups)
  }

  lemma ApartFromNew(similar: (nat, nat) -> bool, groups: seq<seq<nat>>, used: set<nat>, i: nat, n: nat,
                     group: seq<nat>)
    requires Grouped(similar, groups, used, i, n) && i < n && i !in used && Group(similar, used, group, i, n)
    ensures AllApart(similar, groups + [group])
  {
    var groups' := groups + [group];
    forall g, h | 0 <= g < h < |groups'|
      ensures Apart(similar, groups', g, h)
    {
      if h < |groups| {
        assert Apart(similar, groups, g, h);
      } else {
        assert Exhausts(similar, groups[g], used, n) && groups[g][0] < i;
      }
    }
  }

  lemma ExhaustedStay(similar: (nat, nat) -> bool, groups: seq<seq<nat>>, used: set<nat>, i: nat, n: nat,
                      group: seq<nat>)
    requires Grouped(similar, groups, used, i, n) && i < n && i !in used && Group(similar, used, group, i, n)
    ensures AllExhaust(similar, groups + [group], used + Members(group), i + 1, n)
  {
    var groups', used' := groups + [group], used + Members(group);
    forall g | 0 <= g < |groups'|
      ensures Exhausts(similar, groups'[g], used', n) && groups'[g][0] < i + 1
    {
      assert g < |groups| ==> Exhausts(similar, groups[g], used, n) && groups[g][0] < i;
    }
  }

  lemma GroupIsUsed(similar: (nat, nat) -> bool, used: set<nat>, i: nat, n: nat, group: seq<nat>)
    requires UsesAllBelow(used, i, n) && Group(similar, used, group, i, n)
    ensures UsesAllBelow(used + Members(group), i + 1, n)
  {
    assert group[0] in group;
  }

  lemma GroupedStep(similar: (nat, nat) -> bool, groups: seq<seq<nat>>, used: set<nat>, i: nat, n: nat, group: seq<nat>)
    requires Grouped(similar, groups, used, i, n) && i < n && i !in used && Group(similar, used, group, i, n)
    ensures Grouped(similar, groups + [group], used + Members(group), i + 1, n)
  {
    HoldsMore(groups, used, group);
    GroupIsUsed(similar, used, i, n, group);
    ApartFromNew(similar, groups, used, i, n, group);
    ExhaustedStay(similar, groups, used, i, n, group);
  }

  /** Each output is the members of one group. */
  ghost predicate MergedAre<T>(clusters: seq<seq<T>>, groups: seq<seq<nat>>, merged: seq<seq<T>>) {
    && |merged| == |groups|
    && forall g :: 0 <= g < |groups| ==> merged[g] == Joined(clusters, groups[g])
  }

  lemma MergedStep<T>(clusters: seq<seq<T>>, groups: seq<seq<nat>>, merged: seq<seq<T>>, group: seq<nat>)
    requires MergedAre(clusters, groups, merged)
    ensures MergedAre(clusters, groups + [group], merged + [Joined(clusters, group)])
  {
  }

  /** `mergeSimilarClusters`: the outputs are groups of inputs, and every input lands in exactly one. */
  method Merge<T>(clusters: seq<seq<T>>, similar: (nat, nat) -> bool)
    returns (merged: seq<seq<T>>, ghost groups: seq<seq<nat>>)
    ensures Holds(groups, Below(|clusters|)) && MergedAre(clusters, groups, merged)
    ensures AllApart(similar, groups)
    ensures multiset(Flat(merged)) == multiset(Flat(clusters))
  {
    if |clusters| <= 1 {
      merged, groups := clusters, Singletons(|clusters|);
      SingletonsHold(|clusters|);
      AloneIsJoined(clusters);
      return;
    }
    merged, groups := MergeAll(clusters, similar);
    MergeConserves(clusters, groups, merged);
  }

  method MergeAll<T>(clusters: seq<seq<T>>, similar: (nat, nat) -> bool)
    returns (merged: seq<seq<T>>, ghost groups: seq<seq<nat>>)
    ensures Grouped(similar, groups, Below(|clusters|), |clusters|, |clusters|) && MergedAre(clusters, groups, merged)
  {
    merged, groups := [], [];
    var used: set<nat> := {};
    for i := 0 to |clusters|
      invariant Grouped(similar, groups, used, i, |clusters|) && MergedAre(clusters, groups, merged)
    {
      if i in used {
        continue;
      }
      var members, joined;
      ghost var group;
      members, joined, group := Gather(clusters, similar, used, i);
      GroupedStep(similar, groups, used, i, |clusters|, group);
      MergedStep(clusters, groups, merged, group);
      merged, groups, used := merged + [members], groups + [group], used + joined;
    }
    BelowIs(|clusters|);
    assert used == Below(|clusters|);
  }

  lemma AloneIsJoined<T>(clusters: seq<seq<T>>)
    requires |clusters| <= 1
    ensures |Singletons(|clusters|)| == |clusters| && MergedAre(clusters, Singletons(|clusters|), clusters)
  {
    if |clusters| == 1 {
      assert Singletons(1) == Singletons(0) + [[0]] == [[0]];
      assert [0][..0] == [] && Joined(clusters, []) == [];
      assert Joined(clusters, [0]) == Joined(clusters, []) + clusters[0];
    }
  }

  // ---------------------------------------------------------------- what a merge conserves

  lemma JoinedAppend<T>(clusters: seq<seq<T>>, group: seq<nat>, k: nat)
    ensures Joined(clusters, group + [k]) == Joined(clusters, group) + Pick(clusters, k)
  {
    assert (group + [k])[..|group|] == group;
  }

  lemma Associates<T>(a: seq<T>, b: seq<T>, c: seq<T>)
    ensures a + (b + c) == (a + b) + c
  {
  }

  lemma JoinedConcatMore<T>(clusters: seq<seq<T>>, a: seq<nat>, front: seq<nat>, k: nat)
    requires Joined(clusters, a + front) == Joined(clusters, a) + Joined(clusters, front)
    ensures Joined(clusters, a + (front + [k])) == Joined(clusters, a) + Joined(clusters, front + [k])
  {
    Associates(a, front, [k]);
    JoinedAppend(clusters, a + front, k);
    JoinedAppend(clusters, front, k);
    Associates(Joined(clusters, a), Joined(clusters, front), Pick(clusters, k));
  }

  lemma {:induction false} JoinedConcat<T>(clusters: seq<seq<T>>, a: seq<nat>, b: seq<nat>)
    ensures Joined(clusters, a + b) == Joined(clusters, a) + Joined(clusters, b)
    decreases |b|
  {
    if b == [] {
      assert a + b == a;
    } else {
      var front, k := b[..|b| - 1], b[|b| - 1];
      assert b == front + [k];
      JoinedConcat(clusters, a, front);
      JoinedConcatMore(clusters, a, front, k);
    }
  }

  /** The members of all outputs are those of the inputs that the groups name, in that order. */
  lemma {:induction false} FlatIsJoined<T>(clusters: seq<seq<T>>, groups: seq<seq<nat>>, merged: seq<seq<T>>)
    requires MergedAre(clusters, groups, merged)
    ensures Flat(merged) == Joined(clusters, Flat(groups))
    decreases |groups|
  {
    if groups != [] {
      var last := |groups| - 1;
      FlatIsJoined(clusters, groups[..last], merged[..last]);
      JoinedConcat(clusters, Flat(groups[..last]), groups[last]);
    }
  }

  function Drop(ids: seq<nat>, i: nat): seq<nat>
    requires i < |ids|
  {
    ids[..i] + ids[i + 1..]
  }

  lemma DropTakes(ids: seq<nat>, i: nat)
    requires i < |ids|
    ensures multiset(Drop(ids, i)) == multiset(ids) - multiset{ids[i]}
  {
    assert ids == ids[..i] + [ids[i]] + ids[i + 1..];
  }

  lemma JoinedDrop<T>(clusters: seq<seq<T>>, ids: seq<nat>, i: nat)
    requires i < |ids|
    ensures multiset(Joined(clusters, ids))
         == multiset(Joined(clusters, Drop(ids, i))) + multiset(Pick(clusters, ids[i]))
  {
    var a, b := ids[..i], ids[i + 1..];
    assert ids == a + [ids[i]] + b;
    JoinedConcat(clusters, a + [ids[i]], b);
    JoinedConcat(clusters, a, b);
    assert (a + [ids[i]])[..|a|] == a;
  }

  function Indices(n: nat): (r: seq<nat>)
    ensures |r| == n && forall i :: 0 <= i < n ==> r[i] == i
  {
    seq(n, i => i)
  }

  lemma IndicesAre(n: nat)
    ensures Distinct(Indices(n)) && forall k: nat :: k in Indices(n) <==> k < n
  {
    forall k: nat | k < n
      ensures k in Indices(n)
    {
      assert Indices(n)[k] == k;
    }
  }

  lemma SameOnce(a: seq<nat>, b: seq<nat>)
    requires Distinct(a) && Distinct(b) && forall k :: k in a <==> k in b
    ensures multiset(a) == multiset(b)
  {
    forall k: nat
      ensures multiset(a)[k] == multiset(b)[k]
    {
      AtMostOnce(a, k);
      AtMostOnce(b, k);
      assert k in a <==> multiset(a)[k] > 0;
      assert k in b <==> multiset(b)[k] > 0;
    }
  }

  lemma DropLast(ids: seq<nat>, n: nat) returns (i: nat)
    requires n > 0 && multiset(ids) == multiset(Indices(n))
    ensures i < |ids| && ids[i] == n - 1 && multiset(Drop(ids, i)) == multiset(Indices(n - 1))
  {
    assert Indices(n) == Indices(n - 1) + [n - 1];
    assert n - 1 in multiset(ids);
    i :| 0 <= i < |ids| && ids[i] == n - 1;
    DropTakes(ids, i);
  }

  lemma FlatStep<T>(clusters: seq<seq<T>>, n: nat)
    requires 0 < n <= |clusters|
    ensures Flat(clusters[..n]) == Flat(clusters[..n - 1]) + clusters[n - 1]
  {
    assert clusters[..n] == clusters[..n - 1] + [clusters[n - 1]];
    FlatAppend(clusters[..n - 1], clusters[n - 1]);
  }

  lemma JoinedNone<T>(clusters: seq<seq<T>>, ids: seq<nat>)
    requires multiset(ids) == multiset(Indices(0))
    ensures Joined(clusters, ids) == Flat(clusters[..0])
  {
    assert |multiset(ids)| == |ids| && |multiset(Indices(0))| == 0;
    assert clusters[..0] == [];
  }

  /** Naming each of the first `n` clusters once, in any order, joins exactly their members. */
  lemma {:induction false} JoinedIsAll<T>(clusters: seq<seq<T>>, ids: seq<nat>, n: nat)
    requires n <= |clusters| && multiset(ids) == multiset(Indices(n))
    ensures multiset(Joined(clusters, ids)) == multiset(Flat(clusters[..n]))
    decreases n
  {
    if n == 0 {
      JoinedNone(clusters, ids);
    } else {
      var i := DropLast(ids, n);
      JoinedIsAll(clusters, Drop(ids, i), n - 1);
      JoinedDrop(clusters, ids, i);
      FlatStep(clusters, n);
    }
  }

  lemma MergeConserves<T>(clusters: seq<seq<T>>, groups: seq<seq<nat>>, merged: seq<seq<T>>)
    requires MergedAre(clusters, groups, merged) && Holds(groups, Below(|clusters|))
    ensures multiset(Flat(merged)) == multiset(Flat(clusters))
  {
    FlatIsJoined(clusters, groups, merged);
    BelowIs(|clusters|);
    IndicesAre(|clusters|);
    SameOnce(Flat(groups), Indices(|clusters|));
    JoinedIsAll(clusters, Flat(groups), |clusters|);
    assert clusters[..|clusters|] == clusters;
  }
}
