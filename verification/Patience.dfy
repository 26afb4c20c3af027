/** Anchors of the patience diff: the lines that occur exactly once on each side,
    thinned out to a longest chain that increases on both sides. */
module Patience {

  /** `line_pair`: a position on the old side and one on the new side. */
  datatype LinePair = LinePair(oldIndex: nat, newIndex: nat)

  // ---------------------------------------------------------------- unique lines

  /** The line at `i` occurs nowhere else in `lines`. */
  ghost predicate OccursOnce(lines: seq<string>, i: nat) {
    i < |lines| && forall j :: 0 <= j < |lines| && j != i ==> lines[j] != lines[i]
  }

  /** `found` maps exactly the lines that occur once to where they occur. */
  ghost predicate IndexesUniqueLines(found: map<string, nat>, lines: seq<string>) {
    && (forall line :: line in found ==> OccursOnce(lines, found[line]) && lines[found[line]] == line)
    && (forall i: nat :: OccursOnce(lines, i) ==> lines[i] in found && found[lines[i]] == i)
  }

  method UniqueLines(lines: seq<string>) returns (found: map<string, nat>)
    ensures IndexesUniqueLines(found, lines)
  {
    var first: map<string, nat> := map[];
    var repeated: set<string> := {};
    for index := 0 to |lines|
      invariant forall line :: line in first ==>
        first[line] < index && lines[first[line]] == line && forall j :: 0 <= j < first[line] ==> lines[j] != line
      invariant forall j :: 0 <= j < index ==> lines[j] in first
      invariant forall line :: line in repeated ==>
        line in first && exists j :: first[line] < j < index && lines[j] == line
      invariant forall j :: 0 <= j < index && first[lines[j]] != j ==> lines[j] in repeated
    {
      if lines[index] in first {
        repeated := repeated + {lines[index]};
      } else {
        first := first[lines[index] := index];
      }
    }
    found := first - repeated;
  }

  // ---------------------------------------------------------------- longest increasing subsequence

  /** `picks` selects positions of `values`, left to right, whose values increase. */
  ghost predicate Increasing(values: seq<nat>, picks: seq<nat>) {
    && (forall k :: 0 <= k < |picks| ==> picks[k] < |values|)
    && (forall i, k :: 0 <= i < k < |picks| ==> picks[i] < picks[k] && values[picks[i]] < values[picks[k]])
  }

  /** A ranking that rises along every increasing pair bounds every increasing selection. */
  lemma {:induction false} RankBoundsLength(values: seq<nat>, rank: seq<nat>, picks: seq<nat>, bound: nat)
    requires Increasing(values, picks)
    requires |rank| == |values| && forall i :: 0 <= i < |rank| ==> rank[i] < bound
    requires forall i, j :: 0 <= i < j < |values| && values[i] < values[j] ==> rank[i] < rank[j]
    ensures |picks| > 0 ==> |picks| <= rank[picks[|picks| - 1]] + 1
    ensures |picks| <= bound
  {
    if |picks| > 1 {
      RankBoundsLength(values, rank, picks[..|picks| - 1], bound);
      var last := |picks| - 1;
      assert picks[last - 1] < picks[last] && values[picks[last - 1]] < values[picks[last]];
    }
  }

  /** What the search keeps after the first `index` values: `rank` is the length of the chain each
      value closes, `tails[l]` the position with the least value among the chains of length `l + 1`. */
  ghost predicate SearchState(values: seq<nat>, index: nat, tails: seq<nat>, previous: seq<int>, rank: seq<nat>) {
    && |rank| == index <= |values| == |previous|
    && TailsAreLeast(values, tails, rank)
    && RankRises(values, rank)
    && (forall i :: 0 <= i < index ==> LinksBack(values, previous, rank, i))
  }

  ghost predicate TailsAreLeast(values: seq<nat>, tails: seq<nat>, rank: seq<nat>)
    requires |rank| <= |values|
  {
    && (forall l :: 0 <= l < |tails| ==> tails[l] < |rank| && rank[tails[l]] == l)
    && (forall l, m :: 0 <= l < m < |tails| ==> values[tails[l]] < values[tails[m]])
    && (forall i :: 0 <= i < |rank| ==> rank[i] < |tails| && values[tails[rank[i]]] <= values[i])
  }

  ghost predicate RankRises(values: seq<nat>, rank: seq<nat>)
    requires |rank| <= |values|
  {
    forall i, j :: 0 <= i < j < |rank| && values[i] < values[j] ==> rank[i] < rank[j]
  }

  /** Position `i` closes a chain of length `rank[i] + 1`, linked through `previous`. */
  ghost predicate LinksBack(values: seq<nat>, previous: seq<int>, rank: seq<nat>, i: nat)
    requires i < |rank| <= |values| == |previous|
  {
    if rank[i] == 0 then previous[i] == -1
    else 0 <= previous[i] < i && values[previous[i]] < values[i] && rank[previous[i]] + 1 == rank[i]
  }

  /** The binary search: the first chain length whose tail is not below `value`. */
  method FirstTailNotBelow(values: seq<nat>, tails: seq<nat>, value: nat) returns (low: nat)
    requires forall l :: 0 <= l < |tails| ==> tails[l] < |values|
    requires forall l, m :: 0 <= l < m < |tails| ==> values[tails[l]] < values[tails[m]]
    ensures Placed(values, tails, value, low)
  {
    low := 0;
    var high := |tails|;
    while low < high
      invariant low <= high <= |tails|
      invariant forall l :: 0 <= l < low ==> values[tails[l]] < value
      invariant forall l :: high <= l < |tails| ==> value <= values[tails[l]]
    {
      var middle := (low + high) / 2;
      if values[tails[middle]] < value {
        low := middle + 1;
      } else {
        high := middle;
      }
    }
  }

  /** `low` is the place of `value` among the tails: every tail before it is less, none from it on is. */
  ghost predicate Placed(values: seq<nat>, tails: seq<nat>, value: nat, low: nat) {
    && low <= |tails|
    && (forall l :: 0 <= l < |tails| ==> tails[l] < |values|)
    && (forall l :: 0 <= l < low ==> values[tails[l]] < value)
    && (forall l :: low <= l < |tails| ==> value <= values[tails[l]])
  }

  lemma TailsStep(values: seq<nat>, index: nat, tails: seq<nat>, previous: seq<int>, rank: seq<nat>, low: nat)
    requires SearchState(values, index, tails, previous, rank) && index < |values|
    requires Placed(values, tails, values[index], low)
    ensures TailsAreLeast(values, if low < |tails| then tails[low := index] else tails + [index], rank + [low])
  {
    var tails' := if low < |tails| then tails[low := index] else tails + [index];
    assert forall l :: 0 <= l < |tails| && l != low ==> tails'[l] == tails[l];
    assert tails'[low] == index;
    assert low < |tails| ==> forall m :: low < m < |tails| ==> values[tails[low]] < values[tails[m]];
  }

  lemma RankStep(values: seq<nat>, index: nat, tails: seq<nat>, previous: seq<int>, rank: seq<nat>, low: nat)
    requires SearchState(values, index, tails, previous, rank) && index < |values|
    requires Placed(values, tails, values[index], low)
    ensures RankRises(values, rank + [low])
  {
    forall i | 0 <= i < index && values[i] < values[index]
      ensures rank[i] < low
    {
      assert values[tails[rank[i]]] <= values[i];
    }
  }

  lemma LinksStep(values: seq<nat>, index: nat, tails: seq<nat>, previous: seq<int>, rank: seq<nat>, low: nat)
    requires SearchState(values, index, tails, previous, rank) && index < |values| && previous[index] == -1
    requires Placed(values, tails, values[index], low)
    ensures var previous' := if low > 0 then previous[index := tails[low - 1]] else previous;
            forall i :: 0 <= i < index + 1 ==> LinksBack(values, previous', rank + [low], i)
  {
    var previous' := if low > 0 then previous[index := tails[low - 1]] else previous;
    forall i | 0 <= i < index + 1
      ensures LinksBack(values, previous', rank + [low], i)
    {
      assert i < index ==> LinksBack(values, previous, rank, i);
    }
  }

  /** At the end of the search no increasing selection is longer than the list of tails. */
  lemma NoneLongerThanTails(values: seq<nat>, tails: seq<nat>, previous: seq<int>, rank: seq<nat>)
    requires SearchState(values, |values|, tails, previous, rank)
    ensures forall other :: Increasing(values, other) ==> |other| <= |tails|
  {
    forall other | Increasing(values, other)
      ensures |other| <= |tails|
    {
      RankBoundsLength(values, rank, other, |tails|);
    }
  }

  /** One round of the search: finds the place of `values[index]`, links it back and updates the tails. */
  method TakeIn(values: seq<nat>, index: nat, tails: seq<nat>, previous: array<int>, ghost rank: seq<nat>)
      returns (tails': seq<nat>, ghost rank': seq<nat>)
    requires SearchState(values, index, tails, previous[..], rank) && index < |values|
    requires previous[index] == -1
    modifies previous
    ensures SearchState(values, index + 1, tails', previous[..], rank')
    ensures forall i :: index < i < |values| ==> previous[i] == old(previous[i])
  {
    var low := FirstTailNotBelow(values, tails, values[index]);
    if low > 0 {
      previous[index] := tails[low - 1];
    }
    tails' := if low < |tails| then tails[low := index] else tails + [index];
    rank' := rank + [low];
    assert previous[..] == if low > 0 then old(previous[..])[index := tails[low - 1]] else old(previous[..]);
    TailsStep(values, index, tails, old(previous[..]), rank, low);
    RankStep(values, index, tails, old(previous[..]), rank, low);
    LinksStep(values, index, tails, old(previous[..]), rank, low);
  }

  /** A longest strictly increasing selection of positions, by patience sorting with back links. */
  method LongestIncreasing(values: seq<nat>) returns (picks: seq<nat>)
    ensures Increasing(values, picks)
    ensures forall other :: Increasing(values, other) ==> |other| <= |picks|
  {
    var tails: seq<nat> := [];
    var previous := new int[|values|](_ => -1);
    ghost var rank: seq<nat> := [];
    for index := 0 to |values|
      invariant SearchState(values, index, tails, previous[..], rank)
      invariant forall i :: index <= i < |values| ==> previous[i] == -1
    {
      tails, rank := TakeIn(values, index, tails, previous, rank);
    }
    NoneLongerThanTails(values, tails, previous[..], rank);
    picks := FollowLinks(values, previous, tails, rank);
  }

  /** A walk along back links: positions and values fall. */
  ghost predicate Falling(values: seq<nat>, walked: seq<nat>) {
    && (forall k :: 0 <= k < |walked| ==> walked[k] < |values|)
    && (forall i, k :: 0 <= i < k < |walked| ==> walked[k] < walked[i] && values[walked[k]] < values[walked[i]])
  }

  lemma FallsOn(values: seq<nat>, walked: seq<nat>, index: nat)
    requires Falling(values, walked) && index < |values|
    requires |walked| > 0 ==> index < walked[|walked| - 1] && values[index] < values[walked[|walked| - 1]]
    ensures Falling(values, walked + [index])
  {
  }

  lemma ReversedIncreases(values: seq<nat>, walked: seq<nat>)
    requires Falling(values, walked)
    ensures Increasing(values, Reversed(walked))
  {
  }

  /** Walks the back links from the last tail and returns the walk in forward order. */
  method FollowLinks(values: seq<nat>, previous: array<int>, tails: seq<nat>, ghost rank: seq<nat>)
    returns (picks: seq<nat>)
    requires SearchState(values, |values|, tails, previous[..], rank)
    ensures Increasing(values, picks)
    ensures |picks| == |tails|
  {
    var walked: seq<nat> := [];
    var index := if |tails| > 0 then tails[|tails| - 1] else -1;
    while index >= 0
      invariant -1 <= index < |values|
      invariant Falling(values, walked)
      invariant |walked| > 0 ==> previous[walked[|walked| - 1]] == index
      invariant |walked| + (if index < 0 then 0 else rank[index] + 1) == |tails|
      decreases index
    {
      assert LinksBack(values, previous[..], rank, index);
      if |walked| > 0 {
        assert LinksBack(values, previous[..], rank, walked[|walked| - 1]);
      }
      FallsOn(values, walked, index);
      walked := walked + [index];
      index := previous[index];
    }
    ReversedIncreases(values, walked);
    picks := Reversed(walked);
  }

  function Reversed<T>(s: seq<T>): (r: seq<T>)
    ensures |r| == |s|
    ensures forall k :: 0 <= k < |s| ==> r[k] == s[|s| - 1 - k]
  {
    seq(|s|, k requires 0 <= k < |s| => s[|s| - 1 - k])
  }

  // ---------------------------------------------------------------- anchors

  /** A pair of equal lines, each occurring once on its side. */
  ghost predicate CommonUnique(left: seq<string>, right: seq<string>, pair: LinePair) {
    OccursOnce(left, pair.oldIndex) && OccursOnce(right, pair.newIndex) && left[pair.oldIndex] == right[pair.newIndex]
  }

  /** A chain of common unique lines that increases on both sides. */
  ghost predicate AnchorChain(left: seq<string>, right: seq<string>, chain: seq<LinePair>) {
    && (forall k :: 0 <= k < |chain| ==> CommonUnique(left, right, chain[k]))
    && (forall i, k :: 0 <= i < k < |chain| ==>
          chain[i].oldIndex < chain[k].oldIndex && chain[i].newIndex < chain[k].newIndex)
  }

  /** Every common unique pair, once, by old position. */
  ghost predicate ListsCommonUnique(left: seq<string>, right: seq<string>, pairs: seq<LinePair>, below: nat) {
    && (forall k :: 0 <= k < |pairs| ==> CommonUnique(left, right, pairs[k]) && pairs[k].oldIndex < below)
    && (forall k, m :: 0 <= k < m < |pairs| ==> pairs[k].oldIndex < pairs[m].oldIndex)
    && (forall pair :: CommonUnique(left, right, pair) && pair.oldIndex < below ==> pair in pairs)
  }

  /** The map of unique old lines is walked in insertion order, which is by first (here only) occurrence,
      so the pairs come out sorted by old position. */
  method CommonUniquePairs(left: seq<string>, right: seq<string>) returns (pairs: seq<LinePair>)
    ensures ListsCommonUnique(left, right, pairs, |left|)
  {
    var oldLines := UniqueLines(left);
    var newLines := UniqueLines(right);
    pairs := [];
    for index := 0 to |left|
      invariant ListsCommonUnique(left, right, pairs, index)
    {
      ghost var before := pairs;
      var line := left[index];
      if line in oldLines && oldLines[line] == index && line in newLines {
        pairs := pairs + [LinePair(index, newLines[line])];
        assert pairs[|pairs| - 1] in pairs;
      }
      assert forall pair :: pair in before ==> pair in pairs;
      forall pair | CommonUnique(left, right, pair) && pair.oldIndex < index + 1
        ensures pair in pairs
      {
        if pair.oldIndex == index {
          assert pair == LinePair(index, newLines[line]);
        }
      }
    }
  }

  /** Where `pair` stands in the list of all pairs. */
  ghost function PositionOf(pairs: seq<LinePair>, pair: LinePair): (k: nat)
    requires pair in pairs
    ensures k < |pairs| && pairs[k] == pair
  {
    var k: nat :| k < |pairs| && pairs[k] == pair;
    k
  }

  lemma LaterPairStandsLater(left: seq<string>, right: seq<string>, pairs: seq<LinePair>, a: LinePair, b: LinePair)
    requires ListsCommonUnique(left, right, pairs, |left|) && a in pairs && b in pairs
    requires a.oldIndex < b.oldIndex
    ensures PositionOf(pairs, a) < PositionOf(pairs, b)
  {
    var p, q := PositionOf(pairs, a), PositionOf(pairs, b);
    assert p != q && !(q < p);
  }

  /** In the list of all pairs a chain occupies increasing positions, so it is an increasing selection. */
  lemma ChainIsSelection(left: seq<string>, right: seq<string>, pairs: seq<LinePair>, chain: seq<LinePair>)
    requires ListsCommonUnique(left, right, pairs, |left|) && AnchorChain(left, right, chain)
    ensures exists picks :: |picks| == |chain| && Increasing(NewIndices(pairs), picks)
  {
    forall k | 0 <= k < |chain|
      ensures chain[k] in pairs
    {
      assert CommonUnique(left, right, chain[k]);
    }
    var picks := seq(|chain|, k requires 0 <= k < |chain| => PositionOf(pairs, chain[k]));
    forall i, k | 0 <= i < k < |picks|
      ensures picks[i] < picks[k] && NewIndices(pairs)[picks[i]] < NewIndices(pairs)[picks[k]]
    {
      LaterPairStandsLater(left, right, pairs, chain[i], chain[k]);
    }
    assert Increasing(NewIndices(pairs), picks);
  }

  function NewIndices(pairs: seq<LinePair>): (r: seq<nat>)
    ensures |r| == |pairs|
    ensures forall k :: 0 <= k < |pairs| ==> r[k] == pairs[k].newIndex
  {
    seq(|pairs|, k requires 0 <= k < |pairs| => pairs[k].newIndex)
  }

  method PatienceAnchors(left: seq<string>, right: seq<string>) returns (anchors: seq<LinePair>)
    ensures AnchorChain(left, right, anchors)
    ensures forall chain :: AnchorChain(left, right, chain) ==> |chain| <= |anchors|
  {
    var pairs := CommonUniquePairs(left, right);
    var picks := LongestIncreasing(NewIndices(pairs));
    anchors := seq(|picks|, k requires 0 <= k < |picks| => pairs[picks[k]]);
    forall chain | AnchorChain(left, right, chain)
      ensures |chain| <= |anchors|
    {
      ChainIsSelection(left, right, pairs, chain);
    }
  }
}
