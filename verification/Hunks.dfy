/** Rendering an edit script as hunks with context, and reading such hunks back as a patch. */
module Hunks {
  import opened Common
  import opened EditScript
  import opened Patience

  /** First and last operation of a hunk, both inclusive. */
  datatype Range = Range(first: nat, last: nat)

  /** A hunk: the numbers of its `@@ -oldStart,oldCount +newStart,newCount @@` header, and its marked lines. */
  datatype Hunk = Hunk(oldStart: nat, oldCount: nat, newStart: nat, newCount: nat, body: seq<string>)

  const REDACTED := "[redacted credential-like line]"

  // ---------------------------------------------------------------- ranges of operations

  predicate Changed(op: Operation) { op.kind != Equal }

  /** Some changed operation among the first `below` lies within `context` of position `i`. */
  ghost predicate Near(ops: seq<Operation>, below: nat, context: nat, i: int)
    requires below <= |ops|
  {
    exists c :: 0 <= c < below && Changed(ops[c]) && c - context <= i <= c + context
  }

  ghost predicate Covers(ranges: seq<Range>, i: int) {
    exists r :: 0 <= r < |ranges| && ranges[r].first <= i <= ranges[r].last
  }

  /** In order, at least one operation apart, and inside a script of `length` operations. */
  ghost predicate Apart(ranges: seq<Range>, length: nat) {
    && (forall r :: 0 <= r < |ranges| ==> ranges[r].first <= ranges[r].last < length)
    && (forall r, s :: 0 <= r < s < |ranges| ==> ranges[r].last + 1 < ranges[s].first)
  }

  /** The ranges lie apart and cover exactly the operations near a change. */
  ghost predicate RangesOf(ops: seq<Operation>, below: nat, context: nat, ranges: seq<Range>)
    requires below <= |ops|
  {
    && Apart(ranges, |ops|)
    && (forall i :: 0 <= i < |ops| ==> (Covers(ranges, i) <==> Near(ops, below, context, i)))
  }

  function Around(index: nat, context: nat, length: nat): (range: Range)
    requires index < length
    ensures range.first <= index <= range.last < length
  {
    Range(Max(0, index - context), Min(length - 1, index + context))
  }

  /** `next` does not start or end before the last range does. */
  predicate Follows(ranges: seq<Range>, next: Range) {
    ranges != [] ==> ranges[|ranges| - 1].first <= next.first && ranges[|ranges| - 1].last <= next.last
  }

  /** Adds a range; one that touches the last range is folded into it. */
  function Folded(ranges: seq<Range>, next: Range): seq<Range> {
    var n := |ranges| - 1;
    if ranges != [] && next.first <= ranges[n].last + 1
    then ranges[n := ranges[n].(last := Max(ranges[n].last, next.last))]
    else ranges + [next]
  }

  lemma FoldedCovers(ranges: seq<Range>, next: Range, i: int)
    requires Follows(ranges, next)
    ensures Covers(Folded(ranges, next), i) <==> Covers(ranges, i) || next.first <= i <= next.last
  {
    var folded := Folded(ranges, next);
    if Covers(folded, i) {
      var r :| 0 <= r < |folded| && folded[r].first <= i <= folded[r].last;
      assert r < |ranges| && folded[r] == ranges[r] ==> Covers(ranges, i);
      assert r < |ranges| && i <= ranges[r].last ==> Covers(ranges, i);
    }
    if Covers(ranges, i) {
      var r :| 0 <= r < |ranges| && ranges[r].first <= i <= ranges[r].last;
      assert folded[r].first <= i <= folded[r].last;
    } else if next.first <= i <= next.last {
      assert ranges != [] ==> !(ranges[|ranges| - 1].first <= i <= ranges[|ranges| - 1].last);
      assert folded[|folded| - 1].first <= i <= folded[|folded| - 1].last;
    }
  }

  lemma FoldedApart(ranges: seq<Range>, next: Range, length: nat)
    requires Apart(ranges, length) && Follows(ranges, next) && next.first <= next.last < length
    ensures Apart(Folded(ranges, next), length)
  {
  }

  lemma NearStep(ops: seq<Operation>, index: nat, context: nat, i: int)
    requires index < |ops| && 0 <= i < |ops|
    ensures var next := Around(index, context, |ops|);
            Near(ops, index + 1, context, i)
            <==> (Near(ops, index, context, i) || (Changed(ops[index]) && next.first <= i <= next.last))
  {
    if Near(ops, index + 1, context, i) {
      var c :| 0 <= c < index + 1 && Changed(ops[c]) && c - context <= i <= c + context;
      assert c < index ==> Near(ops, index, context, i);
    }
  }

  lemma RangesStep(ops: seq<Operation>, index: nat, context: nat, ranges: seq<Range>)
    requires index < |ops| && RangesOf(ops, index, context, ranges)
    requires Changed(ops[index]) ==> Follows(ranges, Around(index, context, |ops|))
    ensures RangesOf(ops, index + 1, context,
                     if Changed(ops[index]) then Folded(ranges, Around(index, context, |ops|)) else ranges)
  {
    var next := Around(index, context, |ops|);
    var ranges' := if Changed(ops[index]) then Folded(ranges, next) else ranges;
    forall i | 0 <= i < |ops|
      ensures Covers(ranges', i) <==> Near(ops, index + 1, context, i)
    {
      NearStep(ops, index, context, i);
      if Changed(ops[index]) {
        FoldedCovers(ranges, next, i);
      }
    }
    if Changed(ops[index]) {
      FoldedApart(ranges, next, |ops|);
    }
  }

  lemma LaterFollows(ops: seq<Operation>, index: nat, context: nat, ranges: seq<Range>)
    requires index < |ops|
    requires forall later :: index <= later < |ops| ==> Follows(ranges, Around(later, context, |ops|))
    ensures forall later :: index < later < |ops| ==>
      Follows(Folded(ranges, Around(index, context, |ops|)), Around(later, context, |ops|))
  {
  }

  /** Collects the ranges around the changed operations, in script order. */
  method ChangeRanges(ops: seq<Operation>, context: nat) returns (ranges: seq<Range>)
    ensures RangesOf(ops, |ops|, context, ranges)
  {
    ranges := [];
    for index := 0 to |ops|
      invariant RangesOf(ops, index, context, ranges)
      invariant forall later :: index <= later < |ops| ==> Follows(ranges, Around(later, context, |ops|))
    {
      RangesStep(ops, index, context, ranges);
      LaterFollows(ops, index, context, ranges);
      if Changed(ops[index]) {
        var next := Around(index, context, |ops|);
        ghost var folded := Folded(ranges, next);
        var n := |ranges| - 1;
        if ranges != [] && next.first <= ranges[n].last + 1 {
          ranges := ranges[n := ranges[n].(last := Max(ranges[n].last, next.last))];
        } else {
          ranges := ranges + [next];
        }
        assert ranges == folded;
      }
    }
  }

  // ---------------------------------------------------------------- segments of a script

  /** The lines of `ops[from..to]` that are not of kind `dropped`. */
  function Segment(ops: seq<Operation>, from: nat, to: nat, dropped: Kind): seq<string>
    requires from <= to <= |ops|
  {
    if from == to then []
    else Segment(ops, from, to - 1, dropped) + if ops[to - 1].kind == dropped then [] else [ops[to - 1].line]
  }

  lemma {:induction false} SegmentIsSlice(ops: seq<Operation>, from: nat, to: nat, dropped: Kind)
    requires from <= to <= |ops|
    ensures Segment(ops, from, to, dropped) == Without(ops[from..to], dropped)
  {
    if from < to {
      SegmentIsSlice(ops, from, to - 1, dropped);
      assert ops[from..to][..to - from - 1] == ops[from..to - 1];
    }
  }

  /** The position carried by the `i`-th operation, in terms of segments. */
  ghost predicate PlacedAt(ops: seq<Operation>, i: nat)
    requires i < |ops|
  {
    ops[i].oldLine == 1 + |Segment(ops, 0, i, Add)| && ops[i].newLine == 1 + |Segment(ops, 0, i, Remove)|
  }

  lemma NumberedIsPlaced(ops: seq<Operation>)
    requires Numbered(ops)
    ensures forall i: nat :: i < |ops| ==> PlacedAt(ops, i)
    ensures Segment(ops, 0, |ops|, Add) == OldSide(ops) && Segment(ops, 0, |ops|, Remove) == NewSide(ops)
  {
    forall i: nat | i < |ops|
      ensures PlacedAt(ops, i)
    {
      NumberAt(ops, i);
      assert ops[0..i] == ops[..i];
      SegmentIsSlice(ops, 0, i, Add);
      SegmentIsSlice(ops, 0, i, Remove);
    }
    assert ops[0..|ops|] == ops;
    SegmentIsSlice(ops, 0, |ops|, Add);
    SegmentIsSlice(ops, 0, |ops|, Remove);
  }

  lemma {:induction false} SegmentsJoin(ops: seq<Operation>, from: nat, mid: nat, to: nat, dropped: Kind)
    requires from <= mid <= to <= |ops|
    ensures Segment(ops, from, to, dropped) == Segment(ops, from, mid, dropped) + Segment(ops, mid, to, dropped)
  {
    if mid < to {
      SegmentsJoin(ops, from, mid, to - 1, dropped);
    }
  }

  // ---------------------------------------------------------------- rendered hunks

  function Marker(kind: Kind): char {
    match kind
    case Add => '+'
    case Remove => '-'
    case Equal => ' '
  }

  function Redact(credential: string -> bool, line: string): string {
    if credential(line) then REDACTED else line
  }

  function RenderedLine(credential: string -> bool, op: Operation): string {
    [Marker(op.kind)] + Redact(credential, op.line)
  }

  function RenderedBody(credential: string -> bool, ops: seq<Operation>, from: nat, to: nat): (body: seq<string>)
    requires from <= to <= |ops|
    ensures |body| == to - from
  {
    seq(to - from, k requires 0 <= k < to - from => RenderedLine(credential, ops[from + k]))
  }

  function RenderedHunk(credential: string -> bool, ops: seq<Operation>, range: Range): Hunk
    requires range.first <= range.last < |ops|
  {
    var from, to := range.first, range.last + 1;
    Hunk(ops[from].oldLine, |Segment(ops, from, to, Add)|, ops[from].newLine, |Segment(ops, from, to, Remove)|,
         RenderedBody(credential, ops, from, to))
  }

  /** The hunks of the ranges from the `k`-th on. */
  function HunksFrom(credential: string -> bool, ops: seq<Operation>, ranges: seq<Range>, k: nat): (hunks: seq<Hunk>)
    requires k <= |ranges| && Apart(ranges, |ops|)
    ensures |hunks| == |ranges| - k
    decreases |ranges| - k
  {
    if k == |ranges| then [] else [RenderedHunk(credential, ops, ranges[k])] + HunksFrom(credential, ops, ranges, k + 1)
  }

  // ---------------------------------------------------------------- applying hunks

  /** Every line of a hunk body says whether it is added, removed or kept. */
  predicate Marked(body: seq<string>) { forall i :: 0 <= i < |body| ==> IsMarked(body[i]) }

  predicate IsMarked(line: string) { line != [] && line[0] in {'+', '-', ' '} }

  /** The lines of a hunk body behind the mark, or behind that of a kept line. */
  function LinesBehind(body: seq<string>, mark: char): seq<string> {
    if body == [] then []
    else
      var last := body[|body| - 1];
      LinesBehind(body[..|body| - 1], mark)
      + if last != [] && (last[0] == mark || last[0] == ' ') then [last[1..]] else []
  }

  /** A strict patch: every line must carry its mark, and every hunk must start where its header says on both sides,
      count what its header says, and find its old lines in place. `taken` old lines are consumed and `made` new
      lines made. */
  function Apply(lines: seq<string>, hunks: seq<Hunk>, taken: nat, made: nat): Option<seq<string>>
    requires taken <= |lines|
    decreases |hunks|
  {
    if hunks == [] then Some(lines[taken..])
    else
      var hunk := hunks[0];
      var removed, inserted := LinesBehind(hunk.body, '-'), LinesBehind(hunk.body, '+');
      var start := hunk.oldStart - 1;
      if !Marked(hunk.body) then None
      else if start < taken || start + |removed| > |lines| || lines[start..start + |removed|] != removed then None
      else if hunk.oldCount != |removed| || hunk.newCount != |inserted| then None
      else if hunk.newStart != made + (start - taken) + 1 then None
      else
        match Apply(lines, hunks[1..], start + |removed|, made + (start - taken) + |inserted|)
        case None => None
        case Some(rest) => Some(lines[taken..start] + inserted + rest)
  }

  /** The line is shown as it is: it does not look like a credential, or is the replacement itself. */
  predicate Shown(credential: string -> bool, line: string) { !credential(line) || line == REDACTED }

  ghost predicate NothingRedacted(credential: string -> bool, ops: seq<Operation>, from: nat, to: nat)
    requires from <= to <= |ops|
  {
    forall i :: from <= i < to ==> Shown(credential, ops[i].line)
  }

  ghost predicate HunkShown(credential: string -> bool, ops: seq<Operation>, ranges: seq<Range>, k: nat)
    requires k < |ranges| && Apart(ranges, |ops|)
  {
    NothingRedacted(credential, ops, ranges[k].first, ranges[k].last + 1)
  }

  /** Every line inside a hunk is shown as it is. */
  ghost predicate HunksShown(credential: string -> bool, ops: seq<Operation>, ranges: seq<Range>)
    requires Apart(ranges, |ops|)
  {
    forall k :: 0 <= k < |ranges| ==> HunkShown(credential, ops, ranges, k)
  }

  /** A script that carries its positions, with its ranges. */
  ghost predicate Placed(ops: seq<Operation>, context: nat, ranges: seq<Range>) {
    RangesOf(ops, |ops|, context, ranges) && forall i: nat :: i < |ops| ==> PlacedAt(ops, i)
  }

  ghost predicate Patchable(credential: string -> bool, ops: seq<Operation>, context: nat, ranges: seq<Range>) {
    Placed(ops, context, ranges) && HunksShown(credential, ops, ranges)
  }

  /** The lines of `ops[from..to]` that are not of kind `dropped`, redacted. */
  function RedactedSegment(credential: string -> bool, ops: seq<Operation>, from: nat, to: nat,
                           dropped: Kind): (lines: seq<string>)
    requires from <= to <= |ops|
    ensures |lines| == |Segment(ops, from, to, dropped)|
  {
    if from == to then []
    else
      RedactedSegment(credential, ops, from, to - 1, dropped)
      + if ops[to - 1].kind == dropped then [] else [Redact(credential, ops[to - 1].line)]
  }

  lemma LastRenderedLine(credential: string -> bool, ops: seq<Operation>, from: nat, to: nat, mark: char)
    requires from < to <= |ops|
    ensures LinesBehind(RenderedBody(credential, ops, from, to), mark)
         == LinesBehind(RenderedBody(credential, ops, from, to - 1), mark)
            + if Marker(ops[to - 1].kind) in {mark, ' '} then [Redact(credential, ops[to - 1].line)] else []
  {
    var body := RenderedBody(credential, ops, from, to);
    assert body[..|body| - 1] == RenderedBody(credential, ops, from, to - 1);
    assert body[|body| - 1] == RenderedLine(credential, ops[from + (|body| - 1)]);
    assert body[|body| - 1][1..] == Redact(credential, ops[to - 1].line);
  }

  lemma BodyIsMarked(credential: string -> bool, ops: seq<Operation>, from: nat, to: nat)
    requires from <= to <= |ops|
    ensures Marked(RenderedBody(credential, ops, from, to))
  {
    var body := RenderedBody(credential, ops, from, to);
    forall i | 0 <= i < |body|
      ensures IsMarked(body[i])
    {
      assert body[i] == RenderedLine(credential, ops[from + i]);
    }
  }

  /** The removed and kept lines of a body are the old lines of its range, the added and kept ones the new lines,
      redacted. */
  lemma {:induction false} BodyReadsBack(credential: string -> bool, ops: seq<Operation>, from: nat, to: nat)
    requires from <= to <= |ops|
    ensures LinesBehind(RenderedBody(credential, ops, from, to), '-') == RedactedSegment(credential, ops, from, to, Add)
    ensures LinesBehind(RenderedBody(credential, ops, from, to), '+')
         == RedactedSegment(credential, ops, from, to, Remove)
  {
    if from < to {
      BodyReadsBack(credential, ops, from, to - 1);
      LastRenderedLine(credential, ops, from, to, '-');
      LastRenderedLine(credential, ops, from, to, '+');
    }
  }

  lemma SameEnds(a: seq<string>, x: string, b: seq<string>, y: string)
    requires a + [x] == b + [y]
    ensures a == b && x == y
  {
    assert a == (a + [x])[..|a|] && b == (b + [y])[..|b|];
    assert x == (a + [x])[|a|];
  }

  /** All lines of the segment are shown. */
  ghost predicate SegmentShown(credential: string -> bool, ops: seq<Operation>, from: nat, to: nat, dropped: Kind)
    requires from <= to <= |ops|
  {
    forall i :: from <= i < to && ops[i].kind != dropped ==> Shown(credential, ops[i].line)
  }

  lemma RedactedIsLonger(credential: string -> bool, ops: seq<Operation>, from: nat, to: nat, dropped: Kind)
    requires from < to <= |ops| && ops[to - 1].kind != dropped
    ensures RedactedSegment(credential, ops, from, to, dropped) == Segment(ops, from, to, dropped)
       <==> && RedactedSegment(credential, ops, from, to - 1, dropped) == Segment(ops, from, to - 1, dropped)
            && Shown(credential, ops[to - 1].line)
  {
    var shown, lines := RedactedSegment(credential, ops, from, to - 1, dropped), Segment(ops, from, to - 1, dropped);
    var line := ops[to - 1].line;
    if shown + [Redact(credential, line)] == lines + [line] {
      SameEnds(shown, Redact(credential, line), lines, line);
    }
  }

  lemma RedactedIsNoLonger(credential: string -> bool, ops: seq<Operation>, from: nat, to: nat, dropped: Kind)
    requires from < to <= |ops| && ops[to - 1].kind == dropped
    ensures RedactedSegment(credential, ops, from, to, dropped)
         == RedactedSegment(credential, ops, from, to - 1, dropped)
    ensures Segment(ops, from, to, dropped) == Segment(ops, from, to - 1, dropped)
  {
  }

  /** The redacted lines of a segment are the lines themselves exactly when each is shown. */
  lemma {:induction false} RedactedIsSegment(credential: string -> bool, ops: seq<Operation>, from: nat, to: nat,
                                             dropped: Kind)
    requires from <= to <= |ops|
    ensures RedactedSegment(credential, ops, from, to, dropped) == Segment(ops, from, to, dropped)
       <==> SegmentShown(credential, ops, from, to, dropped)
  {
    if from < to {
      RedactedIsSegment(credential, ops, from, to - 1, dropped);
      if ops[to - 1].kind != dropped {
        RedactedIsLonger(credential, ops, from, to, dropped);
      } else {
        RedactedIsNoLonger(credential, ops, from, to, dropped);
      }
    }
  }

  /** Every operation is on one of the sides, so a range is shown exactly when both of its sides are. */
  lemma ShownExactlyOnBothSides(credential: string -> bool, ops: seq<Operation>, from: nat, to: nat)
    requires from <= to <= |ops|
    ensures NothingRedacted(credential, ops, from, to)
       <==> && RedactedSegment(credential, ops, from, to, Add) == Segment(ops, from, to, Add)
            && RedactedSegment(credential, ops, from, to, Remove) == Segment(ops, from, to, Remove)
  {
    RedactedIsSegment(credential, ops, from, to, Add);
    RedactedIsSegment(credential, ops, from, to, Remove);
  }

  /** Where the `k`-th hunk may start: just behind the one before it. */
  ghost function Position(ranges: seq<Range>, k: nat): nat
    requires k <= |ranges|
  {
    if k == 0 then 0 else ranges[k - 1].last + 1
  }

  lemma {:induction false} RangesAscend(ranges: seq<Range>, length: nat, r: nat, s: nat)
    requires Apart(ranges, length) && r < s <= |ranges|
    ensures ranges[r].last < Position(ranges, s)
    decreases s
  {
    if r + 1 < s {
      RangesAscend(ranges, length, r, s - 1);
    }
  }

  lemma ChangeIsNearItself(ops: seq<Operation>, context: nat, i: nat)
    requires i < |ops|
    ensures Changed(ops[i]) ==> Near(ops, |ops|, context, i)
  {
    if Changed(ops[i]) {
      assert i - context <= i <= i + context;
    }
  }

  /** Between two hunks, and on either end, nothing is changed. */
  lemma GapIsUnchanged(ops: seq<Operation>, context: nat, ranges: seq<Range>, k: nat, i: nat)
    requires RangesOf(ops, |ops|, context, ranges) && k <= |ranges|
    requires Position(ranges, k) <= i < |ops| && (k < |ranges| ==> i < ranges[k].first)
    ensures ops[i].kind == Equal
  {
    forall r | 0 <= r < |ranges|
      ensures !(ranges[r].first <= i <= ranges[r].last)
    {
      if r < k {
        RangesAscend(ranges, |ops|, r, k);
      } else if k < r {
        RangesAscend(ranges, |ops|, k, r);
      }
    }
    ChangeIsNearItself(ops, context, i);
  }

  /** The hunk takes `removed` from line `oldStart` on and puts `inserted` at line `newStart`. */
  ghost predicate Replaces(hunk: Hunk, removed: seq<string>, inserted: seq<string>, oldStart: nat, newStart: nat) {
    && Marked(hunk.body) && LinesBehind(hunk.body, '-') == removed && hunk.oldCount == |removed|
    && LinesBehind(hunk.body, '+') == inserted && hunk.newCount == |inserted|
    && hunk.oldStart == oldStart && hunk.newStart == newStart
  }

  /** The hunk takes the old lines of `ops[from..to]` where they are and puts the new ones. */
  ghost predicate ReplacesRange(ops: seq<Operation>, hunk: Hunk, from: nat, to: nat)
    requires from <= to <= |ops|
  {
    Replaces(hunk, Segment(ops, from, to, Add), Segment(ops, from, to, Remove),
             1 + |Segment(ops, 0, from, Add)|, 1 + |Segment(ops, 0, from, Remove)|)
  }

  /** A rendered hunk of lines that are shown gives back its operations' sides and place. */
  lemma HunkReadsBack(credential: string -> bool, ops: seq<Operation>, range: Range)
    requires range.first <= range.last < |ops| && PlacedAt(ops, range.first)
    requires NothingRedacted(credential, ops, range.first, range.last + 1)
    ensures ReplacesRange(ops, RenderedHunk(credential, ops, range), range.first, range.last + 1)
  {
    BodyReadsBack(credential, ops, range.first, range.last + 1);
    BodyIsMarked(credential, ops, range.first, range.last + 1);
    ShownExactlyOnBothSides(credential, ops, range.first, range.last + 1);
  }

  /** One hunk, applied behind a gap of lines that both sides share. */
  lemma HunkApplies(lines: seq<string>, hunk: Hunk, later: seq<Hunk>, taken: nat, made: nat, taken': nat, made': nat,
                    gap: seq<string>, removed: seq<string>, inserted: seq<string>, rest: seq<string>,
                    result: seq<string>)
    requires taken <= |lines| && lines[taken..] == gap + removed + rest
    requires Replaces(hunk, removed, inserted, taken + |gap| + 1, made + |gap| + 1)
    requires taken' == taken + |gap| + |removed| <= |lines| && made' == made + |gap| + |inserted|
    requires Apply(lines, later, taken', made') == Some(result)
    ensures Apply(lines, [hunk] + later, taken, made) == Some(gap + inserted + result)
  {
    assert lines[taken..taken + |gap|] == lines[taken..][..|gap|] == gap;
    assert lines[taken + |gap|..taken'] == lines[taken..][|gap|..|gap| + |removed|] == removed;
    assert ([hunk] + later)[1..] == later;
  }

  /** From position `p` of the script on, `hunks` turn what is left of the old side into what is left of the new. */
  ghost predicate AppliesAt(ops: seq<Operation>, hunks: seq<Hunk>, p: nat) {
    && p <= |ops|
    && |Segment(ops, 0, p, Add)| <= |Segment(ops, 0, |ops|, Add)|
    && Apply(Segment(ops, 0, |ops|, Add), hunks, |Segment(ops, 0, p, Add)|, |Segment(ops, 0, p, Remove)|)
         == Some(Segment(ops, p, |ops|, Remove))
  }

  lemma AppliesBehindGap(ops: seq<Operation>, p: nat, start: nat, end: nat, hunk: Hunk, later: seq<Hunk>)
    requires p <= start <= end <= |ops|
    requires ReplacesRange(ops, hunk, start, end)
    requires Segment(ops, p, start, Add) == Segment(ops, p, start, Remove)
    requires AppliesAt(ops, later, end)
    ensures AppliesAt(ops, [hunk] + later, p)
  {
    forall dropped: Kind
      ensures Segment(ops, 0, |ops|, dropped) == Segment(ops, 0, p, dropped) + Segment(ops, p, |ops|, dropped)
      ensures Segment(ops, p, |ops|, dropped) == Segment(ops, p, end, dropped) + Segment(ops, end, |ops|, dropped)
      ensures Segment(ops, p, end, dropped) == Segment(ops, p, start, dropped) + Segment(ops, start, end, dropped)
      ensures Segment(ops, 0, start, dropped) == Segment(ops, 0, p, dropped) + Segment(ops, p, start, dropped)
      ensures Segment(ops, 0, end, dropped) == Segment(ops, 0, p, dropped) + Segment(ops, p, end, dropped)
    {
      SegmentsJoin(ops, 0, p, |ops|, dropped);
      SegmentsJoin(ops, p, end, |ops|, dropped);
      SegmentsJoin(ops, p, start, end, dropped);
      SegmentsJoin(ops, 0, p, start, dropped);
      SegmentsJoin(ops, 0, p, end, dropped);
    }
    HunkApplies(Segment(ops, 0, |ops|, Add), hunk, later,
                |Segment(ops, 0, p, Add)|, |Segment(ops, 0, p, Remove)|, |Segment(ops, 0, end, Add)|,
                    |Segment(ops, 0, end, Remove)|,
                Segment(ops, p, start, Add), Segment(ops, start, end, Add), Segment(ops, start, end, Remove),
                Segment(ops, end, |ops|, Add), Segment(ops, end, |ops|, Remove));
  }

  lemma {:induction false} UnchangedSegment(ops: seq<Operation>, from: nat, to: nat)
    requires from <= to <= |ops| && forall i :: from <= i < to ==> ops[i].kind == Equal
    ensures Segment(ops, from, to, Add) == Segment(ops, from, to, Remove)
  {
    if from < to {
      UnchangedSegment(ops, from, to - 1);
    }
  }

  /** Where the gap in front of the `k`-th hunk, or behind the last one, ends. */
  ghost function GapEnd(ops: seq<Operation>, ranges: seq<Range>, k: nat): nat
    requires k <= |ranges|
  {
    if k < |ranges| then ranges[k].first else |ops|
  }

  lemma GapSidesAgree(ops: seq<Operation>, context: nat, ranges: seq<Range>, k: nat)
    requires RangesOf(ops, |ops|, context, ranges) && k <= |ranges|
    ensures Position(ranges, k) <= GapEnd(ops, ranges, k) <= |ops|
    ensures var p, end := Position(ranges, k), GapEnd(ops, ranges, k);
            Segment(ops, p, end, Add) == Segment(ops, p, end, Remove)
  {
    var p, end := Position(ranges, k), GapEnd(ops, ranges, k);
    forall i | p <= i < end
      ensures ops[i].kind == Equal
    {
      GapIsUnchanged(ops, context, ranges, k, i);
    }
    UnchangedSegment(ops, p, end);
  }

  lemma AppliesFromHunk(credential: string -> bool, ops: seq<Operation>, context: nat, ranges: seq<Range>, k: nat)
    requires Placed(ops, context, ranges) && k < |ranges| && HunkShown(credential, ops, ranges, k)
    requires AppliesAt(ops, HunksFrom(credential, ops, ranges, k + 1), Position(ranges, k + 1))
    ensures AppliesAt(ops, HunksFrom(credential, ops, ranges, k), Position(ranges, k))
  {
    var hunk, later := RenderedHunk(credential, ops, ranges[k]), HunksFrom(credential, ops, ranges, k + 1);
    GapSidesAgree(ops, context, ranges, k);
    assert PlacedAt(ops, ranges[k].first);
    HunkReadsBack(credential, ops, ranges[k]);
    AppliesBehindGap(ops, Position(ranges, k), ranges[k].first, ranges[k].last + 1, hunk, later);
    assert HunksFrom(credential, ops, ranges, k) == [hunk] + later;
  }

  lemma AppliesFromEnd(ops: seq<Operation>, context: nat, ranges: seq<Range>)
    requires Placed(ops, context, ranges)
    ensures AppliesAt(ops, [], Position(ranges, |ranges|))
  {
    GapSidesAgree(ops, context, ranges, |ranges|);
    SegmentsJoin(ops, 0, Position(ranges, |ranges|), |ops|, Add);
  }

  lemma {:induction false} AppliesFrom(credential: string -> bool, ops: seq<Operation>, context: nat,
                                       ranges: seq<Range>, k: nat)
    requires Patchable(credential, ops, context, ranges) && k <= |ranges|
    ensures AppliesAt(ops, HunksFrom(credential, ops, ranges, k), Position(ranges, k))
    decreases |ranges| - k
  {
    if k == |ranges| {
      AppliesFromEnd(ops, context, ranges);
    } else {
      AppliesFrom(credential, ops, context, ranges, k + 1);
      assert HunkShown(credential, ops, ranges, k);
      AppliesFromHunk(credential, ops, context, ranges, k);
    }
  }

  /** Applied strictly to the old lines, the hunks of a script give the new lines if they show all their lines. */
  lemma PatchApplies(credential: string -> bool, ops: seq<Operation>, left: seq<string>, right: seq<string>,
                     context: nat, ranges: seq<Range>)
    requires ScriptFor(ops, left, right) && RangesOf(ops, |ops|, context, ranges) && HunksShown(credential, ops, ranges)
    ensures Apply(left, HunksFrom(credential, ops, ranges, 0), 0, 0) == Some(right)
  {
    NumberedIsPlaced(ops);
    AppliesFrom(credential, ops, context, ranges, 0);
  }

  // ---------------------------------------------------------------- and only then

  /** Three stretches of one sequence are determined by their lengths. */
  lemma SameStretches<T>(a: seq<T>, b: seq<T>, c: seq<T>, a': seq<T>, b': seq<T>, c': seq<T>)
    requires a + b + c == a' + b' + c' && |a| == |a'| && |b| == |b'|
    ensures a == a' && b == b' && c == c'
  {
    var whole := a + b + c;
    assert a == whole[..|a|] && b == whole[|a|..|a| + |b|] && c == whole[|a| + |b|..];
    assert a' == whole[..|a|] && b' == whole[|a|..|a| + |b|] && c' == whole[|a| + |b|..];
  }

  /** The hunk is headed for this place and these counts. */
  ghost predicate Headed(hunk: Hunk, oldStart: nat, oldCount: nat, newStart: nat, newCount: nat) {
    && hunk.oldStart == oldStart && hunk.newStart == newStart
    && |LinesBehind(hunk.body, '-')| == oldCount && |LinesBehind(hunk.body, '+')| == newCount
  }

  /** A hunk that applies starts behind what is taken, finds its old lines, and leaves the rest to the later ones. */
  lemma ApplyUnfolds(lines: seq<string>, hunk: Hunk, later: seq<Hunk>, taken: nat, made: nat, start: nat, taken': nat,
                     made': nat)
    returns (rest: seq<string>)
    requires taken <= |lines| && Apply(lines, [hunk] + later, taken, made).Some?
    requires hunk.oldStart == start + 1 && start >= taken && taken' == start + |LinesBehind(hunk.body, '-')|
    requires made' == made + (start - taken) + |LinesBehind(hunk.body, '+')|
    ensures taken' <= |lines| && lines[start..taken'] == LinesBehind(hunk.body, '-')
    ensures Apply(lines, later, taken', made') == Some(rest)
    ensures Apply(lines, [hunk] + later, taken, made) == Some(lines[taken..start] + LinesBehind(hunk.body, '+') + rest)
  {
    assert ([hunk] + later)[1..] == later;
    rest := Apply(lines, later, taken', made').value;
  }

  /** One that leads to the result has made the new lines. */
  lemma HunkApplied(lines: seq<string>, hunk: Hunk, later: seq<Hunk>, taken: nat, made: nat, taken': nat, made': nat,
                    gap: seq<string>, removed: seq<string>, inserted: seq<string>, rest: seq<string>,
                    result: seq<string>)
    requires taken <= |lines| && lines[taken..] == gap + removed + rest
    requires Headed(hunk, taken + |gap| + 1, |removed|, made + |gap| + 1, |inserted|)
    requires taken' == taken + |gap| + |removed| && made' == made + |gap| + |inserted|
    requires Apply(lines, [hunk] + later, taken, made) == Some(gap + inserted + result)
    ensures LinesBehind(hunk.body, '-') == removed && LinesBehind(hunk.body, '+') == inserted
    ensures taken' <= |lines| && Apply(lines, later, taken', made') == Some(result)
  {
    var start := taken + |gap|;
    var remains := ApplyUnfolds(lines, hunk, later, taken, made, start, taken', made');
    OldLinesFound(lines, taken, gap, removed, rest);
    SameStretches(lines[taken..start], LinesBehind(hunk.body, '+'), remains, gap, inserted, result);
  }

  lemma OldLinesFound(lines: seq<string>, taken: nat, gap: seq<string>, removed: seq<string>, rest: seq<string>)
    requires taken <= |lines| && lines[taken..] == gap + removed + rest
    ensures taken + |gap| + |removed| <= |lines|
    ensures lines[taken + |gap|..taken + |gap| + |removed|] == removed
  {
    var behind := lines[taken..];
    assert |behind| == |gap| + |removed| + |rest|;
    assert lines[taken + |gap|..taken + |gap| + |removed|] == behind[|gap|..|gap| + |removed|];
  }

  /** The two sides of a script from position `p` on, split at a stretch `start..end` behind it. */
  lemma SidesSplit(ops: seq<Operation>, p: nat, start: nat, end: nat, dropped: Kind)
    requires p <= start <= end <= |ops|
    ensures Segment(ops, 0, |ops|, dropped) == Segment(ops, 0, p, dropped) + Segment(ops, p, |ops|, dropped)
    ensures Segment(ops, p, |ops|, dropped)
         == Segment(ops, p, start, dropped) + Segment(ops, start, end, dropped) + Segment(ops, end, |ops|, dropped)
    ensures |Segment(ops, 0, start, dropped)| == |Segment(ops, 0, p, dropped)| + |Segment(ops, p, start, dropped)|
    ensures |Segment(ops, 0, end, dropped)|
         == |Segment(ops, 0, p, dropped)| + |Segment(ops, p, start, dropped)| + |Segment(ops, start, end, dropped)|
  {
    SegmentsJoin(ops, 0, p, |ops|, dropped);
    SegmentsJoin(ops, p, end, |ops|, dropped);
    SegmentsJoin(ops, p, start, end, dropped);
    SegmentsJoin(ops, 0, p, start, dropped);
    SegmentsJoin(ops, 0, p, end, dropped);
  }

  lemma AppliedBehindGap(ops: seq<Operation>, p: nat, start: nat, end: nat, hunk: Hunk, later: seq<Hunk>)
    requires p <= start <= end <= |ops|
    requires Headed(hunk, 1 + |Segment(ops, 0, start, Add)|, |Segment(ops, start, end, Add)|,
                    1 + |Segment(ops, 0, start, Remove)|, |Segment(ops, start, end, Remove)|)
    requires Segment(ops, p, start, Add) == Segment(ops, p, start, Remove)
    requires AppliesAt(ops, [hunk] + later, p)
    ensures LinesBehind(hunk.body, '-') == Segment(ops, start, end, Add)
    ensures LinesBehind(hunk.body, '+') == Segment(ops, start, end, Remove)
    ensures AppliesAt(ops, later, end)
  {
    SidesSplit(ops, p, start, end, Add);
    SidesSplit(ops, p, start, end, Remove);
    var lines, taken := Segment(ops, 0, |ops|, Add), |Segment(ops, 0, p, Add)|;
    assert lines[taken..] == Segment(ops, p, |ops|, Add);
    HunkApplied(lines, hunk, later, taken, |Segment(ops, 0, p, Remove)|,
                |Segment(ops, 0, end, Add)|, |Segment(ops, 0, end, Remove)|, Segment(ops, p, start, Add),
                Segment(ops, start, end, Add), Segment(ops, start, end, Remove),
                Segment(ops, end, |ops|, Add), Segment(ops, end, |ops|, Remove));
  }

  /** From the `k`-th hunk on the patch leads to the new lines. */
  ghost predicate LeadsOn(credential: string -> bool, ops: seq<Operation>, ranges: seq<Range>, k: nat)
    requires k <= |ranges| && Apart(ranges, |ops|)
  {
    AppliesAt(ops, HunksFrom(credential, ops, ranges, k), Position(ranges, k))
  }

  /** A hunk that has applied is shown. */
  lemma AppliedHunkIsShown(credential: string -> bool, ops: seq<Operation>, context: nat, ranges: seq<Range>, k: nat)
    requires Placed(ops, context, ranges) && k < |ranges| && LeadsOn(credential, ops, ranges, k)
    ensures HunkShown(credential, ops, ranges, k) && LeadsOn(credential, ops, ranges, k + 1)
  {
    var from, to, hunk := ranges[k].first, ranges[k].last + 1, RenderedHunk(credential, ops, ranges[k]);
    assert PlacedAt(ops, from);
    assert HunksFrom(credential, ops, ranges, k) == [hunk] + HunksFrom(credential, ops, ranges, k + 1);
    GapSidesAgree(ops, context, ranges, k);
    BodyReadsBack(credential, ops, from, to);
    AppliedBehindGap(ops, Position(ranges, k), from, to, hunk, HunksFrom(credential, ops, ranges, k + 1));
    ShownExactlyOnBothSides(credential, ops, from, to);
  }

  lemma {:induction false} PatchLeadsOn(credential: string -> bool, ops: seq<Operation>, context: nat,
                                        ranges: seq<Range>, k: nat)
    requires Placed(ops, context, ranges) && k <= |ranges| && LeadsOn(credential, ops, ranges, 0)
    ensures LeadsOn(credential, ops, ranges, k)
  {
    if k > 0 {
      PatchLeadsOn(credential, ops, context, ranges, k - 1);
      AppliedHunkIsShown(credential, ops, context, ranges, k - 1);
    }
  }

  /** The patch round trip: applied strictly to the old lines, the rendered hunks of a script give the new lines exactly
      when no line inside a hunk is redacted. Elsewhere in the file there may be any lines. */
  lemma PatchRoundTripExactlyWhen(credential: string -> bool, ops: seq<Operation>, left: seq<string>,
                                  right: seq<string>, context: nat, ranges: seq<Range>)
    requires ScriptFor(ops, left, right) && RangesOf(ops, |ops|, context, ranges)
    ensures Apply(left, HunksFrom(credential, ops, ranges, 0), 0, 0) == Some(right)
       <==> HunksShown(credential, ops, ranges)
  {
    if HunksShown(credential, ops, ranges) {
      PatchApplies(credential, ops, left, right, context, ranges);
    } else if Apply(left, HunksFrom(credential, ops, ranges, 0), 0, 0) == Some(right) {
      NumberedIsPlaced(ops);
      var r: nat :| r < |ranges| && !HunkShown(credential, ops, ranges, r);
      PatchLeadsOn(credential, ops, context, ranges, r);
      AppliedHunkIsShown(credential, ops, context, ranges, r);
      assert false;
    }
  }

  // ---------------------------------------------------------------- rendering a file

  /** Without a change there is no range, and with one there is. */
  lemma NoRangesWithoutChange(ops: seq<Operation>, context: nat, ranges: seq<Range>)
    requires RangesOf(ops, |ops|, context, ranges)
    ensures ranges == [] <==> forall op :: op in ops ==> op.kind == Equal
  {
    if ranges != [] {
      var i := ranges[0].first;
      assert Covers(ranges, i);
      var c :| 0 <= c < |ops| && Changed(ops[c]) && c - context <= i <= c + context;
      assert ops[c] in ops;
    }
    if op :| op in ops && op.kind != Equal {
      var i: nat :| i < |ops| && ops[i] == op;
      ChangeIsNearItself(ops, context, i);
      assert Covers(ranges, i);
    }
  }

  /** The outcome of rendering one changed file: the hunks of a script between the lines, which apply exactly when they
      show all their lines. */
  ghost predicate FilePatch(credential: string -> bool, before: string, after: string, hunks: seq<Hunk>) {
    var left, right := SplitLines(before), SplitLines(after);
    && (hunks == [] <==> left == right && forall i :: 0 <= i < |left| ==> OccursOnce(left, i))
    && exists ops, ranges ::
         && RendersScript(credential, left, right, ops, ranges, hunks)
         && (Apply(left, hunks, 0, 0) == Some(right) <==> HunksShown(credential, ops, ranges))
  }

  /** The hunks are those of a script between the lines that keeps a longest chain, with two lines of context. */
  ghost predicate RendersScript(credential: string -> bool, left: seq<string>, right: seq<string>, ops: seq<Operation>,
                                ranges: seq<Range>, hunks: seq<Hunk>) {
    && ScriptFor(ops, left, right) && KeepsLongestChain(ops, left, right)
    && RangesOf(ops, |ops|, 2, ranges) && hunks == HunksFrom(credential, ops, ranges, 0)
  }

  /** `render_file_patch` with its two lines of context; `captured` is `should_capture_path(path)`. */
  method RenderFilePatch(credential: string -> bool, captured: bool, before: string, after: string)
    returns (patch: Option<seq<Hunk>>)
    ensures patch.Some? <==> captured && before != after
    ensures patch.Some? ==> FilePatch(credential, before, after, patch.value)
  {
    if !captured || before == after {
      return None;
    }
    var ops := DiffLines(before, after);
    var ranges := ChangeRanges(ops, 2);
    var hunks := HunksFrom(credential, ops, ranges, 0);
    patch := Some(hunks);
    var left, right := SplitLines(before), SplitLines(after);
    PatchRoundTripExactlyWhen(credential, ops, left, right, 2, ranges);
    NoRangesWithoutChange(ops, 2, ranges);
    UnchangedExactlyWhen(ops, left, right);
    assert RendersScript(credential, left, right, ops, ranges, hunks);
  }

  // ---------------------------------------------------------------- both sides of a hunk

  /** A range that lies wholly on one side would reach both ends of the script. */
  lemma {:induction false} OneSidedRangeIsWhole(ops: seq<Operation>, context: nat, ranges: seq<Range>, k: nat,
                                                kind: Kind)
    requires RangesOf(ops, |ops|, context, ranges) && k < |ranges| && context > 0 && kind != Equal
    requires forall i :: ranges[k].first <= i <= ranges[k].last ==> ops[i].kind == kind
    ensures ranges[k] == Range(0, |ops| - 1)
  {
    var first, last := ranges[k].first, ranges[k].last;
    if first > 0 {
      NeighbourIsNear(ops, context, first, first - 1);
      NotCovered(ranges, |ops|, k, first - 1);
    }
    if last < |ops| - 1 {
      NeighbourIsNear(ops, context, last, last + 1);
      NotCovered(ranges, |ops|, k, last + 1);
    }
  }

  lemma NeighbourIsNear(ops: seq<Operation>, context: nat, c: nat, i: nat)
    requires c < |ops| && Changed(ops[c]) && context > 0 && c - 1 <= i <= c + 1
    ensures Near(ops, |ops|, context, i)
  {
    assert c - context <= i <= c + context;
  }

  lemma NotCovered(ranges: seq<Range>, length: nat, k: nat, i: nat)
    requires Apart(ranges, length) && k < |ranges| && (i + 1 == ranges[k].first || i == ranges[k].last + 1)
    ensures !Covers(ranges, i)
  {
    forall r | 0 <= r < |ranges|
      ensures !(ranges[r].first <= i <= ranges[r].last)
    {
      if r < k {
        RangesAscend(ranges, length, r, k);
      } else if k < r {
        RangesAscend(ranges, length, k, r);
      }
    }
  }

  lemma {:induction false} EmptySegmentIsDropped(ops: seq<Operation>, from: nat, to: nat, dropped: Kind)
    requires from <= to <= |ops| && Segment(ops, from, to, dropped) == []
    ensures forall i :: from <= i < to ==> ops[i].kind == dropped
  {
    if from < to {
      EmptySegmentIsDropped(ops, from, to - 1, dropped);
    }
  }

  /** With context every hunk of a script between two nonempty texts has lines of both sides, so that no
      header count is zero and its start line is the line the hunk starts on. */
  lemma NoHeaderCountIsZero(credential: string -> bool, ops: seq<Operation>, left: seq<string>, right: seq<string>,
                            context: nat, ranges: seq<Range>, k: nat)
    requires ScriptFor(ops, left, right) && RangesOf(ops, |ops|, context, ranges)
    requires context > 0 && left != [] && right != [] && k < |ranges|
    ensures RenderedHunk(credential, ops, ranges[k]).oldCount > 0
    ensures RenderedHunk(credential, ops, ranges[k]).newCount > 0
  {
    NumberedIsPlaced(ops);
    RangeHasBothSides(ops, context, ranges, k, Add);
    RangeHasBothSides(ops, context, ranges, k, Remove);
  }

  lemma RangeHasBothSides(ops: seq<Operation>, context: nat, ranges: seq<Range>, k: nat, dropped: Kind)
    requires RangesOf(ops, |ops|, context, ranges) && context > 0 && k < |ranges| && dropped != Equal
    requires Segment(ops, 0, |ops|, dropped) != []
    ensures Segment(ops, ranges[k].first, ranges[k].last + 1, dropped) != []
  {
    if Segment(ops, ranges[k].first, ranges[k].last + 1, dropped) == [] {
      EmptySegmentIsDropped(ops, ranges[k].first, ranges[k].last + 1, dropped);
      OneSidedRangeIsWhole(ops, context, ranges, k, dropped);
    }
  }

  // ---------------------------------------------------------------- redaction

  /** No line of a rendered hunk shows a credential-like line, whatever the script. */
  lemma NoCredentialShown(credential: string -> bool, ops: seq<Operation>, range: Range, at: nat)
    requires range.first <= range.last < |ops| && at < |RenderedHunk(credential, ops, range).body|
    requires !credential(REDACTED)
    ensures var line := RenderedHunk(credential, ops, range).body[at];
            line != [] && !credential(line[1..])
  {
    var op := ops[range.first + at];
    assert RenderedLine(credential, op)[1..] == Redact(credential, op.line);
  }
}
