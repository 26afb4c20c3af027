/** The edit script of the patience diff: what it keeps, removes and adds, and how it is numbered. */
module EditScript {
  import opened Patience

  datatype Kind = Equal | Add | Remove

  datatype Operation = Operation(kind: Kind, line: string, oldLine: nat, newLine: nat)

  // ---------------------------------------------------------------- lines of a text

  /** `text.split(/\r?\n/)`, with `current` the characters of the line under way. */
  function SplitFrom(text: string, current: string): (lines: seq<string>)
    ensures |lines| > 0
    decreases |text|
  {
    if text == [] then [current]
    else if text[0] == '\n' then [current] + SplitFrom(text[1..], [])
    else if text[0] == '\r' && |text| > 1 && text[1] == '\n' then [current] + SplitFrom(text[2..], [])
    else SplitFrom(text[1..], current + [text[0]])
  }

  function SplitLines(text: string): (lines: seq<string>)
    ensures |lines| > 0
  {
    SplitFrom(text, [])
  }

  function Join(lines: seq<string>): string {
    if lines == [] then []
    else if |lines| == 1 then lines[0]
    else lines[0] + ['\n'] + Join(lines[1..])
  }

  /** The text with every "\r\n" turned into "\n". */
  function Normalized(text: string): string
    decreases |text|
  {
    if text == [] then []
    else if text[0] == '\r' && |text| > 1 && text[1] == '\n' then ['\n'] + Normalized(text[2..])
    else [text[0]] + Normalized(text[1..])
  }

  lemma {:induction false} SplitFromJoins(text: string, current: string)
    requires '\n' !in current
    ensures Join(SplitFrom(text, current)) == current + Normalized(text)
    ensures forall line :: line in SplitFrom(text, current) ==> '\n' !in line
    decreases |text|
  {
    if text == [] {
      assert current + [] == current;
    } else if text[0] == '\n' {
      SplitFromJoins(text[1..], []);
      var rest := SplitFrom(text[1..], []);
      assert ([current] + rest)[1..] == rest;
      assert [] + Normalized(text[1..]) == Normalized(text[1..]);
      assert current + ['\n'] + Normalized(text[1..]) == current + (['\n'] + Normalized(text[1..]));
    } else if text[0] == '\r' && |text| > 1 && text[1] == '\n' {
      SplitFromJoins(text[2..], []);
      var rest := SplitFrom(text[2..], []);
      assert ([current] + rest)[1..] == rest;
      assert [] + Normalized(text[2..]) == Normalized(text[2..]);
      assert current + ['\n'] + Normalized(text[2..]) == current + (['\n'] + Normalized(text[2..]));
    } else {
      SplitFromJoins(text[1..], current + [text[0]]);
      assert current + [text[0]] + Normalized(text[1..]) == current + ([text[0]] + Normalized(text[1..]));
    }
  }

  lemma JoinStartsWithFirstLine(lines: seq<string>)
    requires |lines| > 0 && '\n' !in lines[0]
    ensures lines[0] <= Join(lines)
    ensures forall i :: 0 <= i < |lines[0]| ==> Join(lines)[i] != '\n'
    ensures |lines| == 1 <==> |Join(lines)| == |lines[0]|
    ensures |lines| > 1 ==>
      Join(lines)[|lines[0]|] == '\n' && Join(lines)[|lines[0]| + 1..] == Join(lines[1..])
  {
    assert forall i :: 0 <= i < |lines[0]| ==> Join(lines)[i] == lines[0][i];
  }

  /** Newline-free lines can be read off their join. */
  lemma {:induction false} JoinIsInjective(a: seq<string>, b: seq<string>)
    requires |a| > 0 && |b| > 0 && Join(a) == Join(b)
    requires forall line :: line in a || line in b ==> '\n' !in line
    ensures a == b
  {
    assert a[0] in a && b[0] in b;
    JoinStartsWithFirstLine(a);
    JoinStartsWithFirstLine(b);
    assert !(|a[0]| < |b[0]|) && !(|b[0]| < |a[0]|);
    assert a[0] == Join(a)[..|a[0]|] == b[0];
    if |a| > 1 {
      JoinIsInjective(a[1..], b[1..]);
    }
    assert a == [a[0]] + a[1..] && b == [b[0]] + b[1..];
  }

  /** Splitting loses the line endings and nothing else. */
  lemma SplitLosesOnlyLineEndings(a: string, b: string)
    ensures Join(SplitLines(a)) == Normalized(a)
    ensures SplitLines(a) == SplitLines(b) <==> Normalized(a) == Normalized(b)
  {
    SplitFromJoins(a, []);
    SplitFromJoins(b, []);
    assert [] + Normalized(a) == Normalized(a) && [] + Normalized(b) == Normalized(b);
    if Normalized(a) == Normalized(b) {
      JoinIsInjective(SplitLines(a), SplitLines(b));
    }
  }

  // ---------------------------------------------------------------- reading a script

  /** The lines of the operations that are not of kind `dropped`. */
  function Without(ops: seq<Operation>, dropped: Kind): seq<string> {
    if ops == [] then []
    else
      var last := ops[|ops| - 1];
      Without(ops[..|ops| - 1], dropped) + if last.kind == dropped then [] else [last.line]
  }

  function OldSide(ops: seq<Operation>): seq<string> { Without(ops, Add) }

  function NewSide(ops: seq<Operation>): seq<string> { Without(ops, Remove) }

  function Count(ops: seq<Operation>, kind: Kind): nat {
    if ops == [] then 0
    else Count(ops[..|ops| - 1], kind) + if ops[|ops| - 1].kind == kind then 1 else 0
  }

  /** Each operation carries the one-based positions the two sides have reached before it. */
  ghost predicate Numbered(ops: seq<Operation>) {
    ops == [] ||
    var front, last := ops[..|ops| - 1], ops[|ops| - 1];
    Numbered(front) && last.oldLine == 1 + |OldSide(front)| && last.newLine == 1 + |NewSide(front)|
  }

  lemma {:induction false} NumberAt(ops: seq<Operation>, i: nat)
    requires Numbered(ops) && i < |ops|
    ensures ops[i].oldLine == 1 + |OldSide(ops[..i])| && ops[i].newLine == 1 + |NewSide(ops[..i])|
  {
    if i < |ops| - 1 {
      NumberAt(ops[..|ops| - 1], i);
      assert ops[..|ops| - 1][..i] == ops[..i];
    }
  }

  /** `ops` turns `left` into `right`. */
  ghost predicate ScriptFor(ops: seq<Operation>, left: seq<string>, right: seq<string>) {
    OldSide(ops) == left && NewSide(ops) == right && Numbered(ops)
  }

  /** Where on both sides the lines stand that the operations keep. */
  function Kept(ops: seq<Operation>): seq<LinePair> {
    if ops == [] then []
    else
      var front := ops[..|ops| - 1];
      Kept(front) + if ops[|ops| - 1].kind == Equal then [LinePair(|OldSide(front)|, |NewSide(front)|)] else []
  }

  /** The lines that `ops` keeps are a longest chain of common unique lines. */
  ghost predicate KeepsLongestChain(ops: seq<Operation>, left: seq<string>, right: seq<string>) {
    && AnchorChain(left, right, Kept(ops))
    && (forall chain :: AnchorChain(left, right, chain) ==> |chain| <= |Kept(ops)|)
  }

  lemma AppendOperation(ops: seq<Operation>, op: Operation)
    requires Numbered(ops)
    requires op.oldLine == 1 + |OldSide(ops)| && op.newLine == 1 + |NewSide(ops)|
    ensures Numbered(ops + [op])
    ensures OldSide(ops + [op]) == OldSide(ops) + if op.kind == Add then [] else [op.line]
    ensures NewSide(ops + [op]) == NewSide(ops) + if op.kind == Remove then [] else [op.line]
    ensures Kept(ops + [op]) == Kept(ops) + if op.kind == Equal then [LinePair(|OldSide(ops)|, |NewSide(ops)|)] else []
  {
    assert (ops + [op])[..|ops|] == ops;
  }

  lemma {:induction false} WithoutConcat(a: seq<Operation>, b: seq<Operation>, dropped: Kind)
    ensures Without(a + b, dropped) == Without(a, dropped) + Without(b, dropped)
  {
    if b == [] {
      assert a + b == a;
    } else {
      var n := |b| - 1;
      assert (a + b)[..|a + b| - 1] == a + b[..n];
      WithoutConcat(a, b[..n], dropped);
    }
  }

  lemma {:induction false} CountsMeasureSides(ops: seq<Operation>)
    ensures |OldSide(ops)| == Count(ops, Equal) + Count(ops, Remove)
    ensures |NewSide(ops)| == Count(ops, Equal) + Count(ops, Add)
    ensures |ops| == Count(ops, Equal) + Count(ops, Remove) + Count(ops, Add)
  {
    if ops != [] {
      CountsMeasureSides(ops[..|ops| - 1]);
    }
  }

  lemma {:induction false} KeptAreCounted(ops: seq<Operation>)
    ensures |Kept(ops)| == Count(ops, Equal)
  {
    if ops != [] {
      KeptAreCounted(ops[..|ops| - 1]);
    }
  }

  lemma {:induction false} KeptAt(ops: seq<Operation>, i: nat)
    requires i < |ops| && ops[i].kind == Equal
    ensures LinePair(|OldSide(ops[..i])|, |NewSide(ops[..i])|) in Kept(ops)
  {
    if i < |ops| - 1 {
      KeptAt(ops[..|ops| - 1], i);
      assert ops[..|ops| - 1][..i] == ops[..i];
    }
  }

  lemma SideAt(ops: seq<Operation>, i: nat, dropped: Kind)
    requires i < |ops| && ops[i].kind != dropped
    ensures |Without(ops[..i], dropped)| < |Without(ops, dropped)|
    ensures Without(ops, dropped)[|Without(ops[..i], dropped)|] == ops[i].line
  {
    assert ops == ops[..i + 1] + ops[i + 1..];
    WithoutConcat(ops[..i + 1], ops[i + 1..], dropped);
    assert ops[..i + 1][..i] == ops[..i];
  }

  /** A line that is kept occurs once on each side, where its numbers say: a line that occurs twice on a side is never
      kept. */
  lemma KeptLinesOccurOnce(ops: seq<Operation>, left: seq<string>, right: seq<string>, i: nat)
    requires ScriptFor(ops, left, right) && KeepsLongestChain(ops, left, right)
    requires i < |ops| && ops[i].kind == Equal
    ensures forall j :: 0 <= j < |left| ==> (left[j] == ops[i].line <==> j == ops[i].oldLine - 1)
    ensures forall j :: 0 <= j < |right| ==> (right[j] == ops[i].line <==> j == ops[i].newLine - 1)
  {
    NumberAt(ops, i);
    KeptAt(ops, i);
    SideAt(ops, i, Add);
    SideAt(ops, i, Remove);
    var k :| 0 <= k < |Kept(ops)| && Kept(ops)[k] == LinePair(|OldSide(ops[..i])|, |NewSide(ops[..i])|);
    assert CommonUnique(left, right, Kept(ops)[k]);
  }

  lemma {:induction false} AllOfOneKind(ops: seq<Operation>, kind: Kind)
    ensures Count(ops, kind) <= |ops|
    ensures Count(ops, kind) == |ops| <==> forall op :: op in ops ==> op.kind == kind
  {
    if ops != [] {
      var front := ops[..|ops| - 1];
      AllOfOneKind(front, kind);
      assert forall op :: op in ops <==> op in front || op == ops[|ops| - 1];
    }
  }

  lemma {:induction false} UnchangedSidesAgree(ops: seq<Operation>)
    requires forall op :: op in ops ==> op.kind == Equal
    ensures OldSide(ops) == NewSide(ops) && |OldSide(ops)| == |ops|
  {
    if ops != [] {
      UnchangedSidesAgree(ops[..|ops| - 1]);
    }
  }

  // ---------------------------------------------------------------- building a script

  /** The script for the lines before the two indices. */
  ghost predicate Reached(ops: seq<Operation>, left: seq<string>, right: seq<string>, oldIndex: nat, newIndex: nat) {
    && oldIndex <= |left| && newIndex <= |right|
    && ScriptFor(ops, left[..oldIndex], right[..newIndex])
  }

  /** The indices behind the first `k` anchors. */
  predicate Behind(anchors: seq<LinePair>, k: nat, oldIndex: nat, newIndex: nat)
    requires k <= |anchors|
  {
    if k == 0 then oldIndex == newIndex == 0
    else oldIndex == anchors[k - 1].oldIndex + 1 && newIndex == anchors[k - 1].newIndex + 1
  }

  lemma NextAnchor(left: seq<string>, right: seq<string>, anchors: seq<LinePair>, k: nat, oldIndex: nat, newIndex: nat)
    requires AnchorChain(left, right, anchors) && k < |anchors| && Behind(anchors, k, oldIndex, newIndex)
    ensures oldIndex <= anchors[k].oldIndex < |left| && newIndex <= anchors[k].newIndex < |right|
    ensures left[anchors[k].oldIndex] == right[anchors[k].newIndex]
  {
    assert CommonUnique(left, right, anchors[k]);
  }

  method DiffLines(before: string, after: string) returns (operations: seq<Operation>)
    ensures ScriptFor(operations, SplitLines(before), SplitLines(after))
    ensures KeepsLongestChain(operations, SplitLines(before), SplitLines(after))
  {
    var left, right := SplitLines(before), SplitLines(after);
    var anchors := PatienceAnchors(left, right);
    operations := EmitAnchors(left, right, anchors);
  }

  /** The loop over the anchors and the gap behind the last one. */
  method EmitAnchors(left: seq<string>, right: seq<string>, anchors: seq<LinePair>) returns (operations: seq<Operation>)
    requires AnchorChain(left, right, anchors)
    ensures ScriptFor(operations, left, right) && Kept(operations) == anchors
  {
    operations := [];
    var oldIndex, newIndex := 0, 0;
    for k := 0 to |anchors|
      invariant Reached(operations, left, right, oldIndex, newIndex) && Behind(anchors, k, oldIndex, newIndex)
      invariant Kept(operations) == anchors[..k]
    {
      NextAnchor(left, right, anchors, k, oldIndex, newIndex);
      operations := EmitGap(operations, left, right, oldIndex, newIndex, anchors[k].oldIndex, anchors[k].newIndex);
      oldIndex, newIndex := anchors[k].oldIndex, anchors[k].newIndex;
      ghost var shorter := operations;
      operations := operations + [Operation(Equal, left[oldIndex], oldIndex + 1, newIndex + 1)];
      KeepLine(shorter, operations, left, right, anchors, k);
      oldIndex, newIndex := oldIndex + 1, newIndex + 1;
    }
    operations := EmitGap(operations, left, right, oldIndex, newIndex, |left|, |right|);
    EndReached(operations, left, right, anchors);
  }

  lemma EndReached(ops: seq<Operation>, left: seq<string>, right: seq<string>, anchors: seq<LinePair>)
    requires Reached(ops, left, right, |left|, |right|) && Kept(ops) == anchors[..|anchors|]
    ensures ScriptFor(ops, left, right) && Kept(ops) == anchors
  {
    assert left[..|left|] == left && right[..|right|] == right && anchors[..|anchors|] == anchors;
  }

  lemma KeepLine(ops: seq<Operation>, longer: seq<Operation>, left: seq<string>, right: seq<string>,
                 anchors: seq<LinePair>, k: nat)
    requires k < |anchors| && anchors[k].oldIndex < |left| && anchors[k].newIndex < |right|
    requires left[anchors[k].oldIndex] == right[anchors[k].newIndex]
    requires Reached(ops, left, right, anchors[k].oldIndex, anchors[k].newIndex) && Kept(ops) == anchors[..k]
    requires longer == ops
             + [Operation(Equal, left[anchors[k].oldIndex], anchors[k].oldIndex + 1, anchors[k].newIndex + 1)]
    ensures Reached(longer, left, right, anchors[k].oldIndex + 1, anchors[k].newIndex + 1)
    ensures Kept(longer) == anchors[..k + 1]
  {
    var oldIndex, newIndex := anchors[k].oldIndex, anchors[k].newIndex;
    AppendOperation(ops, Operation(Equal, left[oldIndex], oldIndex + 1, newIndex + 1));
    assert left[..oldIndex + 1] == left[..oldIndex] + [left[oldIndex]];
    assert right[..newIndex + 1] == right[..newIndex] + [right[newIndex]];
    assert anchors[..k + 1] == anchors[..k] + [anchors[k]];
  }

  lemma RemoveLine(ops: seq<Operation>, longer: seq<Operation>, left: seq<string>, right: seq<string>,
                   oldIndex: nat, newIndex: nat)
    requires oldIndex < |left| && Reached(ops, left, right, oldIndex, newIndex)
    requires longer == ops + [Operation(Remove, left[oldIndex], oldIndex + 1, newIndex + 1)]
    ensures Reached(longer, left, right, oldIndex + 1, newIndex) && Kept(longer) == Kept(ops)
  {
    AppendOperation(ops, Operation(Remove, left[oldIndex], oldIndex + 1, newIndex + 1));
    assert left[..oldIndex + 1] == left[..oldIndex] + [left[oldIndex]];
  }

  lemma AddLine(ops: seq<Operation>, longer: seq<Operation>, left: seq<string>, right: seq<string>,
                oldIndex: nat, newIndex: nat)
    requires newIndex < |right| && Reached(ops, left, right, oldIndex, newIndex)
    requires longer == ops + [Operation(Add, right[newIndex], oldIndex + 1, newIndex + 1)]
    ensures Reached(longer, left, right, oldIndex, newIndex + 1) && Kept(longer) == Kept(ops)
  {
    AppendOperation(ops, Operation(Add, right[newIndex], oldIndex + 1, newIndex + 1));
    assert right[..newIndex + 1] == right[..newIndex] + [right[newIndex]];
  }

  /** The two inner loops: removes the old lines up to `oldEnd`, then adds the new lines up to `newEnd`. */
  method EmitGap(operations: seq<Operation>, left: seq<string>, right: seq<string>,
                 oldStart: nat, newStart: nat, oldEnd: nat, newEnd: nat) returns (longer: seq<Operation>)
    requires oldStart <= oldEnd <= |left| && newStart <= newEnd <= |right|
    requires Reached(operations, left, right, oldStart, newStart)
    ensures Reached(longer, left, right, oldEnd, newEnd) && Kept(longer) == Kept(operations)
  {
    longer := operations;
    var oldIndex, newIndex := oldStart, newStart;
    while oldIndex < oldEnd
      invariant oldStart <= oldIndex <= oldEnd
      invariant Reached(longer, left, right, oldIndex, newStart) && Kept(longer) == Kept(operations)
    {
      ghost var shorter := longer;
      longer := longer + [Operation(Remove, left[oldIndex], oldIndex + 1, newStart + 1)];
      RemoveLine(shorter, longer, left, right, oldIndex, newStart);
      oldIndex := oldIndex + 1;
    }
    while newIndex < newEnd
      invariant newStart <= newIndex <= newEnd
      invariant Reached(longer, left, right, oldEnd, newIndex) && Kept(longer) == Kept(operations)
    {
      ghost var shorter := longer;
      longer := longer + [Operation(Add, right[newIndex], oldEnd + 1, newIndex + 1)];
      AddLine(shorter, longer, left, right, oldEnd, newIndex);
      newIndex := newIndex + 1;
    }
  }

  // ---------------------------------------------------------------- when nothing changes

  /** A chain as long as `lines` passes through every one of them. */
  lemma {:induction false} FullChainHitsEveryLine(left: seq<string>, right: seq<string>, chain: seq<LinePair>, k: nat)
    requires AnchorChain(left, right, chain) && k < |chain|
    ensures k <= chain[k].oldIndex <= |left| - (|chain| - k)
    decreases |chain| - k
  {
    assert CommonUnique(left, right, chain[k]);
    PositionAtLeastRank(left, right, chain, k);
    if k + 1 < |chain| {
      FullChainHitsEveryLine(left, right, chain, k + 1);
      assert chain[(k + 1) - 1].oldIndex < chain[k + 1].oldIndex;
    }
  }

  lemma {:induction false} PositionAtLeastRank(left: seq<string>, right: seq<string>, chain: seq<LinePair>, k: nat)
    requires AnchorChain(left, right, chain) && k < |chain|
    ensures k <= chain[k].oldIndex
  {
    if k > 0 {
      PositionAtLeastRank(left, right, chain, k - 1);
    }
  }

  /** The diff reports no change exactly when the lines are the same and no line is repeated: repeated
      lines are never anchored, so a text with a repeated line is never reported unchanged. */
  lemma UnchangedExactlyWhen(ops: seq<Operation>, left: seq<string>, right: seq<string>)
    requires ScriptFor(ops, left, right) && KeepsLongestChain(ops, left, right)
    ensures (forall op :: op in ops ==> op.kind == Equal)
       <==> (left == right && forall i :: 0 <= i < |left| ==> OccursOnce(left, i))
  {
    CountsMeasureSides(ops);
    AllOfOneKind(ops, Equal);
    KeptAreCounted(ops);
    if forall op :: op in ops ==> op.kind == Equal {
      UnchangedSidesAgree(ops);
      var chain := Kept(ops);
      forall i | 0 <= i < |left|
        ensures OccursOnce(left, i)
      {
        FullChainHitsEveryLine(left, right, chain, i);
        assert CommonUnique(left, right, chain[i]);
      }
    }
    if left == right && forall i :: 0 <= i < |left| ==> OccursOnce(left, i) {
      var diagonal := seq(|left|, k requires 0 <= k => LinePair(k, k));
      assert AnchorChain(left, right, diagonal);
    }
  }
}
