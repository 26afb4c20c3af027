/** Decay maintenance in pages: one call decays a bounded batch of nodes in id order and hands out a cursor. */
module DecayPaging {
  import opened Common

  datatype Node = Node(id: string, world: string, activation: real, decayRate: real)

  datatype Tier = Hot | Warm | Cold

  datatype Tiers = Tiers(hot: nat, warm: nat, cold: nat) {
    function Total(): nat { hot + warm + cold }
  }

  function Counted(t: Tiers, tier: Tier): (r: Tiers)
    ensures r.Total() == t.Total() + 1
  {
    match tier
    case Hot => Tiers(t.hot + 1, t.warm, t.cold)
    case Warm => Tiers(t.hot, t.warm + 1, t.cold)
    case Cold => Tiers(t.hot, t.warm, t.cold + 1)
  }

  /** What a cycle is run with: the decay of a node to the cycle's time, the tier it then falls in, the least change
      worth keeping, and the collation order of ids. */
  datatype Policy = Policy(decay: Node -> Node, tier: Node -> Tier, minChange: real, before: (string, string) -> bool)

  /** Decay changes neither the identity of a node nor its place. */
  ghost predicate KeepsIdentity(decay: Node -> Node) {
    forall n :: decay(n).id == n.id && decay(n).world == n.world
  }

  ghost predicate Lawful(p: Policy) { TotalOrder(p.before) && KeepsIdentity(p.decay) }

  // ---------------------------------------------------------------- candidates

  predicate InScope(n: Node, scope: Option<set<string>>) { scope.None? || n.world in scope.value }

  predicate Behind(p: Policy, id: string, after: Option<string>) { after.None? || p.before(after.value, id) }

  predicate Wanted(p: Policy, scope: Option<set<string>>, after: Option<string>, n: Node) {
    InScope(n, scope) && Behind(p, n.id, after)
  }

  function Insert(p: Policy, n: Node, sorted: seq<Node>): seq<Node> {
    if sorted == [] || p.before(n.id, sorted[0].id) then [n] + sorted
    else [sorted[0]] + Insert(p, n, sorted[1..])
  }

  /** The wanted nodes, sorted by id. */
  function Candidates(p: Policy, nodes: seq<Node>, scope: Option<set<string>>, after: Option<string>): seq<Node> {
    if nodes == [] then []
    else
      var rest := Candidates(p, nodes[1..], scope, after);
      if Wanted(p, scope, after, nodes[0]) then Insert(p, nodes[0], rest) else rest
  }

  ghost predicate DistinctIds(nodes: seq<Node>) {
    forall i, j :: 0 <= i < j < |nodes| ==> nodes[i].id != nodes[j].id
  }

  ghost predicate Ascending(p: Policy, nodes: seq<Node>) {
    forall i, j :: 0 <= i < j < |nodes| ==> p.before(nodes[i].id, nodes[j].id)
  }

  lemma {:induction false} InsertMembers(p: Policy, n: Node, sorted: seq<Node>)
    ensures forall m :: m in Insert(p, n, sorted) <==> m == n || m in sorted
  {
    if sorted != [] && !p.before(n.id, sorted[0].id) {
      InsertMembers(p, n, sorted[1..]);
      assert sorted == [sorted[0]] + sorted[1..];
    }
  }

  lemma {:induction false} InsertAscends(p: Policy, n: Node, sorted: seq<Node>)
    requires TotalOrder(p.before) && Ascending(p, sorted) && forall m :: m in sorted ==> m.id != n.id
    ensures Ascending(p, Insert(p, n, sorted))
  {
    if sorted != [] && !p.before(n.id, sorted[0].id) {
      var rest := Insert(p, n, sorted[1..]);
      assert p.before(sorted[0].id, n.id);
      InsertAscends(p, n, sorted[1..]);
      InsertMembers(p, n, sorted[1..]);
      forall j | 0 <= j < |rest|
        ensures p.before(sorted[0].id, rest[j].id)
      {
        assert rest[j] in rest;
        if rest[j] != n {
          var k :| 0 <= k < |sorted[1..]| && sorted[1..][k] == rest[j];
          assert sorted[k + 1] == rest[j];
        }
      }
    } else if sorted != [] {
      forall j | 0 <= j < |sorted|
        ensures p.before(n.id, sorted[j].id)
      {
      }
    }
  }

  lemma {:induction false} CandidatesAreWanted(p: Policy, nodes: seq<Node>, scope: Option<set<string>>,
                                               after: Option<string>)
    requires TotalOrder(p.before) && DistinctIds(nodes)
    ensures Ascending(p, Candidates(p, nodes, scope, after))
    ensures forall n :: n in Candidates(p, nodes, scope, after) <==> n in nodes && Wanted(p, scope, after, n)
  {
    if nodes != [] {
      CandidatesAreWanted(p, nodes[1..], scope, after);
      var rest := Candidates(p, nodes[1..], scope, after);
      assert nodes == [nodes[0]] + nodes[1..];
      forall m | m in rest
        ensures m.id != nodes[0].id
      {
        var k :| 0 <= k < |nodes[1..]| && nodes[1..][k] == m;
        assert nodes[k + 1] == m;
      }
      InsertAscends(p, nodes[0], rest);
      InsertMembers(p, nodes[0], rest);
    }
  }

  /** The candidates are the nodes in scope behind the cursor, by ascending id. */
  lemma CandidatesAre(p: Policy, nodes: seq<Node>, scope: Option<set<string>>, after: Option<string>)
    requires TotalOrder(p.before) && DistinctIds(nodes)
    ensures Ascending(p, Candidates(p, nodes, scope, after))
    ensures forall n :: n in Candidates(p, nodes, scope, after)
                   <==> n in nodes && (scope.None? || n.world in scope.value)
                        && (after.None? || p.before(after.value, n.id))
  {
    CandidatesAreWanted(p, nodes, scope, after);
  }

  /** An ascending sequence is determined by its members. */
  lemma {:induction false} AscendingIsUnique(p: Policy, a: seq<Node>, b: seq<Node>)
    requires TotalOrder(p.before) && Ascending(p, a) && Ascending(p, b) && forall n :: n in a <==> n in b
    ensures a == b
  {
    if a == [] {
      assert forall i :: 0 <= i < |b| ==> b[i] in b;
    } else {
      assert a[0] in a && a[0] in b;
      assert b[0] in b && b[0] in a;
      HeadIsLeast(p, a, b[0]);
      HeadIsLeast(p, b, a[0]);
      assert a[0] == b[0];
      TailMembers(p, a);
      TailMembers(p, b);
      AscendingIsUnique(p, a[1..], b[1..]);
      assert a == [a[0]] + a[1..] && b == [b[0]] + b[1..];
    }
  }

  lemma HeadIsLeast(p: Policy, nodes: seq<Node>, n: Node)
    requires Ascending(p, nodes) && n in nodes
    ensures n == nodes[0] || p.before(nodes[0].id, n.id)
  {
    var k :| 0 <= k < |nodes| && nodes[k] == n;
  }

  lemma TailMembers(p: Policy, nodes: seq<Node>)
    requires TotalOrder(p.before) && Ascending(p, nodes) && nodes != []
    ensures Ascending(p, nodes[1..])
    ensures forall n :: n in nodes[1..] <==> n in nodes && n != nodes[0]
  {
    assert nodes == [nodes[0]] + nodes[1..];
    forall n | n in nodes[1..]
      ensures n != nodes[0]
    {
      var k :| 0 <= k < |nodes[1..]| && nodes[1..][k] == n;
      assert nodes[k + 1] == n;
    }
  }

  // ---------------------------------------------------------------- one cycle

  function Abs(x: real): real { if x < 0.0 then -x else x }

  /** The decay of the node moves its activation or its rate by at least the least change. */
  predicate Moves(p: Policy, n: Node) {
    Abs(p.decay(n).activation - n.activation) >= p.minChange || Abs(p.decay(n).decayRate - n.decayRate) >= p.minChange
  }

  function Version(p: Policy, n: Node): Node { if Moves(p, n) then p.decay(n) else n }

  function Batch(p: Policy, nodes: seq<Node>, scope: Option<set<string>>, after: Option<string>,
                 limit: nat): seq<Node> {
    var candidates := Candidates(p, nodes, scope, after);
    if |candidates| <= limit then candidates else candidates[..limit]
  }

  /** The tiers of the first `n` nodes of the batch. */
  function TierCounts(p: Policy, batch: seq<Node>, n: nat): (t: Tiers)
    requires n <= |batch|
  {
    if n == 0 then Tiers(0, 0, 0) else Counted(TierCounts(p, batch, n - 1), p.tier(p.decay(batch[n - 1])))
  }

  /** The versions of those of the first `n` nodes that move. */
  function Moved(p: Policy, batch: seq<Node>, n: nat): seq<Node>
    requires n <= |batch|
  {
    if n == 0 then []
    else Moved(p, batch, n - 1) + if Moves(p, batch[n - 1]) then [p.decay(batch[n - 1])] else []
  }

  function Ids(nodes: seq<Node>): (ids: seq<string>)
    ensures |ids| == |nodes|
    ensures forall i :: 0 <= i < |nodes| ==> ids[i] == nodes[i].id
  {
    seq(|nodes|, i requires 0 <= i < |nodes| => nodes[i].id)
  }

  /** `commit_node_versions`, once it has succeeded: each node gives way to the version of its id. */
  function VersionOf(versions: seq<Node>, n: Node): Node {
    if versions == [] then n
    else if versions[|versions| - 1].id == n.id then versions[|versions| - 1]
    else VersionOf(versions[..|versions| - 1], n)
  }

  function Committed(nodes: seq<Node>, versions: seq<Node>): (r: seq<Node>)
    ensures |r| == |nodes|
    ensures forall i :: 0 <= i < |nodes| ==> r[i] == VersionOf(versions, nodes[i])
  {
    seq(|nodes|, i requires 0 <= i < |nodes| => VersionOf(versions, nodes[i]))
  }

  datatype Cycle = Cycle(scanned: nat, updated: seq<string>, next: Option<string>, complete: bool, tiers: Tiers)

  datatype Failure = BadLimit | BadMinChange | CommitFailed

  datatype Result = Ok(cycle: Cycle) | Err(failure: Failure)

  function CycleOf(p: Policy, nodes: seq<Node>, scope: Option<set<string>>, after: Option<string>, limit: nat): Cycle {
    var batch := Batch(p, nodes, scope, after, limit);
    var complete := |Candidates(p, nodes, scope, after)| <= limit;
    Cycle(|batch|, Ids(Moved(p, batch, |batch|)),
          if complete || batch == [] then None else Some(batch[|batch| - 1].id), complete,
          TierCounts(p, batch, |batch|))
  }

  function NodesAfter(p: Policy, nodes: seq<Node>, scope: Option<set<string>>, after: Option<string>,
                      limit: nat): seq<Node> {
    var batch := Batch(p, nodes, scope, after, limit);
    Committed(nodes, Moved(p, batch, |batch|))
  }

  /** The loop of the cycle: projects every node of the batch and keeps the versions that move. */
  method Scan(p: Policy, batch: seq<Node>) returns (tiers: Tiers, changed: seq<Node>)
    ensures tiers == TierCounts(p, batch, |batch|) && changed == Moved(p, batch, |batch|)
  {
    tiers, changed := Tiers(0, 0, 0), [];
    for i := 0 to |batch|
      invariant tiers == TierCounts(p, batch, i)
      invariant changed == Moved(p, batch, i)
    {
      var version := p.decay(batch[i]);
      tiers := Counted(tiers, p.tier(version));
      if Moves(p, batch[i]) {
        changed := changed + [version];
      }
    }
  }

  /** Activation or rate differ by at least `least`, up or down. */
  ghost predicate FarApart(least: real, a: Node, b: Node) {
    || b.activation - a.activation >= least || a.activation - b.activation >= least
    || b.decayRate - a.decayRate >= least || a.decayRate - b.decayRate >= least
  }

  /** What a scan leaves of a node: it changes only if it is scanned, into its decay and by at least the least change,
      and one that is scanned and does not become its decay is nearer to it than that. */
  ghost predicate Decays(p: Policy, scanned: bool, node: Node, left: Node) {
    && (left != node ==> scanned && left == p.decay(node) && FarApart(p.minChange, node, left))
    && (scanned && left != p.decay(node) ==> !FarApart(p.minChange, node, p.decay(node)))
  }

  /** The ids are those of the nodes that changed, and with a least change of zero of those that decay leaves alone. */
  ghost predicate Lists(p: Policy, nodes: seq<Node>, left: seq<Node>, batch: seq<Node>, ids: seq<string>)
    requires |left| == |nodes|
  {
    forall id :: id in ids <==> exists i :: 0 <= i < |nodes| && nodes[i].id == id && nodes[i] in batch
                                              && ListedAt(p, nodes[i], left[i])
  }

  ghost predicate ListedAt(p: Policy, node: Node, left: Node) {
    left != node || (p.decay(node) == node && p.minChange <= 0.0)
  }

  /** A cycle changes the nodes of its batch as they decay, and reports which. */
  ghost predicate DecaysBatch(p: Policy, nodes: seq<Node>, left: seq<Node>, batch: seq<Node>, updated: seq<string>) {
    && |left| == |nodes| && Lists(p, nodes, left, batch, updated)
    && forall i :: 0 <= i < |nodes| ==> Decays(p, nodes[i] in batch, nodes[i], left[i])
  }

  /** The call is in range, and its versions, if there are any, get committed. */
  predicate Accepted(p: Policy, nodes: seq<Node>, scope: Option<set<string>>, after: Option<string>, limit: int,
                     commits: bool) {
    1 <= limit <= 10_000 && 0.0 <= p.minChange <= 1.0 &&
    var batch := Batch(p, nodes, scope, after, limit);
    (commits || Moved(p, batch, |batch|) == [])
  }

  /** `whole` is the cycles so far and then `rest`. */
  predicate Continues(whole: Attempt, cycles: seq<Cycle>, rest: Attempt) {
    whole == rest.(cycles := cycles + rest.cycles)
  }

  lemma StartsWhole(whole: Attempt)
    ensures Continues(whole, [], whole)
  {
  }

  class Memory {
    var nodes: seq<Node>

    constructor (nodes: seq<Node>)
      ensures this.nodes == nodes
    {
      this.nodes := nodes;
    }

    /** `runDecay`; `commits` is whether committing the versions succeeds. */
    method RunDecay(p: Policy, scope: Option<set<string>>, after: Option<string>, limit: int, commits: bool)
      returns (r: Result)
      modifies this`nodes
      ensures r.Ok? <==> Accepted(p, old(nodes), scope, after, limit, commits)
      ensures r.Ok? ==> r.cycle == CycleOf(p, old(nodes), scope, after, limit)
      ensures r.Ok? ==> nodes == NodesAfter(p, old(nodes), scope, after, limit)
      ensures r.Err? ==> nodes == old(nodes)
      ensures r == Err(BadLimit) <==> !(1 <= limit <= 10_000)
      ensures r == Err(BadMinChange) <==> 1 <= limit <= 10_000 && !(0.0 <= p.minChange <= 1.0)
      ensures r == Err(CommitFailed) <==> 1 <= limit <= 10_000 && 0.0 <= p.minChange <= 1.0 && !commits
                                          && CycleOf(p, old(nodes), scope, after, limit).updated != []
    {
      if limit < 1 || limit > 10_000 {
        return Err(BadLimit);
      }
      if p.minChange < 0.0 || p.minChange > 1.0 {
        return Err(BadMinChange);
      }
      var candidates := Candidates(p, nodes, scope, after);
      var batch := if |candidates| <= limit then candidates else candidates[..limit];
      assert batch == Batch(p, nodes, scope, after, limit);
      var tiers, changed := Scan(p, batch);
      if |changed| > 0 && !commits {
        return Err(CommitFailed);
      }
      var complete := |candidates| <= limit;
      var next := if complete || |batch| == 0 then None else Some(batch[|batch| - 1].id);
      r := Ok(Cycle(|batch|, Ids(changed), next, complete, tiers));
      nodes := Committed(nodes, changed);
    }

    /** `maintenance decay --all`; `commits` is whether the commit of each call succeeds. An error ends the loop. */
    method DecayAll(p: Policy, scope: Option<set<string>>, after: Option<string>, limit: int, commits: nat -> bool)
      returns (cycles: seq<Cycle>, failure: Option<Failure>)
      requires Lawful(p) && DistinctIds(nodes)
      modifies this`nodes
      ensures var attempt := Attempted(p, old(nodes), scope, after, limit, commits, 0);
              cycles == attempt.cycles && nodes == attempt.nodes && failure.Some? == attempt.failed
    {
      ghost var whole := Attempted(p, nodes, scope, after, limit, commits, 0);
      StartsWhole(whole);
      cycles, failure := [], None;
      var cursor, going := after, true;
      while going
        invariant DistinctIds(nodes) && failure.None?
        invariant going ==> Continues(whole, cycles, Attempted(p, nodes, scope, cursor, limit, commits, |cycles|))
        invariant !going ==> whole == Attempt(cycles, nodes, cursor, false)
        decreases if going then 1 + |Candidates(p, nodes, scope, cursor)| else 0
      {
        AttemptContinues(p, nodes, scope, cursor, limit, commits, whole, cycles);
        var r := RunDecay(p, scope, cursor, limit, commits(|cycles|));
        if r.Err? {
          return cycles, Some(r.failure);
        }
        cycles := cycles + [r.cycle];
        cursor := r.cycle.next;
        going := Truthy(cursor);
      }
    }
  }

  // ---------------------------------------------------------------- what a cycle does to the nodes

  /** Every wanted node in its version, every other node as it is. */
  ghost function Swept(p: Policy, nodes: seq<Node>, scope: Option<set<string>>, after: Option<string>): (r: seq<Node>)
    ensures |r| == |nodes|
    ensures forall i :: 0 <= i < |nodes| ==>
              r[i] == if Wanted(p, scope, after, nodes[i]) then Version(p, nodes[i]) else nodes[i]
  {
    seq(|nodes|, i requires 0 <= i < |nodes| =>
      if Wanted(p, scope, after, nodes[i]) then Version(p, nodes[i]) else nodes[i])
  }

  ghost predicate OnlyWithId(batch: seq<Node>, n: nat, node: Node) {
    n <= |batch| && forall j :: 0 <= j < n && batch[j].id == node.id ==> batch[j] == node
  }

  lemma {:induction false} NotMoved(p: Policy, batch: seq<Node>, n: nat, node: Node)
    requires KeepsIdentity(p.decay) && n <= |batch| && forall j :: 0 <= j < n ==> batch[j].id != node.id
    ensures VersionOf(Moved(p, batch, n), node) == node
  {
    if n > 0 {
      NotMoved(p, batch, n - 1, node);
      MovedStep(p, batch, n, node);
    }
  }

  lemma {:induction false} MovedVersion(p: Policy, batch: seq<Node>, n: nat, node: Node, at: nat)
    requires KeepsIdentity(p.decay) && OnlyWithId(batch, n, node) && at < n && batch[at] == node
    ensures VersionOf(Moved(p, batch, n), node) == Version(p, node)
  {
    MovedStep(p, batch, n, node);
    if batch[n - 1].id != node.id {
      MovedVersion(p, batch, n - 1, node, at);
    } else if !Moves(p, node) {
      StaysUnmoved(p, batch, n - 1, node);
    }
  }

  lemma {:induction false} StaysUnmoved(p: Policy, batch: seq<Node>, n: nat, node: Node)
    requires KeepsIdentity(p.decay) && OnlyWithId(batch, n, node) && !Moves(p, node)
    ensures VersionOf(Moved(p, batch, n), node) == node
  {
    if n > 0 {
      StaysUnmoved(p, batch, n - 1, node);
      MovedStep(p, batch, n, node);
    }
  }

  lemma MovedStep(p: Policy, batch: seq<Node>, n: nat, node: Node)
    requires KeepsIdentity(p.decay) && 0 < n <= |batch|
    ensures batch[n - 1].id == node.id && Moves(p, batch[n - 1]) ==>
              VersionOf(Moved(p, batch, n), node) == p.decay(batch[n - 1])
    ensures batch[n - 1].id != node.id || !Moves(p, batch[n - 1]) ==>
              VersionOf(Moved(p, batch, n), node) == VersionOf(Moved(p, batch, n - 1), node)
  {
    if Moves(p, batch[n - 1]) {
      VersionOfLast(Moved(p, batch, n - 1), p.decay(batch[n - 1]), node);
    } else {
      assert Moved(p, batch, n) == Moved(p, batch, n - 1);
    }
  }

  lemma VersionOfLast(versions: seq<Node>, last: Node, n: Node)
    ensures last.id == n.id ==> VersionOf(versions + [last], n) == last
    ensures last.id != n.id ==> VersionOf(versions + [last], n) == VersionOf(versions, n)
  {
    assert (versions + [last])[..|versions|] == versions;
  }

  lemma BatchIsOfNodes(p: Policy, nodes: seq<Node>, scope: Option<set<string>>, after: Option<string>, limit: nat)
    requires Lawful(p) && DistinctIds(nodes)
    ensures Ascending(p, Batch(p, nodes, scope, after, limit))
    ensures forall n :: n in Batch(p, nodes, scope, after, limit) ==> n in nodes && Wanted(p, scope, after, n)
  {
    CandidatesAreWanted(p, nodes, scope, after);
  }

  lemma NodesAfterAre(p: Policy, nodes: seq<Node>, scope: Option<set<string>>, after: Option<string>, limit: nat,
                      i: nat)
    requires Lawful(p) && DistinctIds(nodes) && i < |nodes|
    ensures NodesAfter(p, nodes, scope, after, limit)[i]
         == if nodes[i] in Batch(p, nodes, scope, after, limit) then Version(p, nodes[i]) else nodes[i]
  {
    BatchIsOfNodes(p, nodes, scope, after, limit);
    var batch := Batch(p, nodes, scope, after, limit);
    forall k | 0 <= k < |batch| && batch[k].id == nodes[i].id
      ensures batch[k] == nodes[i]
    {
      assert batch[k] in batch;
      var j :| 0 <= j < |nodes| && nodes[j] == batch[k];
    }
    if nodes[i] in batch {
      var at :| 0 <= at < |batch| && batch[at] == nodes[i];
      MovedVersion(p, batch, |batch|, nodes[i], at);
    } else {
      NotMoved(p, batch, |batch|, nodes[i]);
    }
  }

  lemma {:induction false} MovedAre(p: Policy, batch: seq<Node>, n: nat, id: string)
    requires KeepsIdentity(p.decay) && n <= |batch|
    ensures id in Ids(Moved(p, batch, n))
       <==> exists k :: 0 <= k < n && batch[k].id == id && FarApart(p.minChange, batch[k], p.decay(batch[k]))
  {
    if n > 0 {
      MovedAre(p, batch, n - 1, id);
      var front, last := Moved(p, batch, n - 1), batch[n - 1];
      if Moves(p, last) {
        assert Ids(front + [p.decay(last)]) == Ids(front) + [last.id];
        assert FarApart(p.minChange, last, p.decay(last));
      } else {
        assert !FarApart(p.minChange, last, p.decay(last)) && Moved(p, batch, n) == front;
      }
    }
  }

  /** A node left by a scan is listed exactly if it is scanned and its decay is not near. */
  lemma VersionDecays(p: Policy, node: Node)
    ensures Decays(p, true, node, Version(p, node))
    ensures ListedAt(p, node, Version(p, node)) <==> FarApart(p.minChange, node, p.decay(node))
  {
  }

  lemma CycleLists(p: Policy, nodes: seq<Node>, scope: Option<set<string>>, after: Option<string>, limit: nat)
    requires Lawful(p) && DistinctIds(nodes)
    ensures Lists(p, nodes, NodesAfter(p, nodes, scope, after, limit), Batch(p, nodes, scope, after, limit),
                  CycleOf(p, nodes, scope, after, limit).updated)
  {
    var left, batch := NodesAfter(p, nodes, scope, after, limit), Batch(p, nodes, scope, after, limit);
    BatchIsOfNodes(p, nodes, scope, after, limit);
    forall id
      ensures id in CycleOf(p, nodes, scope, after, limit).updated
         <==> exists i :: 0 <= i < |nodes| && nodes[i].id == id && nodes[i] in batch && ListedAt(p, nodes[i], left[i])
    {
      MovedAre(p, batch, |batch|, id);
      if k :| 0 <= k < |batch| && batch[k].id == id && FarApart(p.minChange, batch[k], p.decay(batch[k])) {
        assert batch[k] in batch;
        var i :| 0 <= i < |nodes| && nodes[i] == batch[k];
        NodesAfterAre(p, nodes, scope, after, limit, i);
        VersionDecays(p, nodes[i]);
      }
      if i :| 0 <= i < |nodes| && nodes[i].id == id && nodes[i] in batch && ListedAt(p, nodes[i], left[i]) {
        NodesAfterAre(p, nodes, scope, after, limit, i);
        VersionDecays(p, nodes[i]);
        var k :| 0 <= k < |batch| && batch[k] == nodes[i];
      }
    }
  }

  lemma CycleDecays(p: Policy, nodes: seq<Node>, scope: Option<set<string>>, after: Option<string>, limit: nat)
    requires Lawful(p) && DistinctIds(nodes)
    ensures DecaysBatch(p, nodes, NodesAfter(p, nodes, scope, after, limit), Batch(p, nodes, scope, after, limit),
                        CycleOf(p, nodes, scope, after, limit).updated)
  {
    CycleLists(p, nodes, scope, after, limit);
    forall i | 0 <= i < |nodes|
      ensures Decays(p, nodes[i] in Batch(p, nodes, scope, after, limit), nodes[i],
                     NodesAfter(p, nodes, scope, after, limit)[i])
    {
      NodesAfterAre(p, nodes, scope, after, limit, i);
      VersionDecays(p, nodes[i]);
    }
  }

  // ---------------------------------------------------------------- from one page to the next

  lemma NodesAfterKeepIdentity(p: Policy, nodes: seq<Node>, scope: Option<set<string>>, after: Option<string>,
                               limit: nat)
    requires Lawful(p) && DistinctIds(nodes)
    ensures var nodes' := NodesAfter(p, nodes, scope, after, limit);
            && |nodes'| == |nodes| && DistinctIds(nodes')
            && forall i :: 0 <= i < |nodes| ==> nodes'[i].id == nodes[i].id && nodes'[i].world == nodes[i].world
  {
    forall i | 0 <= i < |nodes| {
      NodesAfterAre(p, nodes, scope, after, limit, i);
    }
  }

  /** The next page starts right behind the batch: among the candidates it has left, the node before are gone. */
  lemma WantedBehindBatch(p: Policy, nodes: seq<Node>, scope: Option<set<string>>, after: Option<string>, limit: nat,
                          n: Node)
    requires Lawful(p) && DistinctIds(nodes) && 0 < limit < |Candidates(p, nodes, scope, after)|
    requires n in nodes
    ensures var candidates := Candidates(p, nodes, scope, after);
            Wanted(p, scope, Some(candidates[limit - 1].id), n) <==> n in candidates[limit..]
    ensures var candidates := Candidates(p, nodes, scope, after);
            Wanted(p, scope, after, n) <==> n in candidates[..limit] || n in candidates[limit..]
    ensures n in Candidates(p, nodes, scope, after)[..limit] ==> n !in Candidates(p, nodes, scope, after)[limit..]
  {
    var candidates := Candidates(p, nodes, scope, after);
    CandidatesAreWanted(p, nodes, scope, after);
    assert candidates == candidates[..limit] + candidates[limit..];
    assert candidates[limit - 1] in candidates;
    if n in candidates {
      var k :| 0 <= k < |candidates| && candidates[k] == n;
      if k < limit {
        assert n in candidates[..limit];
        assert k == limit - 1 || p.before(n.id, candidates[limit - 1].id);
        NotInRest(p, candidates, k, limit);
      } else {
        assert candidates[limit..][k - limit] == n;
      }
    }
  }

  lemma NotInRest(p: Policy, candidates: seq<Node>, k: nat, limit: nat)
    requires TotalOrder(p.before) && Ascending(p, candidates) && k < limit <= |candidates|
    ensures candidates[k] !in candidates[limit..]
  {
    forall j | 0 <= j < |candidates| - limit
      ensures candidates[limit..][j] != candidates[k]
    {
      assert p.before(candidates[k].id, candidates[limit + j].id);
    }
  }

  lemma NextPage(p: Policy, nodes: seq<Node>, scope: Option<set<string>>, after: Option<string>, limit: nat)
    requires Lawful(p) && DistinctIds(nodes) && 0 < limit < |Candidates(p, nodes, scope, after)|
    ensures var candidates := Candidates(p, nodes, scope, after);
            Candidates(p, NodesAfter(p, nodes, scope, after, limit), scope, Some(candidates[limit - 1].id))
                == candidates[limit..]
  {
    var candidates := Candidates(p, nodes, scope, after);
    var nodes', after' := NodesAfter(p, nodes, scope, after, limit), Some(candidates[limit - 1].id);
    NodesAfterKeepIdentity(p, nodes, scope, after, limit);
    CandidatesAreWanted(p, nodes', scope, after');
    CandidatesAreWanted(p, nodes, scope, after);
    forall n
      ensures n in Candidates(p, nodes', scope, after') <==> n in candidates[limit..]
    {
      if n in candidates[limit..] {
        assert n in candidates;
        var i :| 0 <= i < |nodes| && nodes[i] == n;
        NodesAfterAre(p, nodes, scope, after, limit, i);
        WantedBehindBatch(p, nodes, scope, after, limit, n);
        assert nodes'[i] == n;
      }
      if n in nodes' && Wanted(p, scope, after', n) {
        var i :| 0 <= i < |nodes| && nodes'[i] == n;
        NodesAfterAre(p, nodes, scope, after, limit, i);
        WantedBehindBatch(p, nodes, scope, after, limit, nodes[i]);
      }
    }
    AscendingIsUnique(p, Candidates(p, nodes', scope, after'), candidates[limit..]);
  }

  /** A node is in the batch, in its version and behind the next cursor no more, or as it was and wanted as before. */
  lemma SweepContinuesAt(p: Policy, nodes: seq<Node>, scope: Option<set<string>>, after: Option<string>, limit: nat,
                         i: nat)
    requires Lawful(p) && DistinctIds(nodes) && 0 < limit < |Candidates(p, nodes, scope, after)| && i < |nodes|
    ensures var next, node := CycleOf(p, nodes, scope, after, limit).next, NodesAfter(p, nodes, scope, after, limit)[i];
            (if Wanted(p, scope, next, node) then Version(p, node) else node)
            == if Wanted(p, scope, after, nodes[i]) then Version(p, nodes[i]) else nodes[i]
  {
    var candidates := Candidates(p, nodes, scope, after);
    assert CycleOf(p, nodes, scope, after, limit).next == Some(candidates[limit - 1].id);
    assert Batch(p, nodes, scope, after, limit) == candidates[..limit];
    NodesAfterAre(p, nodes, scope, after, limit, i);
    WantedBehindBatch(p, nodes, scope, after, limit, nodes[i]);
  }

  lemma SweepContinues(p: Policy, nodes: seq<Node>, scope: Option<set<string>>, after: Option<string>, limit: nat)
    requires Lawful(p) && DistinctIds(nodes) && 0 < limit < |Candidates(p, nodes, scope, after)|
    ensures Swept(p, NodesAfter(p, nodes, scope, after, limit), scope, CycleOf(p, nodes, scope, after, limit).next)
         == Swept(p, nodes, scope, after)
  {
    var nodes', after' := NodesAfter(p, nodes, scope, after, limit), CycleOf(p, nodes, scope, after, limit).next;
    NodesAfterKeepIdentity(p, nodes, scope, after, limit);
    forall i | 0 <= i < |nodes|
      ensures Swept(p, nodes', scope, after')[i] == Swept(p, nodes, scope, after)[i]
    {
      SweepContinuesAt(p, nodes, scope, after, limit, i);
    }
  }

  lemma SweepEnds(p: Policy, nodes: seq<Node>, scope: Option<set<string>>, after: Option<string>, limit: nat)
    requires Lawful(p) && DistinctIds(nodes) && |Candidates(p, nodes, scope, after)| <= limit
    ensures NodesAfter(p, nodes, scope, after, limit) == Swept(p, nodes, scope, after)
  {
    CandidatesAreWanted(p, nodes, scope, after);
    forall i | 0 <= i < |nodes|
      ensures NodesAfter(p, nodes, scope, after, limit)[i] == Swept(p, nodes, scope, after)[i]
    {
      NodesAfterAre(p, nodes, scope, after, limit, i);
    }
  }

  // ---------------------------------------------------------------- paging to the end

  datatype Sweep = Sweep(cycles: seq<Cycle>, nodes: seq<Node>)

  /** The cursor that keeps the loop going: an empty one counts as none. */
  predicate Truthy(cursor: Option<string>) { cursor.Some? && cursor.value != "" }

  /** The cycles of `maintenance decay --all`: from the cursor of each cycle into the next one. */
  ghost function Pages(p: Policy, nodes: seq<Node>, scope: Option<set<string>>, after: Option<string>,
                       limit: nat): Sweep
    requires Lawful(p) && DistinctIds(nodes) && limit > 0
    decreases |Candidates(p, nodes, scope, after)|
  {
    var cycle, nodes' := CycleOf(p, nodes, scope, after, limit), NodesAfter(p, nodes, scope, after, limit);
    if !Truthy(cycle.next) then Sweep([cycle], nodes')
    else
      NodesAfterKeepIdentity(p, nodes, scope, after, limit);
      NextPage(p, nodes, scope, after, limit);
      var rest := Pages(p, nodes', scope, cycle.next, limit);
      Sweep([cycle] + rest.cycles, rest.nodes)
  }

  /** The loop with calls that may fail: the cycles done, the nodes it leaves, the cursor it has reached, and whether it
      ended in an error. */
  datatype Attempt = Attempt(cycles: seq<Cycle>, nodes: seq<Node>, cursor: Option<string>, failed: bool)

  function Ahead(cycle: Cycle, rest: Attempt): Attempt { rest.(cycles := [cycle] + rest.cycles) }

  ghost function Attempted(p: Policy, nodes: seq<Node>, scope: Option<set<string>>, after: Option<string>, limit: int,
                           commits: nat -> bool, k: nat): Attempt
    requires Lawful(p) && DistinctIds(nodes)
    decreases |Candidates(p, nodes, scope, after)|
  {
    if !Accepted(p, nodes, scope, after, limit, commits(k)) then Attempt([], nodes, after, true)
    else
      var cycle, nodes' := CycleOf(p, nodes, scope, after, limit), NodesAfter(p, nodes, scope, after, limit);
      if !Truthy(cycle.next) then Attempt([cycle], nodes', cycle.next, false)
      else
        NodesAfterKeepIdentity(p, nodes, scope, after, limit);
        NextPage(p, nodes, scope, after, limit);
        Ahead(cycle, Attempted(p, nodes', scope, cycle.next, limit, commits, k + 1))
  }

  /** A call that succeeds leaves the attempt that goes on from its cursor. */
  lemma AttemptUnfolds(p: Policy, nodes: seq<Node>, scope: Option<set<string>>, after: Option<string>, limit: int,
                       commits: nat -> bool, k: nat)
    requires Lawful(p) && DistinctIds(nodes)
    ensures !Accepted(p, nodes, scope, after, limit, commits(k)) ==>
              Attempted(p, nodes, scope, after, limit, commits, k) == Attempt([], nodes, after, true)
    ensures Accepted(p, nodes, scope, after, limit, commits(k)) ==>
              var nodes', cycle := NodesAfter(p, nodes, scope, after, limit), CycleOf(p, nodes, scope, after, limit);
              && DistinctIds(nodes')
              && Attempted(p, nodes, scope, after, limit, commits, k)
                 == if Truthy(cycle.next) then
                      Ahead(cycle, Attempted(p, nodes', scope, cycle.next, limit, commits, k + 1))
                    else Attempt([cycle], nodes', cycle.next, false)
  {
    if Accepted(p, nodes, scope, after, limit, commits(k)) {
      NodesAfterKeepIdentity(p, nodes, scope, after, limit);
    }
  }

  lemma FewerAreLeft(p: Policy, nodes: seq<Node>, scope: Option<set<string>>, after: Option<string>, limit: nat)
    requires Lawful(p) && DistinctIds(nodes) && limit > 0 && Truthy(CycleOf(p, nodes, scope, after, limit).next)
    ensures |Candidates(p, NodesAfter(p, nodes, scope, after, limit), scope,
                        CycleOf(p, nodes, scope, after, limit).next)|
          < |Candidates(p, nodes, scope, after)|
  {
    NextPage(p, nodes, scope, after, limit);
  }

  lemma ContinuesStep(whole: Attempt, cycles: seq<Cycle>, cycle: Cycle, rest: Attempt)
    requires Continues(whole, cycles, Ahead(cycle, rest))
    ensures Continues(whole, cycles + [cycle], rest)
  {
    assert cycles + ([cycle] + rest.cycles) == (cycles + [cycle]) + rest.cycles;
  }

  /** One round of the loop: an error or the last cycle ends the attempt, any other cycle goes on. */
  lemma AttemptContinues(p: Policy, nodes: seq<Node>, scope: Option<set<string>>, after: Option<string>, limit: int,
                         commits: nat -> bool, whole: Attempt, cycles: seq<Cycle>)
    requires Lawful(p) && DistinctIds(nodes)
    requires Continues(whole, cycles, Attempted(p, nodes, scope, after, limit, commits, |cycles|))
    ensures !Accepted(p, nodes, scope, after, limit, commits(|cycles|)) ==> whole == Attempt(cycles, nodes, after, true)
    ensures Accepted(p, nodes, scope, after, limit, commits(|cycles|)) ==>
              var nodes', cycle := NodesAfter(p, nodes, scope, after, limit), CycleOf(p, nodes, scope, after, limit);
              && DistinctIds(nodes')
              && (!Truthy(cycle.next) ==> whole == Attempt(cycles + [cycle], nodes', cycle.next, false))
              && (Truthy(cycle.next) ==>
                    && |Candidates(p, nodes', scope, cycle.next)| < |Candidates(p, nodes, scope, after)|
                    && Continues(whole, cycles + [cycle],
                                 Attempted(p, nodes', scope, cycle.next, limit, commits, |cycles| + 1)))
  {
    AttemptUnfolds(p, nodes, scope, after, limit, commits, |cycles|);
    if !Accepted(p, nodes, scope, after, limit, commits(|cycles|)) {
      assert cycles + [] == cycles;
    } else {
      var nodes', cycle := NodesAfter(p, nodes, scope, after, limit), CycleOf(p, nodes, scope, after, limit);
      if Truthy(cycle.next) {
        ContinuesStep(whole, cycles, cycle, Attempted(p, nodes', scope, cycle.next, limit, commits, |cycles| + 1));
        FewerAreLeft(p, nodes, scope, after, limit);
      }
    }
  }

  /** No page of `candidates` ends in a node whose id is empty. */
  predicate CursorsTruthy(candidates: seq<Node>, limit: nat)
    requires limit > 0
  {
    |candidates| <= limit || (candidates[limit - 1].id != "" && CursorsTruthy(candidates[limit..], limit))
  }

  function AddedTiers(a: Tiers, b: Tiers): Tiers { Tiers(a.hot + b.hot, a.warm + b.warm, a.cold + b.cold) }

  /** What the command reports of its cycles: the sums, and the end of the last one. */
  function Summed(cycles: seq<Cycle>): Cycle
    requires cycles != []
  {
    if |cycles| == 1 then cycles[0]
    else
      var rest := Summed(cycles[1..]);
      Cycle(cycles[0].scanned + rest.scanned, cycles[0].updated + rest.updated, rest.next, rest.complete,
            AddedTiers(cycles[0].tiers, rest.tiers))
  }

  lemma {:induction false} TierTotals(p: Policy, batch: seq<Node>, n: nat)
    requires n <= |batch|
    ensures TierCounts(p, batch, n).Total() == n
    ensures forall tier :: InTier(TierCounts(p, batch, n), tier) == multiset(TiersOf(p, batch)[..n])[tier]
  {
    if n > 0 {
      TierTotals(p, batch, n - 1);
      forall tier
        ensures InTier(TierCounts(p, batch, n), tier) == multiset(TiersOf(p, batch)[..n])[tier]
      {
        TierStep(p, batch, n - 1, tier);
      }
    }
  }

  lemma TierStep(p: Policy, batch: seq<Node>, n: nat, tier: Tier)
    requires n < |batch| && InTier(TierCounts(p, batch, n), tier) == multiset(TiersOf(p, batch)[..n])[tier]
    ensures InTier(TierCounts(p, batch, n + 1), tier) == multiset(TiersOf(p, batch)[..n + 1])[tier]
  {
    var tiers := TiersOf(p, batch);
    assert tiers[..n + 1] == tiers[..n] + [tiers[n]];
    CountedInTier(TierCounts(p, batch, n), tiers[n], tier);
  }

  lemma CountedInTier(t: Tiers, next: Tier, tier: Tier)
    ensures InTier(Counted(t, next), tier) == InTier(t, tier) + multiset{next}[tier]
  {
  }

  /** The tiers that the nodes of a batch fall into once they have decayed. */
  ghost function TiersOf(p: Policy, batch: seq<Node>): (tiers: seq<Tier>)
    ensures |tiers| == |batch| && forall i :: 0 <= i < |batch| ==> tiers[i] == p.tier(p.decay(batch[i]))
  {
    seq(|batch|, i requires 0 <= i < |batch| => p.tier(p.decay(batch[i])))
  }

  ghost function InTier(t: Tiers, tier: Tier): nat {
    match tier
    case Hot => t.hot
    case Warm => t.warm
    case Cold => t.cold
  }

  lemma {:induction false} TiersAdd(p: Policy, a: seq<Node>, b: seq<Node>, n: nat)
    requires n <= |b|
    ensures TierCounts(p, a + b, |a| + n) == AddedTiers(TierCounts(p, a, |a|), TierCounts(p, b, n))
  {
    if n == 0 {
      TiersOfPrefix(p, a, b, |a|);
    } else {
      TiersAdd(p, a, b, n - 1);
      var both := a + b;
      assert both[|a| + n - 1] == b[n - 1];
      var tier := p.tier(p.decay(b[n - 1]));
      assert TierCounts(p, both, |a| + n) == Counted(TierCounts(p, both, |a| + n - 1), tier);
      assert TierCounts(p, b, n) == Counted(TierCounts(p, b, n - 1), tier);
      CountedAdds(TierCounts(p, a, |a|), TierCounts(p, b, n - 1), tier);
    }
  }

  lemma CountedAdds(a: Tiers, b: Tiers, tier: Tier)
    ensures Counted(AddedTiers(a, b), tier) == AddedTiers(a, Counted(b, tier))
  {
  }

  lemma {:induction false} TiersOfPrefix(p: Policy, a: seq<Node>, b: seq<Node>, n: nat)
    requires n <= |a|
    ensures TierCounts(p, a + b, n) == TierCounts(p, a, n)
  {
    if n > 0 {
      TiersOfPrefix(p, a, b, n - 1);
    }
  }

  lemma {:induction false} MovedAdds(p: Policy, a: seq<Node>, b: seq<Node>, n: nat)
    requires n <= |b|
    ensures Moved(p, a + b, |a| + n) == Moved(p, a, |a|) + Moved(p, b, n)
  {
    if n == 0 {
      MovedOfPrefix(p, a, b, |a|);
    } else {
      MovedAdds(p, a, b, n - 1);
      assert (a + b)[|a| + n - 1] == b[n - 1];
    }
  }

  lemma {:induction false} MovedOfPrefix(p: Policy, a: seq<Node>, b: seq<Node>, n: nat)
    requires n <= |a|
    ensures Moved(p, a + b, n) == Moved(p, a, n)
  {
    if n > 0 {
      MovedOfPrefix(p, a, b, n - 1);
    }
  }

  /** What one full scan of the candidates reports. */
  ghost predicate FullScan(p: Policy, candidates: seq<Node>, cycle: Cycle) {
    && cycle.scanned == |candidates| && cycle.complete && cycle.next.None?
    && cycle.updated == Ids(Moved(p, candidates, |candidates|))
    && cycle.tiers == TierCounts(p, candidates, |candidates|)
  }

  lemma FullScanOfPages(p: Policy, candidates: seq<Node>, limit: nat, first: Cycle, rest: seq<Cycle>)
    requires 0 < limit < |candidates| && rest != [] && FullScan(p, candidates[limit..], Summed(rest))
    requires first.scanned == limit && first.updated == Ids(Moved(p, candidates[..limit], limit))
    requires first.tiers == TierCounts(p, candidates[..limit], limit)
    ensures FullScan(p, candidates, Summed([first] + rest))
  {
    var a, b := candidates[..limit], candidates[limit..];
    assert candidates == a + b;
    TiersAdd(p, a, b, |b|);
    MovedAdds(p, a, b, |b|);
    assert ([first] + rest)[1..] == rest;
    assert Summed([first] + rest).updated == first.updated + Summed(rest).updated;
    assert Ids(Moved(p, a, |a|) + Moved(p, b, |b|)) == Ids(Moved(p, a, |a|)) + Ids(Moved(p, b, |b|));
  }

  ghost predicate Pageable(p: Policy, nodes: seq<Node>, scope: Option<set<string>>, after: Option<string>, limit: nat) {
    Lawful(p) && DistinctIds(nodes) && limit > 0 && CursorsTruthy(Candidates(p, nodes, scope, after), limit)
  }

  /** What a cycle leaves to the run that goes on from its cursor. */
  lemma PagesUnfold(p: Policy, nodes: seq<Node>, scope: Option<set<string>>, after: Option<string>, limit: nat)
    returns (nodes': seq<Node>, cursor: Option<string>)
    requires Lawful(p) && DistinctIds(nodes) && limit > 0
    ensures nodes' == NodesAfter(p, nodes, scope, after, limit) && cursor == CycleOf(p, nodes, scope, after, limit).next
    ensures DistinctIds(nodes')
    ensures !Truthy(cursor) ==>
              Pages(p, nodes, scope, after, limit) == Sweep([CycleOf(p, nodes, scope, after, limit)], nodes')
    ensures Truthy(cursor) ==>
              var rest := Pages(p, nodes', scope, cursor, limit);
              Pages(p, nodes, scope, after, limit)
                  == Sweep([CycleOf(p, nodes, scope, after, limit)] + rest.cycles, rest.nodes)
  {
    nodes', cursor := NodesAfter(p, nodes, scope, after, limit), CycleOf(p, nodes, scope, after, limit).next;
    NodesAfterKeepIdentity(p, nodes, scope, after, limit);
  }

  /** A cycle that is not the last leaves a run over the rest of the candidates. */
  lemma RestIsPageable(p: Policy, nodes: seq<Node>, scope: Option<set<string>>, after: Option<string>, limit: nat)
    requires Pageable(p, nodes, scope, after, limit) && |Candidates(p, nodes, scope, after)| > limit
    ensures var first, nodes' := CycleOf(p, nodes, scope, after, limit), NodesAfter(p, nodes, scope, after, limit);
            && Truthy(first.next) && Pageable(p, nodes', scope, first.next, limit)
            && Candidates(p, nodes', scope, first.next) == Candidates(p, nodes, scope, after)[limit..]
  {
    var candidates, cursor := Candidates(p, nodes, scope, after), CycleOf(p, nodes, scope, after, limit).next;
    assert cursor == Some(candidates[limit - 1].id);
    assert Truthy(cursor) && CursorsTruthy(candidates[limit..], limit);
    NodesAfterKeepIdentity(p, nodes, scope, after, limit);
    NextPage(p, nodes, scope, after, limit);
  }

  lemma PagesStep(p: Policy, nodes: seq<Node>, scope: Option<set<string>>, after: Option<string>, limit: nat)
    returns (nodes': seq<Node>, cursor: Option<string>)
    requires Pageable(p, nodes, scope, after, limit) && |Candidates(p, nodes, scope, after)| > limit
    ensures Pageable(p, nodes', scope, cursor, limit)
    ensures Candidates(p, nodes', scope, cursor) == Candidates(p, nodes, scope, after)[limit..]
    ensures Swept(p, nodes', scope, cursor) == Swept(p, nodes, scope, after)
    ensures Pages(p, nodes, scope, after, limit)
         == Sweep([CycleOf(p, nodes, scope, after, limit)] + Pages(p, nodes', scope, cursor, limit).cycles,
                  Pages(p, nodes', scope, cursor, limit).nodes)
  {
    RestIsPageable(p, nodes, scope, after, limit);
    SweepContinues(p, nodes, scope, after, limit);
    nodes', cursor := PagesUnfold(p, nodes, scope, after, limit);
  }

  /** Together the cycles of a paged run scan every candidate once and in order, move what one full scan would move, and
      count the tiers it would count. */
  lemma {:induction false} PagingIsOneScan(p: Policy, nodes: seq<Node>, scope: Option<set<string>>,
                                           after: Option<string>, limit: nat)
    requires Pageable(p, nodes, scope, after, limit)
    ensures Pages(p, nodes, scope, after, limit).cycles != []
    ensures FullScan(p, Candidates(p, nodes, scope, after), Summed(Pages(p, nodes, scope, after, limit).cycles))
    decreases |Candidates(p, nodes, scope, after)|
  {
    var candidates := Candidates(p, nodes, scope, after);
    if |candidates| > limit {
      var nodes', cursor := PagesStep(p, nodes, scope, after, limit);
      PagingIsOneScan(p, nodes', scope, cursor, limit);
      FullScanOfPages(p, candidates, limit, CycleOf(p, nodes, scope, after, limit),
                      Pages(p, nodes', scope, cursor, limit).cycles);
    }
  }

  /** The nodes in scope behind the cursor have decayed, wherever that is worth it, and no others. */
  ghost predicate DecaysInScope(p: Policy, nodes: seq<Node>, left: seq<Node>, scope: Option<set<string>>,
                                after: Option<string>) {
    |left| == |nodes| && forall i :: 0 <= i < |nodes| ==>
      Decays(p, (scope.None? || nodes[i].world in scope.value) && (after.None? || p.before(after.value, nodes[i].id)),
             nodes[i], left[i])
  }

  lemma SweptDecays(p: Policy, nodes: seq<Node>, scope: Option<set<string>>, after: Option<string>)
    ensures DecaysInScope(p, nodes, Swept(p, nodes, scope, after), scope, after)
  {
    forall i | 0 <= i < |nodes| {
      VersionDecays(p, nodes[i]);
    }
  }

  /** A paged run leaves every wanted node in the version one full scan gives it, and every other node alone. */
  lemma {:induction false} PagingSweeps(p: Policy, nodes: seq<Node>, scope: Option<set<string>>, after: Option<string>,
                                        limit: nat)
    requires Pageable(p, nodes, scope, after, limit)
    ensures Pages(p, nodes, scope, after, limit).nodes == Swept(p, nodes, scope, after)
    ensures DecaysInScope(p, nodes, Pages(p, nodes, scope, after, limit).nodes, scope, after)
    decreases |Candidates(p, nodes, scope, after)|
  {
    SweptDecays(p, nodes, scope, after);
    if |Candidates(p, nodes, scope, after)| <= limit {
      SweepEnds(p, nodes, scope, after, limit);
    } else {
      var nodes', cursor := PagesStep(p, nodes, scope, after, limit);
      PagingSweeps(p, nodes', scope, cursor, limit);
    }
  }

  function PageCount(n: nat, limit: nat): nat
    requires limit > 0
  {
    if n <= limit then 1 else 1 + PageCount(n - limit, limit)
  }

  /** The page count is the least number of pages, but at least one, that hold `n` nodes. */
  lemma {:induction false} PageCountIsLeast(n: nat, limit: nat)
    requires limit > 0
    ensures n <= PageCount(n, limit) * limit
    ensures PageCount(n, limit) > 1 ==> (PageCount(n, limit) - 1) * limit < n
  {
    if n > limit {
      PageCountIsLeast(n - limit, limit);
      var fewer := PageCount(n - limit, limit);
      assert (1 + fewer) * limit == limit + fewer * limit;
      assert fewer * limit == limit + (fewer - 1) * limit;
    }
  }

  lemma {:induction false} PagingCalls(p: Policy, nodes: seq<Node>, scope: Option<set<string>>, after: Option<string>,
                                       limit: nat)
    requires Pageable(p, nodes, scope, after, limit)
    ensures |Pages(p, nodes, scope, after, limit).cycles| == PageCount(|Candidates(p, nodes, scope, after)|, limit)
    decreases |Candidates(p, nodes, scope, after)|
  {
    if |Candidates(p, nodes, scope, after)| > limit {
      var nodes', cursor := PagesStep(p, nodes, scope, after, limit);
      var n := |Candidates(p, nodes, scope, after)|;
      assert |Candidates(p, nodes', scope, cursor)| == n - limit;
      PagingCalls(p, nodes', scope, cursor, limit);
      assert PageCount(n, limit) == 1 + PageCount(n - limit, limit);
    }
  }

  /** The loop stops before the end exactly when some page ends in a node with an empty id. */
  lemma {:induction false} SweepEndsExactlyWhen(p: Policy, nodes: seq<Node>, scope: Option<set<string>>,
                                                after: Option<string>, limit: nat)
    requires Lawful(p) && DistinctIds(nodes) && limit > 0
    ensures Pages(p, nodes, scope, after, limit).cycles != []
    ensures Summed(Pages(p, nodes, scope, after, limit).cycles).complete
       <==> CursorsTruthy(Candidates(p, nodes, scope, after), limit)
    decreases |Candidates(p, nodes, scope, after)|
  {
    var candidates := Candidates(p, nodes, scope, after);
    var first, nodes' := CycleOf(p, nodes, scope, after, limit), NodesAfter(p, nodes, scope, after, limit);
    if Truthy(first.next) {
      NodesAfterKeepIdentity(p, nodes, scope, after, limit);
      NextPage(p, nodes, scope, after, limit);
      SweepEndsExactlyWhen(p, nodes', scope, first.next, limit);
      var rest := Pages(p, nodes', scope, first.next, limit);
      assert ([first] + rest.cycles)[1..] == rest.cycles;
    }
  }

  /** Two nodes, the first with an empty id, which the collation puts in front: in pages of one the loop stops
      after it. */
  lemma EmptyIdEndsTheSweep(p: Policy)
    requires Lawful(p) && p.before("", "a")
    ensures var nodes := [Node("", "w", 1.0, 1.0), Node("a", "w", 1.0, 1.0)];
            && |Candidates(p, nodes, None, None)| == 2
            && |Pages(p, nodes, None, None, 1).cycles| == 1 && !Pages(p, nodes, None, None, 1).cycles[0].complete
  {
    var first, second := Node("", "w", 1.0, 1.0), Node("a", "w", 1.0, 1.0);
    assert [first, second][1..] == [second] && [second][1..] == [];
    assert Candidates(p, [second], None, None) == [second];
    assert Candidates(p, [first, second], None, None) == [first, second];
    assert Batch(p, [first, second], None, None, 1) == [first];
  }

  // ---------------------------------------------------------------- a run with calls that fail

  /** The attempt ends without an error and is the paged run. */
  ghost predicate Completes(attempt: Attempt, whole: Sweep) {
    !attempt.failed && attempt.cycles == whole.cycles && attempt.nodes == whole.nodes
  }

  lemma CompletesAhead(cycle: Cycle, attempt: Attempt, whole: Sweep)
    requires Completes(attempt, whole)
    ensures Completes(Ahead(cycle, attempt), Sweep([cycle] + whole.cycles, whole.nodes))
  {
  }

  /** If no commit fails the loop completes. */
  lemma {:induction false} AttemptSucceeds(p: Policy, nodes: seq<Node>, scope: Option<set<string>>,
                                           after: Option<string>, limit: int, commits: nat -> bool, k: nat)
    requires Lawful(p) && DistinctIds(nodes) && 1 <= limit <= 10_000 && 0.0 <= p.minChange <= 1.0
    requires forall i: nat :: commits(i)
    ensures Completes(Attempted(p, nodes, scope, after, limit, commits, k), Pages(p, nodes, scope, after, limit))
    decreases |Candidates(p, nodes, scope, after)|
  {
    AttemptUnfolds(p, nodes, scope, after, limit, commits, k);
    var nodes', cursor := PagesUnfold(p, nodes, scope, after, limit);
    if Truthy(cursor) {
      FewerAreLeft(p, nodes, scope, after, limit);
      AttemptSucceeds(p, nodes', scope, cursor, limit, commits, k + 1);
      CompletesAhead(CycleOf(p, nodes, scope, after, limit), Attempted(p, nodes', scope, cursor, limit, commits, k + 1),
                     Pages(p, nodes', scope, cursor, limit));
    }
  }

  lemma BehindPageIsUntouched(p: Policy, nodes: seq<Node>, scope: Option<set<string>>, after: Option<string>,
                              limit: nat, i: nat)
    requires Lawful(p) && DistinctIds(nodes) && 0 < limit < |Candidates(p, nodes, scope, after)| && i < |nodes|
    requires Wanted(p, scope, CycleOf(p, nodes, scope, after, limit).next, nodes[i])
    ensures Wanted(p, scope, after, nodes[i]) && NodesAfter(p, nodes, scope, after, limit)[i] == nodes[i]
  {
    var candidates := Candidates(p, nodes, scope, after);
    assert CycleOf(p, nodes, scope, after, limit).next == Some(candidates[limit - 1].id);
    assert Batch(p, nodes, scope, after, limit) == candidates[..limit];
    WantedBehindBatch(p, nodes, scope, after, limit, nodes[i]);
    NodesAfterAre(p, nodes, scope, after, limit, i);
  }

  ghost predicate SweptAt(p: Policy, nodes: seq<Node>, scope: Option<set<string>>, after: Option<string>,
                          attempt: Attempt, i: nat)
    requires i < |nodes| == |attempt.nodes|
  {
    && (Wanted(p, scope, attempt.cursor, nodes[i]) ==> Wanted(p, scope, after, nodes[i]))
    && attempt.nodes[i]
       == if Wanted(p, scope, attempt.cursor, nodes[i]) then nodes[i] else Swept(p, nodes, scope, after)[i]
  }

  /** Every node behind the cursor of the attempt is as it was, every other one as the full sweep leaves it. */
  ghost predicate SweptUpTo(p: Policy, nodes: seq<Node>, scope: Option<set<string>>, after: Option<string>,
                            attempt: Attempt) {
    |attempt.nodes| == |nodes| && forall i :: 0 <= i < |nodes| ==> SweptAt(p, nodes, scope, after, attempt, i)
  }

  lemma SweptUpToNext(p: Policy, nodes: seq<Node>, scope: Option<set<string>>, after: Option<string>, limit: nat,
                      rest: Attempt)
    requires Pageable(p, nodes, scope, after, limit) && |Candidates(p, nodes, scope, after)| > limit
    requires SweptUpTo(p, NodesAfter(p, nodes, scope, after, limit), scope, CycleOf(p, nodes, scope, after, limit).next,
                       rest)
    ensures SweptUpTo(p, nodes, scope, after, Ahead(CycleOf(p, nodes, scope, after, limit), rest))
  {
    var nodes', cycle := NodesAfter(p, nodes, scope, after, limit), CycleOf(p, nodes, scope, after, limit);
    NodesAfterKeepIdentity(p, nodes, scope, after, limit);
    SweepContinues(p, nodes, scope, after, limit);
    forall i | 0 <= i < |nodes|
      ensures SweptAt(p, nodes, scope, after, Ahead(cycle, rest), i)
    {
      assert SweptAt(p, nodes', scope, cycle.next, rest, i);
      if Wanted(p, scope, rest.cursor, nodes[i]) {
        BehindPageIsUntouched(p, nodes, scope, after, limit, i);
      }
    }
  }

  /** A run that ends in an error leaves every node behind the cursor it has reached as it was, and every other node as
      the full sweep leaves it. */
  lemma {:induction false} FailureKeepsPages(p: Policy, nodes: seq<Node>, scope: Option<set<string>>,
                                             after: Option<string>, limit: int, commits: nat -> bool, k: nat)
    requires limit > 0 && Pageable(p, nodes, scope, after, limit)
    requires Attempted(p, nodes, scope, after, limit, commits, k).failed
    ensures SweptUpTo(p, nodes, scope, after, Attempted(p, nodes, scope, after, limit, commits, k))
    decreases |Candidates(p, nodes, scope, after)|
  {
    AttemptUnfolds(p, nodes, scope, after, limit, commits, k);
    if Accepted(p, nodes, scope, after, limit, commits(k)) {
      var nodes', cycle := NodesAfter(p, nodes, scope, after, limit), CycleOf(p, nodes, scope, after, limit);
      RestIsPageable(p, nodes, scope, after, limit);
      FailureKeepsPages(p, nodes', scope, cycle.next, limit, commits, k + 1);
      SweptUpToNext(p, nodes, scope, after, limit, Attempted(p, nodes', scope, cycle.next, limit, commits, k + 1));
    }
  }

  /** A run from the cursor of the attempt can go on; the cycles of both and the nodes in the end are the whole run. */
  ghost predicate Resumes(p: Policy, scope: Option<set<string>>, limit: nat, attempt: Attempt, whole: Sweep) {
    Pageable(p, attempt.nodes, scope, attempt.cursor, limit) &&
    var rest := Pages(p, attempt.nodes, scope, attempt.cursor, limit);
    whole == Sweep(attempt.cycles + rest.cycles, rest.nodes)
  }

  lemma AheadResumes(p: Policy, scope: Option<set<string>>, limit: nat, cycle: Cycle, attempt: Attempt, whole: Sweep)
    requires Resumes(p, scope, limit, attempt, whole)
    ensures Resumes(p, scope, limit, Ahead(cycle, attempt), Sweep([cycle] + whole.cycles, whole.nodes))
  {
    var rest := Pages(p, attempt.nodes, scope, attempt.cursor, limit);
    assert ([cycle] + attempt.cycles) + rest.cycles == [cycle] + (attempt.cycles + rest.cycles);
  }

  lemma FailedAtOnceResumes(p: Policy, nodes: seq<Node>, scope: Option<set<string>>, after: Option<string>, limit: nat)
    requires Pageable(p, nodes, scope, after, limit)
    ensures Resumes(p, scope, limit, Attempt([], nodes, after, true), Pages(p, nodes, scope, after, limit))
  {
    var whole := Pages(p, nodes, scope, after, limit);
    assert [] + whole.cycles == whole.cycles;
  }

  lemma FailedLaterResumes(p: Policy, nodes: seq<Node>, scope: Option<set<string>>, after: Option<string>, limit: nat,
                           attempt: Attempt)
    requires Pageable(p, nodes, scope, after, limit) && |Candidates(p, nodes, scope, after)| > limit
    requires var nodes', next := NodesAfter(p, nodes, scope, after, limit), CycleOf(p, nodes, scope, after, limit).next;
             && Pageable(p, nodes', scope, next, limit)
             && Resumes(p, scope, limit, attempt, Pages(p, nodes', scope, next, limit))
    ensures Resumes(p, scope, limit, Ahead(CycleOf(p, nodes, scope, after, limit), attempt),
                    Pages(p, nodes, scope, after, limit))
  {
    RestIsPageable(p, nodes, scope, after, limit);
    var nodes', next := PagesUnfold(p, nodes, scope, after, limit);
    AheadResumes(p, scope, limit, CycleOf(p, nodes, scope, after, limit), attempt,
                 Pages(p, nodes', scope, next, limit));
  }

  /** After a run that ends in an error, a run from the cursor it has reached goes on as if there had been none. */
  lemma {:induction false} FailedRunGoesOn(p: Policy, nodes: seq<Node>, scope: Option<set<string>>,
                                           after: Option<string>, limit: int, commits: nat -> bool, k: nat)
    requires limit > 0 && Pageable(p, nodes, scope, after, limit)
    requires Attempted(p, nodes, scope, after, limit, commits, k).failed
    ensures Resumes(p, scope, limit, Attempted(p, nodes, scope, after, limit, commits, k),
                    Pages(p, nodes, scope, after, limit))
    decreases |Candidates(p, nodes, scope, after)|
  {
    AttemptUnfolds(p, nodes, scope, after, limit, commits, k);
    if !Accepted(p, nodes, scope, after, limit, commits(k)) {
      FailedAtOnceResumes(p, nodes, scope, after, limit);
    } else {
      var nodes', next := NodesAfter(p, nodes, scope, after, limit), CycleOf(p, nodes, scope, after, limit).next;
      RestIsPageable(p, nodes, scope, after, limit);
      FailedRunGoesOn(p, nodes', scope, next, limit, commits, k + 1);
      FailedLaterResumes(p, nodes, scope, after, limit, Attempted(p, nodes', scope, next, limit, commits, k + 1));
    }
  }
}
