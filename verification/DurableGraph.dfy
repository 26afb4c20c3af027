/** The durable graph and its checkpoints: undo logs that every write feeds and a rollback replays. */
module DurableGraph {
  import opened Common

  datatype Node = Node(id: string, contentHash: string, envelope: int)

  datatype Edge = Edge(id: string, from: string, to: string, kind: string)

  datatype Refusal = Unverified | IdentityChange | UnknownCheckpoint

  datatype Result<+T> = Ok(value: T) | Refused(reason: Refusal)

  // ---------------------------------------------------------------- undo logs

  /** An undo log remembers, for every key written since the checkpoint, what it held before its first write. */
  function Tracked<V>(undo: map<string, Option<V>>, current: map<string, V>, key: string): map<string, Option<V>> {
    if key in undo then undo else undo[key := Lookup(current, key)]
  }

  /** The contents after replaying an undo log. */
  function Restored<V>(current: map<string, V>, undo: map<string, Option<V>>): map<string, V> {
    map key | key in current.Keys + undo.Keys && (key in undo ==> undo[key].Some?) ::
      if key in undo then undo[key].value else current[key]
  }

  lemma RestoredLookup<V>(current: map<string, V>, undo: map<string, Option<V>>, key: string)
    ensures Lookup(Restored(current, undo), key) == if key in undo then undo[key] else Lookup(current, key)
  {
  }

  lemma SameLookups<V>(a: map<string, V>, b: map<string, V>)
    requires forall key :: Lookup(a, key) == Lookup(b, key)
    ensures a == b
  {
    forall key
      ensures (key in a <==> key in b) && (key in a ==> a[key] == b[key])
    {
      assert Lookup(a, key) == Lookup(b, key);
    }
  }

  /** A tracked write does not change what a rollback restores. */
  lemma TrackedWriteKeepsRestored<V>(current: map<string, V>, undo: map<string, Option<V>>, key: string, value: V)
    ensures Restored(current[key := value], Tracked(undo, current, key)) == Restored(current, undo)
  {
    var now, log := current[key := value], Tracked(undo, current, key);
    forall k
      ensures Lookup(Restored(now, log), k) == Lookup(Restored(current, undo), k)
    {
      RestoredLookup(now, log, k);
      RestoredLookup(current, undo, k);
    }
    SameLookups(Restored(now, log), Restored(current, undo));
  }

  /** Rolling one checkpoint back leaves what another one restores as it was exactly when every key that only the
      first has logged still holds what it held at the first. */
  lemma RollbackSparesOtherExactlyWhen<V>(current: map<string, V>, undo: map<string, Option<V>>,
                                          other: map<string, Option<V>>)
    ensures Restored(Restored(current, undo), other) == Restored(current, other)
       <==> forall key :: key in undo && key !in other ==> undo[key] == Lookup(current, key)
  {
    var back := Restored(current, undo);
    forall key
      ensures Lookup(Restored(back, other), key) == Lookup(Restored(current, other), key)
         <==> (key in undo && key !in other ==> undo[key] == Lookup(current, key))
    {
      RestoredLookup(back, other, key);
      RestoredLookup(current, other, key);
      RestoredLookup(current, undo, key);
    }
    if forall key :: key in undo && key !in other ==> undo[key] == Lookup(current, key) {
      SameLookups(Restored(back, other), Restored(current, other));
    }
  }

  // ---------------------------------------------------------------- the graph

  datatype Undo = Undo(nodes: map<string, Option<Node>>, edges: map<string, Option<Edge>>)

  datatype Contents = Contents(nodes: map<string, Node>, edges: map<string, Edge>)

  function Back(contents: Contents, undo: Undo): Contents {
    Contents(Restored(contents.nodes, undo.nodes), Restored(contents.edges, undo.edges))
  }

  function TrackNode(checkpoints: map<nat, Undo>, nodes: map<string, Node>, id: string): map<nat, Undo> {
    map c | c in checkpoints :: checkpoints[c].(nodes := Tracked(checkpoints[c].nodes, nodes, id))
  }

  function TrackEdge(checkpoints: map<nat, Undo>, edges: map<string, Edge>, id: string): map<nat, Undo> {
    map c | c in checkpoints :: checkpoints[c].(edges := Tracked(checkpoints[c].edges, edges, id))
  }

  /** Each open checkpoint restores what was there when it was taken, and an older one has logged all that a younger
      has. */
  ghost predicate Restorable(contents: Contents, checkpoints: map<nat, Undo>, taken: map<nat, Contents>) {
    checkpoints.Keys == taken.Keys && AllRestore(contents, checkpoints, taken) && Nested(checkpoints)
  }

  ghost predicate AllRestore(contents: Contents, checkpoints: map<nat, Undo>, taken: map<nat, Contents>)
    requires checkpoints.Keys == taken.Keys
  {
    forall c :: c in checkpoints ==> Back(contents, checkpoints[c]) == taken[c]
  }

  ghost predicate Nested(checkpoints: map<nat, Undo>) {
    forall c, d :: c in checkpoints && d in checkpoints && c <= d ==> LogsMore(checkpoints[c], checkpoints[d])
  }

  ghost predicate LogsMore(older: Undo, younger: Undo) {
    younger.nodes.Keys <= older.nodes.Keys && younger.edges.Keys <= older.edges.Keys
  }

  lemma NodeWriteKeepsRestorable(contents: Contents, checkpoints: map<nat, Undo>, taken: map<nat, Contents>, id: string,
                                 node: Node)
    requires Restorable(contents, checkpoints, taken)
    ensures Restorable(contents.(nodes := contents.nodes[id := node]), TrackNode(checkpoints, contents.nodes, id),
                       taken)
  {
    var contents', checkpoints' :=
        contents.(nodes := contents.nodes[id := node]), TrackNode(checkpoints, contents.nodes, id);
    forall c | c in checkpoints'
      ensures Back(contents', checkpoints'[c]) == taken[c]
    {
      assert Back(contents, checkpoints[c]) == taken[c];
      TrackedWriteKeepsRestored(contents.nodes, checkpoints[c].nodes, id, node);
    }
    TrackNodeKeepsNested(checkpoints, contents.nodes, id);
  }

  lemma TrackNodeKeepsNested(checkpoints: map<nat, Undo>, nodes: map<string, Node>, id: string)
    requires Nested(checkpoints)
    ensures Nested(TrackNode(checkpoints, nodes, id))
  {
    var checkpoints' := TrackNode(checkpoints, nodes, id);
    forall c, d | c in checkpoints' && d in checkpoints' && c <= d
      ensures LogsMore(checkpoints'[c], checkpoints'[d])
    {
      assert LogsMore(checkpoints[c], checkpoints[d]);
    }
  }

  lemma EdgeWriteKeepsRestorable(contents: Contents, checkpoints: map<nat, Undo>, taken: map<nat, Contents>, id: string,
                                 edge: Edge)
    requires Restorable(contents, checkpoints, taken)
    ensures Restorable(contents.(edges := contents.edges[id := edge]), TrackEdge(checkpoints, contents.edges, id),
                       taken)
  {
    var contents', checkpoints' :=
        contents.(edges := contents.edges[id := edge]), TrackEdge(checkpoints, contents.edges, id);
    forall c | c in checkpoints'
      ensures Back(contents', checkpoints'[c]) == taken[c]
    {
      assert Back(contents, checkpoints[c]) == taken[c];
      TrackedWriteKeepsRestored(contents.edges, checkpoints[c].edges, id, edge);
    }
    TrackEdgeKeepsNested(checkpoints, contents.edges, id);
  }

  lemma TrackEdgeKeepsNested(checkpoints: map<nat, Undo>, edges: map<string, Edge>, id: string)
    requires Nested(checkpoints)
    ensures Nested(TrackEdge(checkpoints, edges, id))
  {
    var checkpoints' := TrackEdge(checkpoints, edges, id);
    forall c, d | c in checkpoints' && d in checkpoints' && c <= d
      ensures LogsMore(checkpoints'[c], checkpoints'[d])
    {
      assert LogsMore(checkpoints[c], checkpoints[d]);
    }
  }

  lemma CheckpointKeepsRestorable(contents: Contents, checkpoints: map<nat, Undo>, taken: map<nat, Contents>, c: nat)
    requires Restorable(contents, checkpoints, taken) && forall d :: d in checkpoints ==> d < c
    ensures Restorable(contents, checkpoints[c := Undo(map[], map[])], taken[c := contents])
  {
    var checkpoints', taken' := checkpoints[c := Undo(map[], map[])], taken[c := contents];
    assert Restored(contents.nodes, map[]) == contents.nodes && Restored(contents.edges, map[]) == contents.edges;
    forall d | d in checkpoints'
      ensures Back(contents, checkpoints'[d]) == taken'[d]
    {
      assert d != c ==> Back(contents, checkpoints[d]) == taken[d];
    }
    forall a, b | a in checkpoints' && b in checkpoints' && a <= b
      ensures LogsMore(checkpoints'[a], checkpoints'[b])
    {
      assert b != c ==> a != c && LogsMore(checkpoints[a], checkpoints[b]);
    }
    assert checkpoints'.Keys == taken'.Keys;
  }

  lemma CloseKeepsNested(checkpoints: map<nat, Undo>, c: nat)
    requires Nested(checkpoints)
    ensures Nested(checkpoints - {c})
  {
    forall a, b | a in checkpoints - {c} && b in checkpoints - {c} && a <= b
      ensures LogsMore((checkpoints - {c})[a], (checkpoints - {c})[b])
    {
      assert LogsMore(checkpoints[a], checkpoints[b]);
    }
  }

  ghost predicate Youngest(checkpoints: map<nat, Undo>, c: nat) {
    forall d :: d in checkpoints ==> d <= c
  }

  /** Whatever only `undo` has logged still holds what it held when `undo` began. */
  ghost predicate Spared(contents: Contents, undo: Undo, other: Undo) {
    && (forall key :: key in undo.nodes && key !in other.nodes ==> undo.nodes[key] == Lookup(contents.nodes, key))
    && (forall key :: key in undo.edges && key !in other.edges ==> undo.edges[key] == Lookup(contents.edges, key))
  }

  lemma RollbackSpares(contents: Contents, undo: Undo, other: Undo)
    ensures Back(Back(contents, undo), other) == Back(contents, other) <==> Spared(contents, undo, other)
  {
    RollbackSparesOtherExactlyWhen(contents.nodes, undo.nodes, other.nodes);
    RollbackSparesOtherExactlyWhen(contents.edges, undo.edges, other.edges);
  }

  /** Every checkpoint taken after `c` is spared by rolling `c` back. */
  ghost predicate YoungerSpared(contents: Contents, checkpoints: map<nat, Undo>, c: nat)
    requires c in checkpoints
  {
    forall d :: d in checkpoints && d > c ==> Spared(contents, checkpoints[c], checkpoints[d])
  }

  /** Rolling `c` back restores what it saw; the other checkpoints stay exact exactly when the younger ones
      are spared. */
  lemma RollbackKeepsRestorableExactlyWhen(contents: Contents, checkpoints: map<nat, Undo>, taken: map<nat, Contents>,
                                           c: nat)
    requires Restorable(contents, checkpoints, taken) && c in checkpoints
    ensures Back(contents, checkpoints[c]) == taken[c]
    ensures Restorable(taken[c], checkpoints - {c}, taken - {c}) <==> YoungerSpared(contents, checkpoints, c)
  {
    assert Back(contents, checkpoints[c]) == taken[c];
    assert (checkpoints - {c}).Keys == (taken - {c}).Keys;
    CloseKeepsNested(checkpoints, c);
    forall d | d in checkpoints && d != c
      ensures Back(taken[c], checkpoints[d]) == taken[d]
         <==> (d > c ==> Spared(contents, checkpoints[c], checkpoints[d]))
    {
      assert Back(contents, checkpoints[d]) == taken[d];
      RollbackSpares(contents, checkpoints[c], checkpoints[d]);
      assert d < c ==> LogsMore(checkpoints[d], checkpoints[c]);
    }
    if YoungerSpared(contents, checkpoints, c) {
      assert AllRestore(taken[c], checkpoints - {c}, taken - {c});
    }
    if AllRestore(taken[c], checkpoints - {c}, taken - {c}) {
      forall d | d in checkpoints && d > c
        ensures Spared(contents, checkpoints[c], checkpoints[d])
      {
        assert d in checkpoints - {c};
      }
    }
  }

  predicate SameEnds(a: Edge, b: Edge) { a.from == b.from && a.to == b.to && a.kind == b.kind }

  class Graph {
    var nodes: map<string, Node>
    var edges: map<string, Edge>
    var checkpoints: map<nat, Undo>
    var next: nat
    ghost var taken: map<nat, Contents>

    ghost predicate Valid()
      reads this
    {
      && Restorable(Now(), checkpoints, taken)
      && (forall c :: c in checkpoints ==> c < next)
    }

    ghost function Now(): Contents
      reads this
    {
      Contents(nodes, edges)
    }

    constructor ()
      ensures Valid() && Now() == Contents(map[], map[]) && checkpoints == map[]
    {
      nodes, edges, checkpoints, next, taken := map[], map[], map[], 0, map[];
    }

    /** `verified` is whether the content hash of `node` checks out. */
    method AddNode(node: Node, verified: bool) returns (r: Result<Node>)
      requires Valid()
      modifies this`nodes, this`checkpoints
      ensures Valid() && checkpoints.Keys == old(checkpoints).Keys
      ensures r.Refused? ==> Now() == old(Now())
      ensures r.Refused?
         <==> !verified || (node.id in old(nodes) && old(nodes)[node.id].contentHash != node.contentHash)
      ensures r.Ok? ==> r.value == (if node.id in old(nodes) then old(nodes)[node.id] else node)
      ensures r.Ok? ==> nodes == old(nodes)[node.id := r.value]
    {
      if !verified {
        return Refused(Unverified);
      }
      if node.id in nodes {
        if nodes[node.id].contentHash != node.contentHash {
          return Refused(IdentityChange);
        }
        assert nodes == nodes[node.id := nodes[node.id]];
        return Ok(nodes[node.id]);
      }
      NodeWriteKeepsRestorable(Now(), checkpoints, taken, node.id, node);
      checkpoints := TrackNode(checkpoints, nodes, node.id);
      nodes := nodes[node.id := node];
      return Ok(node);
    }

    method ApplyNodeVersion(node: Node, verified: bool) returns (r: Result<Node>)
      requires Valid()
      modifies this`nodes, this`checkpoints
      ensures Valid() && checkpoints.Keys == old(checkpoints).Keys
      ensures r.Refused? ==> Now() == old(Now())
      ensures r.Refused?
         <==> !verified || (node.id in old(nodes) && old(nodes)[node.id].contentHash != node.contentHash)
      ensures r.Ok? ==> r.value == node && nodes == old(nodes)[node.id := node]
    {
      if !verified {
        return Refused(Unverified);
      }
      if node.id in nodes && nodes[node.id].contentHash != node.contentHash {
        return Refused(IdentityChange);
      }
      NodeWriteKeepsRestorable(Now(), checkpoints, taken, node.id, node);
      checkpoints := TrackNode(checkpoints, nodes, node.id);
      nodes := nodes[node.id := node];
      return Ok(node);
    }

    method AddEdge(edge: Edge) returns (r: Result<Edge>)
      requires Valid()
      modifies this`edges, this`checkpoints
      ensures Valid() && checkpoints.Keys == old(checkpoints).Keys
      ensures r.Refused? ==> Now() == old(Now())
      ensures r.Refused? <==> edge.id in old(edges) && var prior := old(edges)[edge.id];
                              prior.from != edge.from || prior.to != edge.to || prior.kind != edge.kind
      ensures r.Ok? ==> r.value == (if edge.id in old(edges) then old(edges)[edge.id] else edge)
      ensures r.Ok? ==> edges == old(edges)[edge.id := r.value]
    {
      if edge.id in edges {
        if !SameEnds(edges[edge.id], edge) {
          return Refused(IdentityChange);
        }
        assert edges == edges[edge.id := edges[edge.id]];
        return Ok(edges[edge.id]);
      }
      EdgeWriteKeepsRestorable(Now(), checkpoints, taken, edge.id, edge);
      checkpoints := TrackEdge(checkpoints, edges, edge.id);
      edges := edges[edge.id := edge];
      return Ok(edge);
    }

    method Checkpoint() returns (c: nat)
      requires Valid()
      modifies this`checkpoints, this`next, this`taken
      ensures Valid() && c !in old(checkpoints) && checkpoints.Keys == old(checkpoints).Keys + {c}
      ensures taken == old(taken)[c := Now()] && Youngest(checkpoints, c)
    {
      c := next;
      CheckpointKeepsRestorable(Now(), checkpoints, taken, c);
      next := next + 1;
      checkpoints := checkpoints[c := Undo(map[], map[])];
      taken := taken[c := Now()];
    }

    method Commit(c: nat) returns (r: Result<()>)
      requires Valid()
      modifies this`checkpoints, this`taken
      ensures Valid()
      ensures r.Refused? <==> c !in old(checkpoints)
      ensures checkpoints == old(checkpoints) - {c} && taken == old(taken) - {c}
    {
      if c !in checkpoints {
        assert checkpoints - {c} == checkpoints && taken - {c} == taken;
        return Refused(UnknownCheckpoint);
      }
      CloseKeepsNested(checkpoints, c);
      assert (checkpoints - {c}).Keys == (taken - {c}).Keys;
      checkpoints := checkpoints - {c};
      taken := taken - {c};
      return Ok(());
    }

    /** Rolling back restores exactly what the checkpoint saw, in any order; the remaining checkpoints stay exact
        if and only if the younger ones are spared, in particular when there are none. */
    method Rollback(c: nat) returns (r: Result<()>)
      requires Valid()
      modifies this`nodes, this`edges, this`checkpoints, this`taken
      ensures r.Refused? <==> c !in old(checkpoints)
      ensures r.Refused? ==> Valid() && Now() == old(Now())
      ensures r.Ok? ==> Now() == old(taken)[c]
      ensures r.Ok? ==> (Valid() <==> old(YoungerSpared(Now(), checkpoints, c)))
      ensures checkpoints == old(checkpoints) - {c} && taken == old(taken) - {c}
    {
      if c !in checkpoints {
        assert checkpoints - {c} == checkpoints && taken - {c} == taken;
        return Refused(UnknownCheckpoint);
      }
      RollbackKeepsRestorableExactlyWhen(Now(), checkpoints, taken, c);
      var undo := checkpoints[c];
      nodes := Restored(nodes, undo.nodes);
      edges := Restored(edges, undo.edges);
      checkpoints := checkpoints - {c};
      taken := taken - {c};
      return Ok(());
    }
  }

  // ---------------------------------------------------------------- committing node versions

  /** A node version and whether its content hash checks out. */
  datatype Version = Version(node: Node, verified: bool)

  /** The nodes after applying the versions in order, if none of them is refused. */
  function ApplyAll(nodes: map<string, Node>, versions: seq<Version>): Option<map<string, Node>> {
    if versions == [] then Some(nodes)
    else
      var last := versions[|versions| - 1];
      match ApplyAll(nodes, versions[..|versions| - 1])
      case None => None
      case Some(before) =>
        if !last.verified || (last.node.id in before && before[last.node.id].contentHash != last.node.contentHash) then
          None
        else Some(before[last.node.id := last.node])
  }

  /** Version `i` is the last with its id. */
  ghost predicate LastOf(versions: seq<Version>, id: string, i: int) {
    0 <= i < |versions| && versions[i].node.id == id && forall j :: i < j < |versions| ==> versions[j].node.id != id
  }

  /** The version is verified and keeps the content of the node it replaces and of the versions before it. */
  ghost predicate Fits(nodes: map<string, Node>, versions: seq<Version>, i: nat)
    requires i < |versions|
  {
    && versions[i].verified && FitsNode(nodes, versions[i].node)
    && forall j :: 0 <= j < i && versions[j].node.id == versions[i].node.id ==>
         versions[j].node.contentHash == versions[i].node.contentHash
  }

  ghost predicate FitsNode(nodes: map<string, Node>, node: Node) {
    node.id in nodes ==> nodes[node.id].contentHash == node.contentHash
  }

  ghost predicate AllFit(nodes: map<string, Node>, versions: seq<Version>) {
    forall i: nat :: i < |versions| ==> Fits(nodes, versions, i)
  }

  lemma NextApplies(nodes: map<string, Node>, front: seq<Version>, last: Version)
    ensures ApplyAll(nodes, front + [last]).Some?
       <==> && ApplyAll(nodes, front).Some? && last.verified
            && FitsNode(ApplyAll(nodes, front).value, last.node)
    ensures ApplyAll(nodes, front + [last]).Some? ==>
              ApplyAll(nodes, front + [last]).value == ApplyAll(nodes, front).value[last.node.id := last.node]
  {
    assert (front + [last])[..|front|] == front;
  }

  /** Once applied, every id with a version has its last one, and every other node is as it was. */
  lemma {:induction false} AppliedAre(nodes: map<string, Node>, versions: seq<Version>, id: string)
    requires ApplyAll(nodes, versions).Some?
    ensures var applied := Lookup(ApplyAll(nodes, versions).value, id);
            || (applied == Lookup(nodes, id) && forall v :: v in versions ==> v.node.id != id)
            || (exists i :: LastOf(versions, id, i) && applied == Some(versions[i].node))
  {
    if versions != [] {
      var front, last := versions[..|versions| - 1], versions[|versions| - 1];
      assert versions == front + [last];
      NextApplies(nodes, front, last);
      AppliedAre(nodes, front, id);
      if last.node.id == id {
        assert LastOf(versions, id, |front|);
      } else if i :| LastOf(front, id, i) && Lookup(ApplyAll(nodes, front).value, id) == Some(front[i].node) {
        assert LastOf(versions, id, i);
      }
    }
  }

  lemma NextFits(nodes: map<string, Node>, front: seq<Version>, last: Version)
    ensures AllFit(nodes, front + [last]) <==> AllFit(nodes, front) && Fits(nodes, front + [last], |front|)
  {
    var all := front + [last];
    forall i: nat | i < |front|
      ensures Fits(nodes, all, i) <==> Fits(nodes, front, i)
    {
      assert forall j :: 0 <= j <= i ==> all[j] == front[j];
    }
  }

  /** Behind versions that fit and are applied, a verified version fits exactly when it fits the node there is. */
  lemma FitsApplied(nodes: map<string, Node>, front: seq<Version>, last: Version)
    requires AllFit(nodes, front) && ApplyAll(nodes, front).Some?
    ensures Fits(nodes, front + [last], |front|)
       <==> last.verified && FitsNode(ApplyAll(nodes, front).value, last.node)
  {
    var id := last.node.id;
    AppliedAre(nodes, front, id);
    if i :| LastOf(front, id, i) && Lookup(ApplyAll(nodes, front).value, id) == Some(front[i].node) {
      assert Fits(nodes, front, i);
      assert (front + [last])[i] == front[i];
      forall j | 0 <= j < |front| && front[j].node.id == id
        ensures front[j].node.contentHash == front[i].node.contentHash
      {
        assert j <= i;
      }
    } else {
      assert forall v :: v in front ==> v.node.id != id;
    }
  }

  /** Versions apply exactly when each is verified and keeps the content of its id. */
  lemma {:induction false} AppliesExactlyWhen(nodes: map<string, Node>, versions: seq<Version>)
    ensures ApplyAll(nodes, versions).Some? <==> AllFit(nodes, versions)
  {
    if versions != [] {
      var front, last := versions[..|versions| - 1], versions[|versions| - 1];
      assert versions == front + [last];
      AppliesExactlyWhen(nodes, front);
      NextApplies(nodes, front, last);
      NextFits(nodes, front, last);
      if ApplyAll(nodes, front).Some? {
        FitsApplied(nodes, front, last);
      }
    }
  }

  lemma {:induction false} RefusedPrefix(nodes: map<string, Node>, versions: seq<Version>, n: nat)
    requires n <= |versions| && ApplyAll(nodes, versions[..n]) == None
    ensures ApplyAll(nodes, versions) == None
  {
    if n < |versions| {
      assert versions[..|versions| - 1][..n] == versions[..n];
      RefusedPrefix(nodes, versions[..|versions| - 1], n);
    } else {
      assert versions[..n] == versions;
    }
  }

  /** Applies the versions one after the other, up to the first that is refused. */
  method ApplyVersions(graph: Graph, versions: seq<Version>) returns (applied: bool)
    requires graph.Valid()
    modifies graph`nodes, graph`checkpoints
    ensures graph.Valid() && graph.checkpoints.Keys == old(graph.checkpoints).Keys
    ensures applied <==> ApplyAll(old(graph.nodes), versions).Some?
    ensures applied ==> graph.nodes == ApplyAll(old(graph.nodes), versions).value
  {
    for i := 0 to |versions|
      invariant graph.Valid() && graph.checkpoints.Keys == old(graph.checkpoints).Keys
      invariant ApplyAll(old(graph.nodes), versions[..i]) == Some(graph.nodes)
    {
      var r := graph.ApplyNodeVersion(versions[i].node, versions[i].verified);
      assert versions[..i + 1][..i] == versions[..i];
      if r.Refused? {
        RefusedPrefix(old(graph.nodes), versions, i + 1);
        return false;
      }
    }
    assert versions[..|versions|] == versions;
    return true;
  }

  lemma CloseUndoesOpen(taken: map<nat, Contents>, c: nat, contents: Contents)
    requires c !in taken
    ensures taken[c := contents] - {c} == taken
  {
  }

  /** `commit_node_versions`: all versions or none. `persisted` is whether the store takes them. */
  method CommitNodeVersions(graph: Graph, versions: seq<Version>, persisted: bool) returns (ok: bool)
    requires graph.Valid()
    modifies graph
    ensures graph.Valid() && graph.taken == old(graph.taken)
    ensures ok <==> versions == [] || (ApplyAll(old(graph.nodes), versions).Some? && persisted)
    ensures ok ==> graph.Now() == Contents(ApplyAll(old(graph.nodes), versions).value, old(graph.edges))
    ensures !ok ==> graph.Now() == old(graph.Now())
  {
    if versions == [] {
      return true;
    }
    var c := graph.Checkpoint();
    var applied := ApplyVersions(graph, versions);
    CloseUndoesOpen(old(graph.taken), c, old(graph.Now()));
    if applied && persisted {
      var done := graph.Commit(c);
      return true;
    }
    var undone := graph.Rollback(c);
    return false;
  }
}
