/** The deletions and supersessions of an import plan: every action ends in an edge from a replacement to its target,
    and deletions without a replacement share one tombstone for each external id. */
module ImportActions {
  import opened Common

  /** An action of a plan; `deletes` tells a deletion from a supersession. */
  datatype Action = Action(deletes: bool, target: string, key: Option<string>, external: string, at: int)

  datatype Tombstone = Tombstone(id: string, external: string, at: int, world: string)

  datatype Edge = Edge(from: string, to: string)

  /** What the actions meet: the ids of the nodes planned, by key, the world of each node there is, and the id a
      tombstone gets. No id is empty. */
  datatype Context = Context(planned: map<string, string>, world: string -> Option<string>,
                             mint: (string, int) -> string)

  datatype Failure = TargetMissing(target: string) | ReplacementMissing(external: string)

  datatype Outcome = Resolved(tombstones: seq<Tombstone>, edges: seq<Edge>) | Failed(failure: Failure)

  /** The planned node that an action names; an empty key names none. */
  function Keyed(c: Context, a: Action): Option<string> {
    if a.key.Some? && a.key.value != "" && a.key.value in c.planned then Some(c.planned[a.key.value]) else None
  }

  /** The end of an edge: a key of a planned node, or the id of a node. */
  function Endpoint(c: Context, name: string): string { if name in c.planned then c.planned[name] else name }

  predicate NeedsTombstone(c: Context, a: Action) { a.deletes && Keyed(c, a).None? }

  /** The first action before `n` that needs a tombstone for the external id, `n` if there is none. */
  function First(c: Context, actions: seq<Action>, external: string, n: nat): (i: nat)
    requires n <= |actions|
    ensures i <= n && (i < n ==> NeedsTombstone(c, actions[i]) && actions[i].external == external)
    ensures forall j :: 0 <= j < i ==> !(NeedsTombstone(c, actions[j]) && actions[j].external == external)
  {
    if n == 0 then 0
    else
      var i := First(c, actions, external, n - 1);
      if i < n - 1 || (NeedsTombstone(c, actions[n - 1]) && actions[n - 1].external == external) then i else n
  }

  /** The first action of its external id that needs a tombstone: it is the one that makes it. */
  predicate Makes(c: Context, actions: seq<Action>, i: nat)
    requires i < |actions|
  {
    NeedsTombstone(c, actions[i]) && First(c, actions, actions[i].external, i) == i
  }

  /** The node that replaces the target of action `i`: the planned one it names, or the tombstone of its external id. */
  function Replacement(c: Context, actions: seq<Action>, i: nat): string
    requires i < |actions|
  {
    if Keyed(c, actions[i]).Some? then Keyed(c, actions[i]).value
    else
      var first := First(c, actions, actions[i].external, i);
      c.mint(actions[i].external, actions[first].at)
  }

  /** Whether action `i` fails: a supersession without its node, or a deletion that has to make a tombstone where there
      is no target. */
  predicate Fails(c: Context, actions: seq<Action>, i: nat)
    requires i < |actions|
  {
    Keyed(c, actions[i]).None?
    && if actions[i].deletes then Makes(c, actions, i) && c.world(actions[i].target).None? else true
  }

  function EdgeOf(c: Context, actions: seq<Action>, i: nat): Edge
    requires i < |actions|
  {
    Edge(Endpoint(c, Replacement(c, actions, i)), Endpoint(c, actions[i].target))
  }

  function TombstoneOf(c: Context, a: Action): Tombstone
    requires c.world(a.target).Some?
  {
    Tombstone(c.mint(a.external, a.at), a.external, a.at, c.world(a.target).value)
  }

  function Edges(c: Context, actions: seq<Action>, n: nat): (edges: seq<Edge>)
    requires n <= |actions|
    ensures |edges| == n
    ensures forall i :: 0 <= i < n ==> edges[i] == EdgeOf(c, actions, i)
  {
    seq(n, i requires 0 <= i < n => EdgeOf(c, actions, i))
  }

  /** The tombstones of the first `n` actions. */
  function Tombstones(c: Context, actions: seq<Action>, n: nat): seq<Tombstone>
    requires n <= |actions|
  {
    if n == 0 then []
    else
      var a := actions[n - 1];
      Tombstones(c, actions, n - 1)
      + if Makes(c, actions, n - 1) && c.world(a.target).Some? then [TombstoneOf(c, a)] else []
  }

  /** What the loop has done: the tombstones by external id, and in order, and the edges. */
  datatype Progress = Progress(replacements: map<string, string>, tombstones: seq<Tombstone>, edges: seq<Edge>)

  ghost predicate Resolving(c: Context, actions: seq<Action>, p: Progress, n: nat)
    requires n <= |actions|
  {
    && AllFine(c, actions, n) && p.tombstones == Tombstones(c, actions, n) && p.edges == Edges(c, actions, n)
    && Remembers(c, actions, p.replacements, n)
  }

  /** The loop over the actions: it fails at the first action that does, and otherwise gives every action its edge. */
  method ResolveActions(c: Context, actions: seq<Action>) returns (r: Outcome)
    ensures r.Resolved? <==> AllFine(c, actions, |actions|)
    ensures r.Resolved? ==> r == Resolved(Tombstones(c, actions, |actions|), Edges(c, actions, |actions|))
  {
    var p := Progress(map[], [], []);
    for i := 0 to |actions|
      invariant Resolving(c, actions, p, i)
    {
      var next, failure := TakeAction(c, actions, i, p);
      if failure.Some? {
        return Failed(failure.value);
      }
      p := next;
    }
    r := Resolved(p.tombstones, p.edges);
  }

  method TakeAction(c: Context, actions: seq<Action>, i: nat, p: Progress)
    returns (next: Progress, failed: Option<Failure>)
    requires i < |actions| && Resolving(c, actions, p, i)
    ensures failed.Some? <==> Fails(c, actions, i)
    ensures failed.None? ==> Resolving(c, actions, next, i + 1)
  {
    var replacement, made, failure := FindReplacement(c, actions, i, p.replacements);
    if replacement.None? {
      return p, Some(failure);
    }
    failed := None;
    var edge := Edge(Endpoint(c, replacement.value), Endpoint(c, actions[i].target));
    if made.Some? {
      TakenWithTombstone(c, actions, i, p);
      next := Progress(p.replacements[made.value.external := made.value.id], p.tombstones + [made.value],
                       p.edges + [edge]);
    } else {
      TakenWithout(c, actions, i, p);
      next := p.(edges := p.edges + [edge]);
    }
  }

  lemma TakenWithTombstone(c: Context, actions: seq<Action>, i: nat, p: Progress)
    requires i < |actions| && Resolving(c, actions, p, i) && !Fails(c, actions, i) && Makes(c, actions, i)
    ensures var made := TombstoneOf(c, actions[i]);
            Resolving(c, actions,
                      Progress(p.replacements[made.external := made.id], p.tombstones + [made],
                               p.edges + [EdgeOf(c, actions, i)]), i + 1)
  {
    EdgesStep(c, actions, i);
    FineStep(c, actions, i);
    RemembersNew(c, actions, p.replacements, i);
  }

  lemma TakenWithout(c: Context, actions: seq<Action>, i: nat, p: Progress)
    requires i < |actions| && Resolving(c, actions, p, i) && !Fails(c, actions, i) && !Makes(c, actions, i)
    ensures Resolving(c, actions, p.(edges := p.edges + [EdgeOf(c, actions, i)]), i + 1)
  {
    EdgesStep(c, actions, i);
    FineStep(c, actions, i);
    RemembersOld(c, actions, p.replacements, i);
    assert Tombstones(c, actions, i + 1) == Tombstones(c, actions, i) + [];
  }

  /** What replaces the target of action `i`, and the tombstone made for it, if one is. */
  method FindReplacement(c: Context, actions: seq<Action>, i: nat, replacements: map<string, string>)
    returns (replacement: Option<string>, made: Option<Tombstone>, failure: Failure)
    requires i < |actions| && Remembers(c, actions, replacements, i)
    ensures replacement == if Fails(c, actions, i) then None else Some(Replacement(c, actions, i))
    ensures made.Some? <==> Makes(c, actions, i) && !Fails(c, actions, i)
    ensures made.Some? ==> var a := actions[i];
              c.world(a.target).Some? && made.value == TombstoneOf(c, a)
  {
    var a := actions[i];
    replacement, made, failure := Keyed(c, a), None, ReplacementMissing(a.external);
    MakesIs(c, actions, i);
    assert a.external in replacements <==> First(c, actions, a.external, i) < i;
    if replacement.None? && a.deletes && a.external in replacements {
      replacement := Some(replacements[a.external]);
    }
    if replacement.None? && a.deletes {
      if c.world(a.target).None? {
        failure := TargetMissing(a.target);
        return;
      }
      made := Some(TombstoneOf(c, a));
      replacement := Some(made.value.id);
    }
  }

  lemma MakesIs(c: Context, actions: seq<Action>, i: nat)
    requires i < |actions|
    ensures Makes(c, actions, i) <==> NeedsTombstone(c, actions[i]) && First(c, actions, actions[i].external, i) == i
  {
  }

  lemma EdgesStep(c: Context, actions: seq<Action>, i: nat)
    requires i < |actions|
    ensures Edges(c, actions, i + 1) == Edges(c, actions, i) + [EdgeOf(c, actions, i)]
  {
  }

  /** None of the first `n` actions fails. */
  ghost predicate AllFine(c: Context, actions: seq<Action>, n: nat)
    requires n <= |actions|
  {
    forall i :: 0 <= i < n ==> !Fails(c, actions, i)
  }

  lemma FineStep(c: Context, actions: seq<Action>, i: nat)
    requires i < |actions| && AllFine(c, actions, i) && !Fails(c, actions, i)
    ensures AllFine(c, actions, i + 1)
  {
  }

  lemma RemembersNew(c: Context, actions: seq<Action>, replacements: map<string, string>, i: nat)
    requires i < |actions| && Remembers(c, actions, replacements, i) && Makes(c, actions, i)
    ensures Remembers(c, actions, replacements[actions[i].external := c.mint(actions[i].external, actions[i].at)],
                      i + 1)
  {
  }

  lemma RemembersOld(c: Context, actions: seq<Action>, replacements: map<string, string>, i: nat)
    requires i < |actions| && Remembers(c, actions, replacements, i) && !Makes(c, actions, i)
    ensures Remembers(c, actions, replacements, i + 1)
  {
  }

  /** The tombstones made so far, by external id. */
  ghost predicate Remembers(c: Context, actions: seq<Action>, replacements: map<string, string>, n: nat)
    requires n <= |actions|
  {
    forall external ::
      && (external in replacements <==> First(c, actions, external, n) < n)
      && (external in replacements ==>
          replacements[external] == c.mint(external, actions[First(c, actions, external, n)].at))
  }

  // ---------------------------------------------------------------- one tombstone for each external id

  lemma {:induction false} TombstonesAre(c: Context, actions: seq<Action>, n: nat)
    requires n <= |actions| && AllFine(c, actions, n)
    ensures forall i, j :: 0 <= i < j < |Tombstones(c, actions, n)| ==>
              Tombstones(c, actions, n)[i].external != Tombstones(c, actions, n)[j].external
    ensures forall external :: HasTombstone(Tombstones(c, actions, n), external) <==> First(c, actions, external, n) < n
  {
    if n > 0 {
      TombstonesAre(c, actions, n - 1);
      var prior, all := Tombstones(c, actions, n - 1), Tombstones(c, actions, n);
      forall external
        ensures HasTombstone(all, external) <==> First(c, actions, external, n) < n
      {
        assert !Fails(c, actions, n - 1);
        if Makes(c, actions, n - 1) && external == actions[n - 1].external {
          assert all[|prior|].external == external;
        } else {
          assert forall i :: 0 <= i < |prior| ==> all[i] == prior[i];
        }
      }
    }
  }

  ghost predicate HasTombstone(tombstones: seq<Tombstone>, external: string) {
    exists i :: 0 <= i < |tombstones| && tombstones[i].external == external
  }

  /** Actions that resolve leave exactly one tombstone for every external id with a deletion that names no planned node,
      and none for any other. */
  lemma OneTombstonePerExternalId(c: Context, actions: seq<Action>)
    requires AllFine(c, actions, |actions|)
    ensures var tombstones := Tombstones(c, actions, |actions|);
            && (forall i, j :: 0 <= i < j < |tombstones| ==> tombstones[i].external != tombstones[j].external)
            && forall external ::
                 HasTombstone(tombstones, external)
                 <==> exists i :: 0 <= i < |actions| && actions[i].external == external && actions[i].deletes
                                  && !NamesPlanned(c, actions[i])
  {
    TombstonesAre(c, actions, |actions|);
    forall external
      ensures First(c, actions, external, |actions|) < |actions|
         <==> exists i :: 0 <= i < |actions| && actions[i].external == external && actions[i].deletes
                          && !NamesPlanned(c, actions[i])
    {
      if i :| 0 <= i < |actions| && actions[i].external == external && actions[i].deletes
              && !NamesPlanned(c, actions[i]) {
        assert NeedsTombstone(c, actions[i]);
      }
    }
  }

  /** The action names a planned node, by a key that is not empty. */
  ghost predicate NamesPlanned(c: Context, a: Action) {
    exists key :: a.key == Some(key) && key != "" && key in c.planned
  }

  lemma {:induction false} MadeIsThere(c: Context, actions: seq<Action>, i: nat, n: nat)
    requires i < n <= |actions| && Makes(c, actions, i) && c.world(actions[i].target).Some?
    ensures TombstoneOf(c, actions[i]) in Tombstones(c, actions, n)
  {
    if i < n - 1 {
      MadeIsThere(c, actions, i, n - 1);
    }
  }

  /** What stands for the target of an action: the planned node it names, or the tombstone of its external id. */
  ghost predicate StandsFor(c: Context, actions: seq<Action>, i: nat, id: string)
    requires i < |actions|
  {
    if NamesPlanned(c, actions[i]) then id == c.planned[actions[i].key.value]
    else exists t :: t in Tombstones(c, actions, |actions|) && t.external == actions[i].external && t.id == id
  }

  /** Actions that resolve leave one edge each: from what stands for the target to the target, and where an end is the
      key of a planned node, that node. */
  lemma EdgesAre(c: Context, actions: seq<Action>, i: nat)
    requires AllFine(c, actions, |actions|) && i < |actions|
    ensures var edges, a := Edges(c, actions, |actions|), actions[i];
            && |edges| == |actions|
            && (a.target in c.planned ==> edges[i].to == c.planned[a.target])
            && (a.target !in c.planned ==> edges[i].to == a.target)
            && exists id :: StandsFor(c, actions, i, id)
                            && edges[i].from == if id in c.planned then c.planned[id] else id
  {
    var a, id := actions[i], Replacement(c, actions, i);
    assert !Fails(c, actions, i);
    if NamesPlanned(c, a) {
      assert StandsFor(c, actions, i, id);
    } else {
      assert NeedsTombstone(c, a);
      var first := First(c, actions, a.external, i);
      FirstMakes(c, actions, a.external, i);
      assert !Fails(c, actions, first);
      MadeIsThere(c, actions, first, |actions|);
      assert StandsFor(c, actions, i, id);
    }
  }

  /** The first action that needs a tombstone of its external id, up to one that does, is the one that makes it. */
  lemma FirstMakes(c: Context, actions: seq<Action>, external: string, i: nat)
    requires i < |actions| && NeedsTombstone(c, actions[i]) && actions[i].external == external
    ensures var first := First(c, actions, external, i); Makes(c, actions, first)
  {
    var first := First(c, actions, external, i);
    if First(c, actions, external, first) < first {
      assert false;
    }
  }

  // ---------------------------------------------------------------- the plans of one item

  /** `deletion_plan`: a deletion for every node the item had before. */
  function DeletionPlan(prior: seq<string>, external: string, at: int): (actions: seq<Action>)
    ensures |actions| == |prior|
    ensures forall i :: 0 <= i < |prior| ==> actions[i] == Action(true, prior[i], None, external, at)
  {
    seq(|prior|, i requires 0 <= i < |prior| => Action(true, prior[i], None, external, at))
  }

  /** `add_update_actions`: a supersession by the root node for every node the item had before. */
  function UpdatePlan(prior: seq<string>, key: string, external: string, at: int): (actions: seq<Action>)
    ensures |actions| == |prior|
    ensures forall i :: 0 <= i < |prior| ==> actions[i] == Action(false, prior[i], Some(key), external, at)
  {
    seq(|prior|, i requires 0 <= i < |prior| => Action(false, prior[i], Some(key), external, at))
  }

  lemma {:induction false} DeletionTombstones(c: Context, prior: seq<string>, external: string, at: int, n: nat)
    requires 0 < n <= |prior| && c.world(prior[0]).Some?
    ensures First(c, DeletionPlan(prior, external, at), external, n) == 0
    ensures Tombstones(c, DeletionPlan(prior, external, at), n)
         == [Tombstone(c.mint(external, at), external, at, c.world(prior[0]).value)]
  {
    var actions := DeletionPlan(prior, external, at);
    assert NeedsTombstone(c, actions[0]) && First(c, actions, external, 0) == 0;
    if n > 1 {
      DeletionTombstones(c, prior, external, at, n - 1);
    } else {
      assert Tombstones(c, actions, 0) == [];
    }
  }

  /** A deletion plan resolves exactly when the first prior node is still there, or there is none. It then leaves one
      tombstone, in the world of that node, which supersedes every prior node. */
  lemma DeletionLeavesOneTombstone(c: Context, prior: seq<string>, external: string, at: int)
    requires forall id :: id in prior ==> id !in c.planned
    requires c.mint(external, at) !in c.planned
    ensures var actions := DeletionPlan(prior, external, at);
            AllFine(c, actions, |actions|) <==> prior == [] || c.world(prior[0]).Some?
    ensures prior != [] && c.world(prior[0]).Some? ==>
              var actions := DeletionPlan(prior, external, at);
              && Tombstones(c, actions, |prior|)
                  == [Tombstone(c.mint(external, at), external, at, c.world(prior[0]).value)]
              && forall i :: 0 <= i < |prior| ==> Edges(c, actions, |prior|)[i] == Edge(c.mint(external, at), prior[i])
  {
    var actions := DeletionPlan(prior, external, at);
    if prior != [] {
      assert Makes(c, actions, 0);
      if c.world(prior[0]).None? {
        assert Fails(c, actions, 0);
      } else {
        DeletionTombstones(c, prior, external, at, |prior|);
        forall i | 0 < i < |prior|
          ensures First(c, actions, external, i) == 0
        {
          DeletionTombstones(c, prior, external, at, i);
        }
      }
    }
  }

  /** An update plan resolves exactly when its root node is planned, or there is nothing to supersede. It then leaves no
      tombstone, and the root node supersedes every prior node. */
  lemma UpdateSupersedesAll(c: Context, prior: seq<string>, key: string, external: string, at: int)
    requires forall id :: id in prior ==> id !in c.planned
    requires key != "" && (key in c.planned ==> c.planned[key] !in c.planned)
    ensures var actions := UpdatePlan(prior, key, external, at);
            AllFine(c, actions, |actions|) <==> prior == [] || key in c.planned
    ensures key in c.planned ==>
              var actions := UpdatePlan(prior, key, external, at);
              && Tombstones(c, actions, |prior|) == []
              && forall i :: 0 <= i < |prior| ==> Edges(c, actions, |prior|)[i] == Edge(c.planned[key], prior[i])
  {
    var actions := UpdatePlan(prior, key, external, at);
    NoTombstones(c, actions, |prior|);
    if prior != [] && key !in c.planned {
      assert Fails(c, actions, 0);
    }
  }

  lemma {:induction false} NoTombstones(c: Context, actions: seq<Action>, n: nat)
    requires n <= |actions| && forall i :: 0 <= i < n ==> !NeedsTombstone(c, actions[i])
    ensures Tombstones(c, actions, n) == []
  {
    if n > 0 {
      NoTombstones(c, actions, n - 1);
    }
  }
}
