/** Creating the worlds of an import plan: the worklist that puts every world after its parent. */
module ImportWorlds {
  import opened Common

  /** A world of the plan; `parentKey` names another planned world, `parentWorldId` one that exists already. */
  datatype PlannedWorld = PlannedWorld(key: string, name: string, parentKey: Option<string>,
                                       parentWorldId: Option<string>, at: int)

  /** A stored world; `connectorKey` is the planned key under which this connector created it, if it did. */
  datatype World = World(id: string, parent: Option<string>, connectorKey: Option<string>)

  datatype Outcome =
    | Created(worlds: seq<World>, ids: map<string, string>)
    | NoRoot
    | UnresolvedOrCyclic
    | UnknownParent(key: string, parent: string)

  /** The id a new world gets from its name, its parent and its time of creation. */
  type Mint = (string, string, int) -> string

  // ---------------------------------------------------------------- the stored worlds

  predicate HasId(worlds: seq<World>, id: string) {
    exists i :: 0 <= i < |worlds| && worlds[i].id == id
  }

  /** The first world created under `key`. */
  function FindKey(worlds: seq<World>, key: string): (r: Option<string>)
    ensures r == None <==> forall i :: 0 <= i < |worlds| ==> worlds[i].connectorKey != Some(key)
    ensures r.Some? ==> HasId(worlds, r.value)
  {
    if worlds == [] then None
    else if worlds[0].connectorKey == Some(key) then Some(worlds[0].id)
    else
      var r := FindKey(worlds[1..], key);
      assert forall i :: 0 <= i < |worlds[1..]| ==> worlds[1..][i] == worlds[i + 1];
      r
  }

  function FindRoot(worlds: seq<World>): Option<string> {
    if worlds == [] then None
    else if worlds[0].parent == None then Some(worlds[0].id)
    else FindRoot(worlds[1..])
  }

  // ---------------------------------------------------------------- what the plan asks for

  /** The chain of planned parents of `world` ends within `n` steps. */
  ghost predicate GroundedIn(plan: seq<PlannedWorld>, world: PlannedWorld, n: nat)
    decreases n
  {
    world.parentKey == None
    || (n > 0 && exists parent :: parent in plan && world.parentKey == Some(parent.key)
                                  && GroundedIn(plan, parent, n - 1))
  }

  ghost predicate Grounded(plan: seq<PlannedWorld>, world: PlannedWorld) {
    exists n: nat :: GroundedIn(plan, world, n)
  }

  /** The id of the world that `world` is created under: an empty parent key counts as none here. */
  function ParentId(world: PlannedWorld, ids: map<string, string>, root: string): string
    requires world.parentKey.Some? ==> world.parentKey.value in ids
  {
    if world.parentKey.Some? && world.parentKey.value != "" then ids[world.parentKey.value]
    else world.parentWorldId.GetOr(root)
  }

  /** The worlds whose parent has an id can be created. */
  predicate Ready(world: PlannedWorld, ids: map<string, string>) {
    world.parentKey == None || world.parentKey.value in ids
  }

  /** `ids` gives every planned world the id of the world its connector has created under that key before, or else the
      id minted from its name, time and parent. */
  ghost predicate Solves(plan: seq<PlannedWorld>, worlds: seq<World>, mint: Mint, root: string,
                         ids: map<string, string>) {
    forall w :: w in plan ==> SolvesAt(w, worlds, mint, root, ids)
  }

  ghost predicate SolvesAt(w: PlannedWorld, worlds: seq<World>, mint: Mint, root: string, ids: map<string, string>) {
    && w.key in ids && Ready(w, ids)
    && ids[w.key] == FindKey(worlds, w.key).GetOr(mint(w.name, ParentId(w, ids, root), w.at))
  }

  /** No stored world carries the key. */
  ghost predicate IsNew(w: PlannedWorld, worlds: seq<World>) {
    forall i :: 0 <= i < |worlds| ==> worlds[i].connectorKey != Some(w.key)
  }

  ghost predicate FirstWithKey(worlds: seq<World>, i: int, key: string) {
    && 0 <= i < |worlds| && worlds[i].connectorKey == Some(key)
    && forall j :: 0 <= j < i ==> worlds[j].connectorKey != Some(key)
  }

  ghost predicate FirstRoot(worlds: seq<World>, i: int) {
    0 <= i < |worlds| && worlds[i].parent == None && forall j :: 0 <= j < i ==> worlds[j].parent.Some?
  }

  /** `parent` is the world that `w` names: a planned one by its key, a stored one by its id, or else the first root. */
  ghost predicate Names(w: PlannedWorld, worlds: seq<World>, ids: map<string, string>, parent: string) {
    if exists key :: w.parentKey == Some(key) && key != "" then
      exists key :: w.parentKey == Some(key) && key in ids && parent == ids[key]
    else if w.parentWorldId.Some? then w.parentWorldId == Some(parent)
    else exists i :: FirstRoot(worlds, i) && parent == worlds[i].id
  }

  /** The id of a planned world: that of the first stored world with its key, or else the one minted from its name, its
      time and the world it names. */
  ghost predicate IdIs(w: PlannedWorld, worlds: seq<World>, mint: Mint, ids: map<string, string>) {
    && w.key in ids
    && (IsNew(w, worlds) ==> exists parent :: Names(w, worlds, ids, parent) && ids[w.key] == mint(w.name, parent, w.at))
    && (!IsNew(w, worlds) ==> exists i :: FirstWithKey(worlds, i, w.key) && ids[w.key] == worlds[i].id)
  }

  /** The world is stored, for this plan, and under the world it names. */
  ghost predicate HangsWhereNamed(w: PlannedWorld, worlds: seq<World>, stored: seq<World>, ids: map<string, string>) {
    w.key in ids && exists parent :: Names(w, worlds, ids, parent) && HangsUnder(stored, ids[w.key], parent)
  }

  /** The plan names a parent by an id that no stored world has. */
  ghost predicate NamesMissing(plan: seq<PlannedWorld>, worlds: seq<World>, key: string, parent: string) {
    exists w :: w in plan && w.key == key && w.parentWorldId == Some(parent) && !HasId(worlds, parent)
  }

  lemma {:induction false} RootIsFirst(worlds: seq<World>)
    ensures FindRoot(worlds).None? <==> forall i :: 0 <= i < |worlds| ==> worlds[i].parent.Some?
    ensures FindRoot(worlds).Some? ==> exists i :: FirstRoot(worlds, i) && FindRoot(worlds).value == worlds[i].id
  {
    if worlds != [] {
      RootIsFirst(worlds[1..]);
      assert forall i :: 0 <= i < |worlds[1..]| ==> worlds[1..][i] == worlds[i + 1];
      if worlds[0].parent == None {
        assert FirstRoot(worlds, 0);
      } else if i :| FirstRoot(worlds[1..], i) && FindRoot(worlds[1..]).value == worlds[1..][i].id {
        assert FirstRoot(worlds, i + 1);
      }
    }
  }

  lemma {:induction false} KeyIsFirst(worlds: seq<World>, key: string)
    ensures FindKey(worlds, key).Some? ==>
              exists i :: FirstWithKey(worlds, i, key) && FindKey(worlds, key).value == worlds[i].id
  {
    if worlds != [] {
      KeyIsFirst(worlds[1..], key);
      assert forall i :: 0 <= i < |worlds[1..]| ==> worlds[1..][i] == worlds[i + 1];
      if worlds[0].connectorKey == Some(key) {
        assert FirstWithKey(worlds, 0, key);
      } else if i :| FirstWithKey(worlds[1..], i, key) && FindKey(worlds[1..], key).value == worlds[1..][i].id {
        assert FirstWithKey(worlds, i + 1, key);
      }
    }
  }

  lemma ParentIsNamed(w: PlannedWorld, worlds: seq<World>, ids: map<string, string>, root: string)
    requires Ready(w, ids) && FindRoot(worlds) == Some(root)
    ensures Names(w, worlds, ids, ParentId(w, ids, root))
  {
    RootIsFirst(worlds);
  }

  lemma SolvedIds(plan: seq<PlannedWorld>, worlds: seq<World>, mint: Mint, root: string, ids: map<string, string>)
    requires Solves(plan, worlds, mint, root, ids) && FindRoot(worlds) == Some(root)
    ensures forall w :: w in plan ==> IdIs(w, worlds, mint, ids)
  {
    forall w | w in plan
      ensures IdIs(w, worlds, mint, ids)
    {
      assert SolvesAt(w, worlds, mint, root, ids);
      ParentIsNamed(w, worlds, ids, root);
      KeyIsFirst(worlds, w.key);
    }
  }

  // ---------------------------------------------------------------- the worklist

  /** Every world of `order` has its parent's key among the keys of the worlds before it. */
  ghost predicate ParentsFirst(order: seq<PlannedWorld>) {
    forall i :: 0 <= i < |order| && order[i].parentKey.Some? ==>
      exists j :: 0 <= j < i && order[j].key == order[i].parentKey.value
  }

  /** `ids` has exactly the keys of `order`. */
  ghost predicate KeysOf(ids: map<string, string>, order: seq<PlannedWorld>) {
    && (forall w :: w in order ==> w.key in ids)
    && (forall key :: key in ids ==> exists w :: w in order && w.key == key)
  }

  /** Parent worlds that the plan names by id exist. */
  predicate Fits(plan: seq<PlannedWorld>, worlds: seq<World>) {
    forall w :: w in plan && w.parentWorldId.Some? ==> HasId(worlds, w.parentWorldId.value)
  }

  function FirstReady(pending: seq<PlannedWorld>, ids: map<string, string>, from: nat): (next: int)
    requires from <= |pending|
    ensures -1 <= next < |pending|
    ensures next >= 0 ==> Ready(pending[next], ids)
    ensures next < 0 ==> forall i :: from <= i < |pending| ==> !Ready(pending[i], ids)
    decreases |pending| - from
  {
    if from == |pending| then -1 else if Ready(pending[from], ids) then from else FirstReady(pending, ids, from + 1)
  }

  /** `Map.set`: an id that is already there keeps its place. */
  function Put(worlds: seq<World>, world: World): seq<World> {
    if worlds == [] then [world]
    else if worlds[0].id == world.id then [world] + worlds[1..]
    else [worlds[0]] + Put(worlds[1..], world)
  }

  /** One round of the loop for a world that is ready: the stored worlds and the id of its world. */
  function CreateOne(stored: seq<World>, ids: map<string, string>, world: PlannedWorld, root: string,
                     mint: Mint): (seq<World>, string)
    requires Ready(world, ids)
  {
    var parent := ParentId(world, ids, root);
    match FindKey(stored, world.key)
    case Some(id) => (stored, id)
    case None =>
      var id := mint(world.name, parent, world.at);
      (Put(stored, World(id, Some(parent), Some(world.key))), id)
  }

  method CreateWorlds(plan: seq<PlannedWorld>, worlds: seq<World>, mint: Mint)
    returns (outcome: Outcome, order: seq<PlannedWorld>)
    ensures ParentsFirst(order)
    ensures outcome.NoRoot? <==> FindRoot(worlds) == None
    ensures outcome.NoRoot? <==> forall i :: 0 <= i < |worlds| ==> worlds[i].parent.Some?
    ensures outcome.UnknownParent? ==> NamesMissing(plan, worlds, outcome.key, outcome.parent)
    ensures outcome.Created? ==> Complete(plan, order, outcome.ids)
    ensures outcome.UnresolvedOrCyclic? ==> exists w :: w in plan && !Grounded(plan, w)
    ensures FindRoot(worlds).Some? && Fits(plan, worlds) ==>
      (outcome.UnresolvedOrCyclic? <==> exists w :: w in plan && !Grounded(plan, w)) && !outcome.UnknownParent?
    ensures outcome.Created? && DistinctKeys(plan) && MintsNew(plan, worlds, mint) ==>
      Solves(plan, worlds, mint, FindRoot(worlds).value, outcome.ids)
    ensures outcome.Created? && DistinctKeys(plan) && MintsNew(plan, worlds, mint) ==>
      forall w :: w in plan ==> IdIs(w, worlds, mint, outcome.ids)
    ensures outcome.Created? && DistinctKeys(plan) && MintsNew(plan, worlds, mint) && MintSeparatesParents(mint) ==>
      forall w :: w in plan && IsNew(w, worlds) ==> HangsWhereNamed(w, worlds, outcome.worlds, outcome.ids)
    ensures outcome.Created? ==> Grows(plan, worlds, outcome.worlds, mint)
  {
    order := [];
    var root := FindRoot(worlds);
    RootIsFirst(worlds);
    if root == None {
      return NoRoot, order;
    }
    RootIsStored(worlds);
    var ids: map<string, string> := map[];
    var stored := worlds;
    var pending := plan;
    while |pending| > 0
      invariant Sorted(plan, order, pending, ids)
      invariant Stored(worlds, stored, ids, root.value)
      invariant DistinctKeys(plan) && MintsNew(plan, worlds, mint) ==>
                  Solved(worlds, stored, order, pending, mint, root.value, ids)
      invariant AddedByMint(worlds, stored, mint) && Grows(plan, worlds, stored, mint)
      decreases |pending|
    {
      var next := FirstReady(pending, ids, 0);
      if next < 0 {
        StuckMeansUngrounded(plan, order, pending, ids);
        return UnresolvedOrCyclic, order;
      }
      var world := pending[next];
      var parent := ParentId(world, ids, root.value);
      if !HasId(stored, parent) {
        NamedParentIsStored(plan, worlds, order, pending, stored, ids, root.value, next);
        return UnknownParent(world.key, parent), order;
      }
      RoundKeepsSorted(plan, order, pending, ids, next, CreateOne(stored, ids, world, root.value, mint).1);
      RoundKeepsStored(worlds, stored, ids, root.value, world, mint);
      if DistinctKeys(plan) && MintsNew(plan, worlds, mint) {
        RoundKeepsSolved(plan, worlds, stored, order, pending, mint, root.value, ids, next);
      }
      RoundKeepsAdded(worlds, stored, ids, root.value, world, mint);
      PlanSplits(plan, order, pending, world);
      RoundGrows(plan, worlds, stored, ids, root.value, world, mint);
      var made := CreateOne(stored, ids, world, root.value, mint);
      stored := made.0;
      pending := pending[..next] + pending[next + 1..];
      ids := ids[world.key := made.1];
      order := order + [world];
    }
    Finished(plan, order, ids);
    if DistinctKeys(plan) && MintsNew(plan, worlds, mint) {
      FinishedSolves(plan, worlds, stored, order, mint, root.value, ids);
      SolvedIds(plan, worlds, mint, root.value, ids);
      if MintSeparatesParents(mint) {
        FinishedParented(plan, worlds, stored, mint, root.value, ids);
      }
    }
    outcome := Created(stored, ids);
  }

  // ---------------------------------------------------------------- soundness and completeness of the order

  /** The worlds done and the worlds pending make up the plan, parents came first, and what is done is grounded. */
  ghost predicate Sorted(plan: seq<PlannedWorld>, order: seq<PlannedWorld>, pending: seq<PlannedWorld>,
                         ids: map<string, string>) {
    && multiset(order) + multiset(pending) == multiset(plan)
    && ParentsFirst(order) && KeysOf(ids, order)
    && (forall w :: w in order ==> Grounded(plan, w))
  }

  /** Every planned world was created once and all of them are grounded. */
  ghost predicate Complete(plan: seq<PlannedWorld>, order: seq<PlannedWorld>, ids: map<string, string>) {
    && multiset(order) == multiset(plan) && KeysOf(ids, plan)
    && (forall w :: w in plan ==> Grounded(plan, w))
  }

  lemma Finished(plan: seq<PlannedWorld>, order: seq<PlannedWorld>, ids: map<string, string>)
    requires Sorted(plan, order, [], ids)
    ensures Complete(plan, order, ids)
  {
    assert multiset(order) == multiset(order) + multiset([]);
    SameMembers(order, plan);
  }

  lemma FinishedSolves(plan: seq<PlannedWorld>, worlds: seq<World>, stored: seq<World>, order: seq<PlannedWorld>,
                       mint: Mint, root: string, ids: map<string, string>)
    requires multiset(order) == multiset(plan) && Solved(worlds, stored, order, [], mint, root, ids)
    ensures Solves(plan, worlds, mint, root, ids)
  {
    SameMembers(order, plan);
  }

  lemma PlanSplits(plan: seq<PlannedWorld>, order: seq<PlannedWorld>, pending: seq<PlannedWorld>, w: PlannedWorld)
    requires multiset(order) + multiset(pending) == multiset(plan)
    ensures w in plan <==> w in order || w in pending
  {
    assert w in plan <==> w in multiset(plan);
    assert w in order <==> w in multiset(order);
    assert w in pending <==> w in multiset(pending);
  }

  lemma ParentGroundsChild(plan: seq<PlannedWorld>, parent: PlannedWorld, w: PlannedWorld)
    requires parent in plan && Grounded(plan, parent) && w.parentKey == Some(parent.key)
    ensures Grounded(plan, w)
  {
    var n: nat :| GroundedIn(plan, parent, n);
    assert GroundedIn(plan, w, n + 1);
  }

  lemma RoundKeepsSorted(plan: seq<PlannedWorld>, order: seq<PlannedWorld>, pending: seq<PlannedWorld>,
                         ids: map<string, string>, next: nat, id: string)
    requires Sorted(plan, order, pending, ids) && next < |pending| && Ready(pending[next], ids)
    ensures Sorted(plan, order + [pending[next]], pending[..next] + pending[next + 1..], ids[pending[next].key := id])
  {
    var w := pending[next];
    assert pending == pending[..next] + [w] + pending[next + 1..];
    PlanSplits(plan, order, pending, w);
    if w.parentKey.Some? {
      var parent :| parent in order && parent.key == w.parentKey.value;
      PlanSplits(plan, order, pending, parent);
      ParentGroundsChild(plan, parent, w);
      var j :| 0 <= j < |order| && order[j] == parent;
      assert (order + [w])[j].key == w.parentKey.value;
    } else {
      assert GroundedIn(plan, w, 0);
    }
    ParentsFirstStep(order, w);
    assert forall v :: v in order + [w] <==> v in order || v == w;
  }

  lemma ParentsFirstStep(order: seq<PlannedWorld>, w: PlannedWorld)
    requires ParentsFirst(order)
    requires w.parentKey.Some? ==> exists j :: 0 <= j < |order| && order[j].key == w.parentKey.value
    ensures ParentsFirst(order + [w])
  {
    var longer := order + [w];
    forall i | 0 <= i < |longer| && longer[i].parentKey.Some?
      ensures exists j :: 0 <= j < i && longer[j].key == longer[i].parentKey.value
    {
      var j :| 0 <= j < i && order[j].key == longer[i].parentKey.value;
      assert longer[j] == order[j];
    }
  }

  /** When no pending world is ready, none of them is grounded. */
  lemma {:induction false} StuckIsUngrounded(plan: seq<PlannedWorld>, order: seq<PlannedWorld>,
                                             pending: seq<PlannedWorld>,
                                             ids: map<string, string>, w: PlannedWorld, n: nat)
    requires Sorted(plan, order, pending, ids) && w in pending
    requires forall i :: 0 <= i < |pending| ==> !Ready(pending[i], ids)
    ensures !GroundedIn(plan, w, n)
    decreases n
  {
    if GroundedIn(plan, w, n) && w.parentKey.Some? {
      var parent :| parent in plan && w.parentKey == Some(parent.key) && GroundedIn(plan, parent, n - 1);
      PlanSplits(plan, order, pending, parent);
      if parent in pending {
        StuckIsUngrounded(plan, order, pending, ids, parent, n - 1);
      }
    }
  }

  lemma StuckMeansUngrounded(plan: seq<PlannedWorld>, order: seq<PlannedWorld>, pending: seq<PlannedWorld>,
                             ids: map<string, string>)
    requires Sorted(plan, order, pending, ids) && pending != []
    requires forall i :: 0 <= i < |pending| ==> !Ready(pending[i], ids)
    ensures exists w :: w in plan && !Grounded(plan, w)
  {
    var w := pending[0];
    PlanSplits(plan, order, pending, w);
    forall n: nat
      ensures !GroundedIn(plan, w, n)
    {
      StuckIsUngrounded(plan, order, pending, ids, w, n);
    }
  }

  // ---------------------------------------------------------------- the stored worlds only grow

  ghost predicate Stored(worlds: seq<World>, stored: seq<World>, ids: map<string, string>, root: string) {
    && HasId(stored, root)
    && (forall id :: HasId(worlds, id) ==> HasId(stored, id))
    && (forall key :: key in ids ==> HasId(stored, ids[key]))
  }

  lemma {:induction false} RootIsStored(worlds: seq<World>)
    ensures FindRoot(worlds).Some? ==> HasId(worlds, FindRoot(worlds).value)
  {
    if worlds != [] {
      RootIsStored(worlds[1..]);
      assert forall i :: 0 <= i < |worlds[1..]| ==> worlds[1..][i] == worlds[i + 1];
      assert worlds[0].id == worlds[0].id;
    }
  }

  lemma {:induction false} PutKeepsIds(worlds: seq<World>, world: World, id: string)
    ensures HasId(Put(worlds, world), id) <==> HasId(worlds, id) || id == world.id
  {
    var put := Put(worlds, world);
    if worlds == [] {
      assert put[0] == world;
    } else if worlds[0].id == world.id {
      assert put[0] == world;
      assert forall i :: 0 < i < |worlds| ==> put[i] == worlds[i];
      if HasId(worlds, id) {
        var i :| 0 <= i < |worlds| && worlds[i].id == id;
        assert put[i].id == id;
      }
    } else {
      PutKeepsIds(worlds[1..], world, id);
      assert forall i :: 0 <= i < |worlds[1..]| ==> worlds[1..][i] == worlds[i + 1];
      assert forall i :: 0 <= i < |put[1..]| ==> put[1..][i] == put[i + 1];
      assert put[0] == worlds[0] && put[1..] == Put(worlds[1..], world);
    }
  }

  lemma RoundKeepsStored(worlds: seq<World>, stored: seq<World>, ids: map<string, string>, root: string,
                         world: PlannedWorld, mint: Mint)
    requires Stored(worlds, stored, ids, root) && Ready(world, ids)
    ensures var (stored', id) := CreateOne(stored, ids, world, root, mint);
            Stored(worlds, stored', ids[world.key := id], root)
  {
    var parent := ParentId(world, ids, root);
    var made := World(mint(world.name, parent, world.at), Some(parent), Some(world.key));
    forall id
      ensures HasId(Put(stored, made), id) <==> HasId(stored, id) || id == made.id
    {
      PutKeepsIds(stored, made, id);
    }
  }

  lemma NamedParentIsStored(plan: seq<PlannedWorld>, worlds: seq<World>, order: seq<PlannedWorld>,
                            pending: seq<PlannedWorld>,
                            stored: seq<World>, ids: map<string, string>, root: string, next: nat)
    requires Sorted(plan, order, pending, ids) && Stored(worlds, stored, ids, root)
    requires next < |pending| && Ready(pending[next], ids) && !HasId(stored, ParentId(pending[next], ids, root))
    ensures NamesMissing(plan, worlds, pending[next].key, ParentId(pending[next], ids, root)) && !Fits(plan, worlds)
  {
    PlanSplits(plan, order, pending, pending[next]);
  }

  ghost predicate ForPlan(plan: seq<PlannedWorld>, world: World) {
    exists w :: w in plan && world.connectorKey == Some(w.key)
  }

  /** Every planned world is there already under its key, as when a document is imported again. */
  ghost predicate AllKnown(plan: seq<PlannedWorld>, worlds: seq<World>) {
    forall w :: w in plan ==> FindKey(worlds, w.key).Some?
  }

  /** The worlds that were there stay, unless an id that is minted is taken; what is added is for the plan; and a plan
      all of whose worlds are there adds nothing. */
  ghost predicate Grows(plan: seq<PlannedWorld>, worlds: seq<World>, stored: seq<World>, mint: Mint) {
    && (MintsNew(plan, worlds, mint) ==> forall w :: w in worlds ==> w in stored)
    && (forall w :: w in stored ==> w in worlds || ForPlan(plan, w))
    && (AllKnown(plan, worlds) ==> stored == worlds)
  }

  lemma {:induction false} PutKeepsMember(stored: seq<World>, made: World, w: World)
    requires w in stored && w.id != made.id
    ensures w in Put(stored, made)
  {
    if stored[0].id == made.id {
      assert w in stored[1..];
    } else if w != stored[0] {
      PutKeepsMember(stored[1..], made, w);
    }
  }

  ghost predicate DistinctIds(worlds: seq<World>) {
    forall i, j :: 0 <= i < j < |worlds| ==> worlds[i].id != worlds[j].id
  }

  lemma {:induction false} PutHoldsOneOf(stored: seq<World>, made: World, w: World)
    requires DistinctIds(stored) && w in Put(stored, made) && w.id == made.id
    ensures w == made
  {
    if stored != [] && stored[0].id != made.id {
      assert Put(stored, made) == [stored[0]] + Put(stored[1..], made);
      PutHoldsOneOf(stored[1..], made, w);
    }
  }

  /** Setting a world keeps all that were there exactly when its id is not taken, or by the very same world. */
  lemma PutKeepsAllExactlyWhen(stored: seq<World>, made: World)
    requires DistinctIds(stored)
    ensures (forall w :: w in stored ==> w in Put(stored, made)) <==> !HasId(stored, made.id) || made in stored
  {
    if made in stored || !HasId(stored, made.id) {
      forall w | w in stored
        ensures w in Put(stored, made)
      {
        if w.id != made.id {
          PutKeepsMember(stored, made, w);
        } else {
          SameIdSameWorld(stored, made, w);
          PutHolds(stored, made);
        }
      }
    } else {
      var i :| 0 <= i < |stored| && stored[i].id == made.id;
      assert stored[i] in stored && stored[i] != made;
      if stored[i] in Put(stored, made) {
        PutHoldsOneOf(stored, made, stored[i]);
        assert false;
      }
    }
  }

  lemma SameIdSameWorld(stored: seq<World>, made: World, w: World)
    requires DistinctIds(stored) && (made in stored || !HasId(stored, made.id)) && w in stored && w.id == made.id
    ensures w == made
  {
    var i :| 0 <= i < |stored| && stored[i] == w;
    assert HasId(stored, made.id);
    var j :| 0 <= j < |stored| && stored[j] == made;
  }

  lemma {:induction false} PutHolds(stored: seq<World>, made: World)
    ensures made in Put(stored, made)
  {
    if stored != [] && stored[0].id != made.id {
      PutHolds(stored[1..], made);
    }
  }

  /** A world whose key is not found is not there, so its minted id takes no place. */
  lemma RoundKeepsWorlds(plan: seq<PlannedWorld>, worlds: seq<World>, stored: seq<World>, ids: map<string, string>,
                         root: string, world: PlannedWorld, mint: Mint, w: World)
    requires MintsNew(plan, worlds, mint) && world in plan && Ready(world, ids)
    requires (forall v :: v in worlds ==> v in stored) && w in worlds
    ensures w in CreateOne(stored, ids, world, root, mint).0
  {
    var parent := ParentId(world, ids, root);
    var made := World(mint(world.name, parent, world.at), Some(parent), Some(world.key));
    if FindKey(stored, world.key) == None {
      KnownStaysKnown(worlds, stored, world.key);
      var i :| 0 <= i < |worlds| && worlds[i] == w;
      assert !HasId(worlds, made.id);
      PutKeepsMember(stored, made, w);
    }
  }

  lemma KnownStaysKnown(worlds: seq<World>, stored: seq<World>, key: string)
    requires forall v :: v in worlds ==> v in stored
    ensures FindKey(worlds, key).Some? ==> FindKey(stored, key).Some?
  {
    if FindKey(worlds, key).Some? {
      var i :| 0 <= i < |worlds| && worlds[i].connectorKey == Some(key);
      assert worlds[i] in stored;
      var j :| 0 <= j < |stored| && stored[j] == worlds[i];
    }
  }

  lemma RoundGrows(plan: seq<PlannedWorld>, worlds: seq<World>, stored: seq<World>, ids: map<string, string>,
                   root: string, world: PlannedWorld, mint: Mint)
    requires Grows(plan, worlds, stored, mint) && world in plan && Ready(world, ids)
    ensures Grows(plan, worlds, CreateOne(stored, ids, world, root, mint).0, mint)
  {
    var parent := ParentId(world, ids, root);
    var made := World(mint(world.name, parent, world.at), Some(parent), Some(world.key));
    if MintsNew(plan, worlds, mint) {
      forall w | w in worlds
        ensures w in CreateOne(stored, ids, world, root, mint).0
      {
        RoundKeepsWorlds(plan, worlds, stored, ids, root, world, mint, w);
      }
    }
    forall w | w in Put(stored, made)
      ensures w in worlds || ForPlan(plan, w)
    {
      PutAddsOnly(stored, made, w);
    }
  }

  // ---------------------------------------------------------------- the ids do not depend on the listing order

  ghost predicate DistinctKeys(plan: seq<PlannedWorld>) {
    forall v, w :: v in plan && w in plan && v.key == w.key ==> v == w && multiset(plan)[v] == 1
  }

  /** No id minted for a world that is not there yet is taken already. */
  ghost predicate MintsNew(plan: seq<PlannedWorld>, worlds: seq<World>, mint: Mint) {
    forall w, parent :: w in plan && FindKey(worlds, w.key) == None ==> !HasId(worlds, mint(w.name, parent, w.at))
  }

  /** What is done is solved, what is pending is found as at the start, and what was added carries a key that
      is done. */
  ghost predicate Solved(worlds: seq<World>, stored: seq<World>, order: seq<PlannedWorld>, pending: seq<PlannedWorld>,
                         mint: Mint, root: string, ids: map<string, string>) {
    && (forall w :: w in order ==> SolvesAt(w, worlds, mint, root, ids))
    && (forall w :: w in pending ==> FindKey(stored, w.key) == FindKey(worlds, w.key))
    && (forall i :: 0 <= i < |stored| && !HasId(worlds, stored[i].id) ==>
          stored[i].connectorKey.Some? && stored[i].connectorKey.value in ids)
  }

  lemma {:induction false} PutKeepsFind(stored: seq<World>, made: World, key: string)
    requires made.connectorKey != Some(key)
    requires forall i :: 0 <= i < |stored| && stored[i].id == made.id ==> stored[i].connectorKey != Some(key)
    ensures FindKey(Put(stored, made), key) == FindKey(stored, key)
  {
    if stored != [] {
      assert Put(stored, made)[1..] == if stored[0].id == made.id then stored[1..] else Put(stored[1..], made);
      if stored[0].id != made.id {
        assert forall i :: 0 <= i < |stored[1..]| ==> stored[1..][i] == stored[i + 1];
        PutKeepsFind(stored[1..], made, key);
      }
    }
  }

  lemma {:induction false} PutAddsOnly(stored: seq<World>, made: World, w: World)
    requires w in Put(stored, made)
    ensures w == made || w in stored
  {
    if stored != [] && stored[0].id != made.id && w != stored[0] {
      assert Put(stored, made) == [stored[0]] + Put(stored[1..], made);
      PutAddsOnly(stored[1..], made, w);
    }
  }

  /** No other world, done or pending, has the key of the `next` pending world. */
  lemma KeyIsElsewhereAbsent(plan: seq<PlannedWorld>, order: seq<PlannedWorld>, pending: seq<PlannedWorld>, next: nat,
                             v: PlannedWorld)
    requires DistinctKeys(plan) && multiset(order) + multiset(pending) == multiset(plan) && next < |pending|
    requires v in order || v in pending[..next] + pending[next + 1..]
    ensures v.key != pending[next].key
  {
    var w, rest := pending[next], pending[..next] + pending[next + 1..];
    assert pending == pending[..next] + [w] + pending[next + 1..];
    assert multiset(plan)[v] == multiset(order)[v] + multiset(rest)[v] + multiset{w}[v];
    assert multiset(plan)[w] > 0;
    assert multiset(plan)[v] > 0;
  }

  /** A pending world's key is not done yet, and no other pending world has it. */
  lemma PendingKeyIsNew(plan: seq<PlannedWorld>, order: seq<PlannedWorld>, pending: seq<PlannedWorld>,
                        ids: map<string, string>, next: nat)
    requires DistinctKeys(plan) && Sorted(plan, order, pending, ids) && next < |pending|
    ensures pending[next].key !in ids
  {
    if pending[next].key in ids {
      var done :| done in order && done.key == pending[next].key;
      KeyIsElsewhereAbsent(plan, order, pending, next, done);
    }
  }

  lemma OtherPendingKeys(plan: seq<PlannedWorld>, order: seq<PlannedWorld>, pending: seq<PlannedWorld>,
                         ids: map<string, string>, next: nat, v: PlannedWorld)
    requires DistinctKeys(plan) && Sorted(plan, order, pending, ids) && next < |pending|
    requires v in pending[..next] + pending[next + 1..]
    ensures v in pending && v.key != pending[next].key && v.key !in ids
  {
    KeyIsElsewhereAbsent(plan, order, pending, next, v);
    var i :| 0 <= i < |pending| && pending[i] == v;
    PendingKeyIsNew(plan, order, pending, ids, i);
  }

  lemma RoundKeepsSolved(plan: seq<PlannedWorld>, worlds: seq<World>, stored: seq<World>, order: seq<PlannedWorld>,
                         pending: seq<PlannedWorld>, mint: Mint, root: string, ids: map<string, string>, next: nat)
    requires DistinctKeys(plan) && MintsNew(plan, worlds, mint) && Sorted(plan, order, pending, ids)
    requires Solved(worlds, stored, order, pending, mint, root, ids)
    requires next < |pending| && Ready(pending[next], ids)
    ensures var (stored', id) := CreateOne(stored, ids, pending[next], root, mint);
            Solved(worlds, stored', order + [pending[next]], pending[..next] + pending[next + 1..], mint, root,
                   ids[pending[next].key := id])
  {
    var w, rest := pending[next], pending[..next] + pending[next + 1..];
    var (stored', id) := CreateOne(stored, ids, w, root, mint);
    var ids' := ids[w.key := id];
    var made := World(mint(w.name, ParentId(w, ids, root), w.at), Some(ParentId(w, ids, root)), Some(w.key));
    PendingKeyIsNew(plan, order, pending, ids, next);
    PlanSplits(plan, order, pending, w);
    forall v | v in order + [w]
      ensures SolvesAt(v, worlds, mint, root, ids')
    {
      assert v in order ==> SolvesAt(v, worlds, mint, root, ids);
    }
    forall v | v in rest
      ensures FindKey(stored', v.key) == FindKey(worlds, v.key)
    {
      OtherPendingKeys(plan, order, pending, ids, next, v);
      if FindKey(stored, w.key) == None {
        PutKeepsFind(stored, made, v.key);
      }
    }
    forall i | 0 <= i < |stored'| && !HasId(worlds, stored'[i].id)
      ensures stored'[i].connectorKey.Some? && stored'[i].connectorKey.value in ids'
    {
      if stored' != stored {
        PutAddsOnly(stored, made, stored'[i]);
      }
    }
  }

  /** Minted ids of worlds with different parents differ. */
  ghost predicate MintSeparatesParents(mint: Mint) {
    forall name, parent, at, name', parent', at' :: mint(name, parent, at) == mint(name', parent', at') ==>
        parent == parent'
  }

  ghost predicate HangsUnder(stored: seq<World>, id: string, parent: string) {
    HasId(stored, id) && forall i :: 0 <= i < |stored| && stored[i].id == id ==> stored[i].parent == Some(parent)
  }

  /** Worlds that were not there before carry the id minted for their parent. */
  ghost predicate AddedByMint(worlds: seq<World>, stored: seq<World>, mint: Mint) {
    forall w :: w in stored && !HasId(worlds, w.id) ==> MintedFor(w, mint)
  }

  ghost predicate MintedFor(w: World, mint: Mint) {
    exists name, parent, at :: w.id == mint(name, parent, at) && w.parent == Some(parent)
  }

  lemma RoundKeepsAdded(worlds: seq<World>, stored: seq<World>, ids: map<string, string>, root: string,
                        world: PlannedWorld, mint: Mint)
    requires AddedByMint(worlds, stored, mint) && Ready(world, ids)
    ensures AddedByMint(worlds, CreateOne(stored, ids, world, root, mint).0, mint)
  {
    var parent := ParentId(world, ids, root);
    var made := World(mint(world.name, parent, world.at), Some(parent), Some(world.key));
    assert MintedFor(made, mint);
    forall w | w in Put(stored, made)
      ensures w == made || w in stored
    {
      PutAddsOnly(stored, made, w);
    }
  }

  lemma FinishedParented(plan: seq<PlannedWorld>, worlds: seq<World>, stored: seq<World>, mint: Mint, root: string,
                         ids: map<string, string>)
    requires MintsNew(plan, worlds, mint) && MintSeparatesParents(mint) && AddedByMint(worlds, stored, mint)
    requires Solves(plan, worlds, mint, root, ids) && Stored(worlds, stored, ids, root)
    requires FindRoot(worlds) == Some(root)
    ensures forall w :: w in plan && IsNew(w, worlds) ==> HangsWhereNamed(w, worlds, stored, ids)
  {
    forall w | w in plan && IsNew(w, worlds)
      ensures HangsWhereNamed(w, worlds, stored, ids)
    {
      assert SolvesAt(w, worlds, mint, root, ids);
      ParentIsNamed(w, worlds, ids, root);
      forall i | 0 <= i < |stored| && stored[i].id == ids[w.key]
        ensures stored[i].parent == Some(ParentId(w, ids, root))
      {
        assert MintedFor(stored[i], mint);
      }
    }
  }

  /** The equations that the ids solve have one solution on grounded worlds. */
  lemma {:induction false} SolutionIsUnique(plan: seq<PlannedWorld>, worlds: seq<World>, mint: Mint, root: string,
                                            ids: map<string, string>, ids': map<string, string>, w: PlannedWorld,
                                            n: nat)
    requires Solves(plan, worlds, mint, root, ids) && Solves(plan, worlds, mint, root, ids')
    requires w in plan && GroundedIn(plan, w, n)
    ensures ids[w.key] == ids'[w.key]
    decreases n
  {
    assert SolvesAt(w, worlds, mint, root, ids) && SolvesAt(w, worlds, mint, root, ids');
    if w.parentKey.Some? {
      var parent :| parent in plan && w.parentKey == Some(parent.key) && GroundedIn(plan, parent, n - 1);
      SolutionIsUnique(plan, worlds, mint, root, ids, ids', parent, n - 1);
    }
  }

  /** Two listings of the same worlds with distinct keys get the same ids. */
  lemma ListingOrderIsIrrelevant(plan: seq<PlannedWorld>, plan': seq<PlannedWorld>, worlds: seq<World>, mint: Mint,
                                 root: string, ids: map<string, string>, ids': map<string, string>)
    requires multiset(plan) == multiset(plan')
    requires Solves(plan, worlds, mint, root, ids) && Solves(plan', worlds, mint, root, ids')
    requires KeysOf(ids, plan) && KeysOf(ids', plan') && forall w :: w in plan ==> Grounded(plan, w)
    ensures ids == ids'
  {
    SameMembers(plan, plan');
    SameKeys(plan, plan', ids, ids');
    forall w | w in plan
      ensures ids[w.key] == ids'[w.key]
    {
      var n: nat :| GroundedIn(plan, w, n);
      SolutionIsUnique(plan, worlds, mint, root, ids, ids', w, n);
    }
  }

  lemma SameKeys(plan: seq<PlannedWorld>, plan': seq<PlannedWorld>, ids: map<string, string>, ids': map<string, string>)
    requires KeysOf(ids, plan) && KeysOf(ids', plan') && forall w :: w in plan <==> w in plan'
    ensures ids.Keys == ids'.Keys
  {
  }

  lemma SameMembers(a: seq<PlannedWorld>, b: seq<PlannedWorld>)
    requires multiset(a) == multiset(b)
    ensures forall w :: w in a <==> w in b
  {
    forall w
      ensures w in a <==> w in b
    {
      assert w in a <==> w in multiset(a);
      assert w in b <==> w in multiset(b);
    }
  }
}
