/** The scope of a project: its root world and everything below it, found with an explicit stack. */
module ProjectScope {
  import opened Common

  datatype World = World(id: string, parent: Option<string>, isProject: bool, project: Option<string>)

  /** A scope; no project is set up at all; or projects are, but not this one. */
  datatype Result = Scope(root: World, ids: set<string>) | Legacy | NotFound

  /** An empty parent id counts as none. */
  predicate IsChild(w: World, parent: string) { w.parent == Some(parent) && parent != "" }

  predicate Link(worlds: seq<World>, a: string, b: string) {
    exists i :: 0 <= i < |worlds| && worlds[i].id == b && IsChild(worlds[i], a)
  }

  /** A chain of parent links downwards. */
  ghost predicate Path(worlds: seq<World>, path: seq<string>) {
    path != [] && forall i :: 0 < i < |path| ==> Link(worlds, path[i - 1], path[i])
  }

  ghost predicate PathBetween(worlds: seq<World>, path: seq<string>, from: string, to: string) {
    Path(worlds, path) && path[0] == from && path[|path| - 1] == to
  }

  ghost predicate Reaches(worlds: seq<World>, from: string, to: string) {
    exists path :: PathBetween(worlds, path, from, to)
  }

  lemma ReachesSelf(worlds: seq<World>, id: string)
    ensures Reaches(worlds, id, id)
  {
    assert PathBetween(worlds, [id], id, id);
  }

  lemma ReachesFurther(worlds: seq<World>, from: string, a: string, b: string)
    requires Reaches(worlds, from, a) && Link(worlds, a, b)
    ensures Reaches(worlds, from, b)
  {
    var path :| PathBetween(worlds, path, from, a);
    assert PathBetween(worlds, path + [b], from, b);
  }

  /** A set that holds the start and is closed under links holds whatever is reached. */
  lemma {:induction false} ClosedHoldsPath(worlds: seq<World>, ids: set<string>, path: seq<string>)
    requires Path(worlds, path) && path[0] in ids
    requires forall a, b :: a in ids && Link(worlds, a, b) ==> b in ids
    ensures path[|path| - 1] in ids
  {
    if |path| > 1 {
      var front := path[..|path| - 1];
      assert forall i :: 0 <= i < |front| ==> front[i] == path[i];
      ClosedHoldsPath(worlds, ids, front);
      assert Link(worlds, path[|path| - 2], path[|path| - 1]);
    }
  }

  predicate IsRootOf(w: World, project: string) { w.isProject && w.project == Some(project) }

  /** The index of the first root of the project. */
  function RootIndex(worlds: seq<World>, project: string): (i: nat)
    ensures i <= |worlds| && (i < |worlds| ==> worlds[i].isProject && worlds[i].project == Some(project))
    ensures forall j :: 0 <= j < i ==> !(worlds[j].isProject && worlds[j].project == Some(project))
  {
    if worlds == [] || IsRootOf(worlds[0], project) then 0 else 1 + RootIndex(worlds[1..], project)
  }

  ghost predicate ChildrenOf(worlds: seq<World>, children: map<string, seq<World>>, n: nat)
    requires n <= |worlds|
  {
    && (forall key, w :: key in children && w in children[key] ==> IsChild(w, key) && w in worlds[..n])
    && (forall i :: 0 <= i < n ==> Filed(worlds[i], children))
  }

  ghost predicate Filed(w: World, children: map<string, seq<World>>) {
    w.parent.Some? && w.parent.value != "" ==> w.parent.value in children && w in children[w.parent.value]
  }

  method GroupByParent(worlds: seq<World>) returns (children: map<string, seq<World>>)
    ensures ChildrenOf(worlds, children, |worlds|)
  {
    children := map[];
    for i := 0 to |worlds|
      invariant ChildrenOf(worlds, children, i)
    {
      var w := worlds[i];
      assert worlds[..i + 1] == worlds[..i] + [w];
      if w.parent.None? || w.parent.value == "" {
        continue;
      }
      var values := if w.parent.value in children then children[w.parent.value] else [];
      children := children[w.parent.value := values + [w]];
    }
  }

  ghost function Ids(worlds: seq<World>): set<string> { set w | w in worlds :: w.id }

  /** The descent: every world is taken at most once, whatever cycles the parent links have. */
  method Collect(worlds: seq<World>, children: map<string, seq<World>>, root: World) returns (ids: set<string>)
    requires root in worlds && ChildrenOf(worlds, children, |worlds|)
    ensures forall id :: id in ids <==> Reaches(worlds, root.id, id)
  {
    ids := {};
    var stack := [root];
    ReachesSelf(worlds, root.id);
    while stack != []
      invariant ids <= Ids(worlds) && forall w :: w in stack ==> w in worlds
      invariant forall id :: id in ids ==> Reaches(worlds, root.id, id)
      invariant forall w :: w in stack ==> Reaches(worlds, root.id, w.id)
      invariant root.id in ids || root in stack
      invariant ClosedUpTo(worlds, ids, stack)
      decreases Ids(worlds) - ids, |stack|
    {
      var world := stack[|stack| - 1];
      var rest := stack[..|stack| - 1];
      assert stack == rest + [world];
      if world.id in ids {
        stack := rest;
        continue;
      }
      var found := if world.id in children then children[world.id] else [];
      ChildrenAreReached(worlds, children, root.id, world);
      Descends(worlds, children, ids, rest, world, found);
      assert world.id in Ids(worlds) - ids;
      ids := ids + {world.id};
      stack := rest + found;
    }
    AllReachedAreIn(worlds, ids, root.id);
  }

  /** The children of a taken world are taken or wait on the stack. */
  ghost predicate ClosedUpTo(worlds: seq<World>, ids: set<string>, stack: seq<World>) {
    forall a, w :: a in ids && w in worlds && IsChild(w, a) ==> w.id in ids || w in stack
  }

  lemma ChildrenAreReached(worlds: seq<World>, children: map<string, seq<World>>, from: string, world: World)
    requires ChildrenOf(worlds, children, |worlds|) && Reaches(worlds, from, world.id)
    ensures world.id in children ==> forall w :: w in children[world.id] ==> w in worlds && Reaches(worlds, from, w.id)
  {
    if world.id in children {
      forall w | w in children[world.id]
        ensures w in worlds && Reaches(worlds, from, w.id)
      {
        assert worlds[..|worlds|] == worlds && w in worlds;
        var i :| 0 <= i < |worlds| && worlds[i] == w;
        assert worlds[i].id == w.id && IsChild(worlds[i], world.id);
        ReachesFurther(worlds, from, world.id, w.id);
      }
    }
  }

  lemma Descends(worlds: seq<World>, children: map<string, seq<World>>, ids: set<string>, rest: seq<World>,
                 world: World, found: seq<World>)
    requires ChildrenOf(worlds, children, |worlds|) && ClosedUpTo(worlds, ids, rest + [world])
    requires found == if world.id in children then children[world.id] else []
    ensures ClosedUpTo(worlds, ids + {world.id}, rest + found)
  {
    forall a, w | a in ids + {world.id} && w in worlds && IsChild(w, a)
      ensures w.id in ids + {world.id} || w in rest + found
    {
      if a in ids {
        assert w.id in ids || w in rest + [world];
      } else {
        var i :| 0 <= i < |worlds| && worlds[i] == w;
        assert Filed(worlds[i], children);
      }
    }
  }

  lemma AllReachedAreIn(worlds: seq<World>, ids: set<string>, from: string)
    requires from in ids && ClosedUpTo(worlds, ids, [])
    ensures forall id :: Reaches(worlds, from, id) ==> id in ids
  {
    forall a, b | a in ids && Link(worlds, a, b)
      ensures b in ids
    {
      var i :| 0 <= i < |worlds| && worlds[i].id == b && IsChild(worlds[i], a);
      assert worlds[i] in worlds;
    }
    forall id | Reaches(worlds, from, id)
      ensures id in ids
    {
      var path :| PathBetween(worlds, path, from, id);
      ClosedHoldsPath(worlds, ids, path);
    }
  }

  /** The world stands at `at`, and no root of the project before it. */
  ghost predicate FirstAt(worlds: seq<World>, at: int, w: World, project: string) {
    0 <= at < |worlds| && worlds[at] == w
    && forall j :: 0 <= j < at ==> !(worlds[j].isProject && worlds[j].project == Some(project))
  }

  /** `resolve_project_scope`: the scope is exactly what the first root of the project reaches along parent links. */
  method Resolve(worlds: seq<World>, project: string) returns (r: Result)
    ensures r.Scope? <==> exists w :: w in worlds && w.isProject && w.project == Some(project)
    ensures r.Scope? ==> r.root.isProject && r.root.project == Some(project)
                         && exists at :: FirstAt(worlds, at, r.root, project)
    ensures r == NotFound <==> (exists w :: w in worlds && w.isProject)
                               && forall w :: w in worlds && w.isProject ==> w.project != Some(project)
    ensures r == Legacy <==> forall w :: w in worlds ==> !w.isProject
    ensures r.Scope? ==> forall id :: id in r.ids <==> Reaches(worlds, r.root.id, id)
  {
    var at := RootIndex(worlds, project);
    assert at < |worlds| ==> worlds[at] in worlds && FirstAt(worlds, at, worlds[at], project);
    if at == |worlds| {
      if exists w :: w in worlds && w.isProject {
        return NotFound;
      }
      return Legacy;
    }
    var children := GroupByParent(worlds);
    var ids := Collect(worlds, children, worlds[at]);
    r := Scope(worlds[at], ids);
  }

  // ---------------------------------------------------------------- two scopes

  ghost predicate DistinctIds(worlds: seq<World>) {
    forall i, j :: 0 <= i < j < |worlds| ==> worlds[i].id != worlds[j].id
  }

  /** A world has one parent, so two chains to it agree from its end up to the start of the shorter one. */
  lemma {:induction false} ChainsMeet(worlds: seq<World>, p: seq<string>, q: seq<string>)
    requires DistinctIds(worlds) && Path(worlds, p) && Path(worlds, q) && p[|p| - 1] == q[|q| - 1]
    ensures Reaches(worlds, p[0], q[0]) || Reaches(worlds, q[0], p[0])
    decreases |p|
  {
    if |p| == 1 {
      assert PathBetween(worlds, q, q[0], p[0]);
    } else if |q| == 1 {
      assert PathBetween(worlds, p, p[0], q[0]);
    } else {
      var p', q' := p[..|p| - 1], q[..|q| - 1];
      assert forall i :: 0 <= i < |p'| ==> p'[i] == p[i];
      assert forall i :: 0 <= i < |q'| ==> q'[i] == q[i];
      assert Link(worlds, p[|p| - 2], p[|p| - 1]) && Link(worlds, q[|q| - 2], q[|q| - 1]);
      ChainsMeet(worlds, p', q');
    }
  }

  /** The scopes of two roots share a world only if one root lies in the scope of the other. */
  lemma ScopesNestOrSeparate(worlds: seq<World>, a: string, b: string, id: string)
    requires DistinctIds(worlds) && Reaches(worlds, a, id) && Reaches(worlds, b, id)
    ensures Reaches(worlds, a, b) || Reaches(worlds, b, a)
  {
    var p :| PathBetween(worlds, p, a, id);
    var q :| PathBetween(worlds, q, b, id);
    ChainsMeet(worlds, p, q);
  }
}
