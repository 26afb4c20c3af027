/** Mapping a document to an import plan: worlds, a root node, a node and an edge for each part that has a text, all by
    keys made on the spot, and the supersessions of an update. */
module DomainPlans {
  import opened Common
  import ImportActions
  import ImportWorlds

  /** A part of a document: the label it brings, if any, and its text. */
  datatype Part = Part(id: Option<string>, text: string)

  /** What is mapped, by mapper. A page brings its number as it is written, also if that is not a number. */
  datatype Document =
    | Issue(project: string, external: string, text: string, at: int, comments: seq<Part>, transitions: seq<Part>)
    | Chat(workspace: string, channel: string, external: string, text: string, at: int, replies: seq<Part>)
    | Mail(mailbox: string, thread: string, external: string, title: string, text: string, at: int)
    | Pdf(external: string, title: string, at: int, pages: seq<Part>)
    | Record(collection: string, external: string, text: string, at: int, parent: string)

  datatype Kind = Comment | Transition | Reply | Page | Parent

  datatype PlannedNode = PlannedNode(key: string, worldKey: string, id: string)

  datatype PlannedEdge = PlannedEdge(key: string, from: string, to: string)

  /** `contracts` and `groundings` are the keys of the nodes they are of. */
  datatype Plan = Plan(worlds: seq<ImportWorlds.PlannedWorld>, nodes: seq<PlannedNode>, edges: seq<PlannedEdge>,
                       contracts: seq<string>, groundings: seq<string>, actions: seq<ImportActions.Action>)

  /** What an item that was imported before left: its nodes. */
  datatype Update = Update(prior: seq<string>, at: int)

  /** The decimals of a number, and the id of a node of this document, made from its key and the hash of its text. */
  datatype Names = Names(decimal: nat -> string, nodeId: (string, string) -> string)

  /** Nodes with other keys or other texts have other ids. */
  ghost predicate Separates(names: Names) {
    forall k, t, k', t' :: names.nodeId(k, t) == names.nodeId(k', t') ==> k == k' && t == t'
  }

  // ---------------------------------------------------------------- what the mappers plan

  function Planned(key: string, name: string, parent: Option<string>, at: int): ImportWorlds.PlannedWorld {
    ImportWorlds.PlannedWorld(key, name, parent, None, at)
  }

  function Worlds(d: Document): seq<ImportWorlds.PlannedWorld> {
    match d
    case Issue(project, _, _, at, _, _) => [Planned("project:" + project, project, None, at)]
    case Chat(workspace, channel, _, _, at, _) =>
      [Planned("workspace:" + workspace, workspace, None, at),
       Planned("channel:" + channel, channel, Some("workspace:" + workspace), at)]
    case Mail(mailbox, thread, _, title, _, at) =>
      [Planned("mailbox:" + mailbox, mailbox, None, at),
       Planned("thread:" + thread, title, Some("mailbox:" + mailbox), at)]
    case Pdf(external, title, at, _) => [Planned("pdf:" + external, title, None, at)]
    case Record(collection, _, _, at, _) => [Planned("collection:" + collection, collection, None, at)]
  }

  /** The world of the nodes: the last one planned. */
  function WorldKey(d: Document): string { Worlds(d)[|Worlds(d)| - 1].key }

  function RootKey(d: Document): string {
    match d
    case Issue(_, external, _, _, _, _) => "issue:" + external
    case Chat(_, _, external, _, _, _) => "message:" + external
    case Mail(_, _, external, _, _, _) => "email:" + external
    case Pdf(_, _, _, _) => "pdf"
    case Record(_, external, _, _, _) => "record:" + external
  }

  function RootText(d: Document): string { if d.Pdf? then "PDF: " + d.title else d.text }

  function PartsOf(d: Document, kind: Kind): seq<Part> {
    if kind == Comment && d.Issue? then d.comments
    else if kind == Transition && d.Issue? then d.transitions
    else if kind == Reply && d.Chat? then d.replies
    else if kind == Page && d.Pdf? then d.pages
    else if kind == Parent && d.Record? && d.parent != "" then [Part(Some(d.parent), "External record: " + d.parent)]
    else []
  }

  function Prefix(kind: Kind): string {
    match kind
    case Comment => "comment:"
    case Transition => "transition:"
    case Reply => "reply:"
    case Page => "page:"
    case Parent => "parent:"
  }

  /** The label of a part: its own, or its index; pages count from one. */
  function Label(names: Names, kind: Kind, parts: seq<Part>, i: nat): string
    requires i < |parts|
  {
    parts[i].id.GetOr(names.decimal(if kind == Page then i + 1 else i))
  }

  function Key(names: Names, kind: Kind, parts: seq<Part>, i: nat): string
    requires i < |parts|
  {
    Prefix(kind) + Label(names, kind, parts, i)
  }

  function NodeOf(names: Names, kind: Kind, parts: seq<Part>, i: nat, world: string): PlannedNode
    requires i < |parts|
  {
    PlannedNode(Key(names, kind, parts, i), world, names.nodeId(Key(names, kind, parts, i), parts[i].text))
  }

  /** The root contains its parts or refers to its parent; a transition derives from it. */
  function EdgeOf(names: Names, kind: Kind, parts: seq<Part>, i: nat, root: string): PlannedEdge
    requires i < |parts|
  {
    var key := Key(names, kind, parts, i);
    if kind == Transition then PlannedEdge("derived:" + key, key, root)
    else if kind == Parent then PlannedEdge("refers:" + Label(names, kind, parts, i), root, key)
    else PlannedEdge("contains:" + key, root, key)
  }

  function PartNodes(names: Names, kind: Kind, parts: seq<Part>, n: nat, world: string): seq<PlannedNode>
    requires n <= |parts|
  {
    if n == 0 then []
    else
      PartNodes(names, kind, parts, n - 1, world)
      + if parts[n - 1].text == "" then [] else [NodeOf(names, kind, parts, n - 1, world)]
  }

  function PartEdges(names: Names, kind: Kind, parts: seq<Part>, n: nat, root: string): seq<PlannedEdge>
    requires n <= |parts|
  {
    if n == 0 then []
    else
      PartEdges(names, kind, parts, n - 1, root)
      + if parts[n - 1].text == "" then [] else [EdgeOf(names, kind, parts, n - 1, root)]
  }

  /** The plan with the first `n` parts more. */
  function WithFirst(names: Names, kind: Kind, parts: seq<Part>, n: nat, plan: Plan, world: string, root: string): Plan
    requires n <= |parts|
  {
    plan.(nodes := plan.nodes + PartNodes(names, kind, parts, n, world),
          edges := plan.edges + PartEdges(names, kind, parts, n, root))
  }

  function WithParts(names: Names, kind: Kind, parts: seq<Part>, plan: Plan, world: string, root: string): Plan {
    WithFirst(names, kind, parts, |parts|, plan, world, root)
  }

  lemma NextPart(names: Names, kind: Kind, parts: seq<Part>, n: nat, plan: Plan, world: string, root: string)
    requires n < |parts| && parts[n].text != ""
    ensures var longer := WithFirst(names, kind, parts, n, plan, world, root);
            WithFirst(names, kind, parts, n + 1, plan, world, root)
            == longer.(nodes := longer.nodes + [NodeOf(names, kind, parts, n, world)],
                       edges := longer.edges + [EdgeOf(names, kind, parts, n, root)])
  {
    var nodes, edges := PartNodes(names, kind, parts, n, world), PartEdges(names, kind, parts, n, root);
    var node, edge := NodeOf(names, kind, parts, n, world), EdgeOf(names, kind, parts, n, root);
    assert plan.nodes + (nodes + [node]) == (plan.nodes + nodes) + [node];
    assert plan.edges + (edges + [edge]) == (plan.edges + edges) + [edge];
  }

  lemma NextPartIsEmpty(names: Names, kind: Kind, parts: seq<Part>, n: nat, plan: Plan, world: string, root: string)
    requires n < |parts| && parts[n].text == ""
    ensures WithFirst(names, kind, parts, n + 1, plan, world, root)
         == WithFirst(names, kind, parts, n, plan, world, root)
  {
    assert PartNodes(names, kind, parts, n + 1, world) == PartNodes(names, kind, parts, n, world);
    assert PartEdges(names, kind, parts, n + 1, root) == PartEdges(names, kind, parts, n, root);
  }

  function RootNode(names: Names, d: Document): PlannedNode {
    PlannedNode(RootKey(d), WorldKey(d), names.nodeId(RootKey(d), RootText(d)))
  }

  function BarePlan(names: Names, d: Document): Plan {
    Plan(Worlds(d), [RootNode(names, d)], [], [], [], [])
  }

  /** The plan with the parts of one kind more. */
  function WithKind(names: Names, d: Document, kind: Kind, plan: Plan): Plan {
    WithParts(names, kind, PartsOf(d, kind), plan, WorldKey(d), RootKey(d))
  }

  /** The kinds in the order in which their parts are added. */
  const KINDS := [Comment, Transition, Reply, Page, Parent]

  function Rank(kind: Kind): (k: nat)
    ensures k < |KINDS| && KINDS[k] == kind
  {
    match kind
    case Comment => 0
    case Transition => 1
    case Reply => 2
    case Page => 3
    case Parent => 4
  }

  /** The plan with the parts of the first `n` kinds. */
  function WithKinds(names: Names, d: Document, n: nat): Plan
    requires n <= |KINDS|
  {
    if n == 0 then BarePlan(names, d) else WithKind(names, d, KINDS[n - 1], WithKinds(names, d, n - 1))
  }

  function WithAllParts(names: Names, d: Document): Plan { WithKinds(names, d, |KINDS|) }

  function Keys(nodes: seq<PlannedNode>): (keys: seq<string>)
    ensures |keys| == |nodes| && forall i :: 0 <= i < |nodes| ==> keys[i] == nodes[i].key
  {
    seq(|nodes|, i requires 0 <= i < |nodes| => nodes[i].key)
  }

  /** `finish`: a contract and a grounding for every node, and for an update the supersessions by the root. */
  function Finished(d: Document, update: Option<Update>, plan: Plan): Plan {
    plan.(contracts := plan.contracts + Keys(plan.nodes), groundings := plan.groundings + Keys(plan.nodes),
          actions := if update.None? then plan.actions
                     else plan.actions
                          + ImportActions.UpdatePlan(update.value.prior, RootKey(d), d.external, update.value.at))
  }

  function PlanOf(names: Names, d: Document, update: Option<Update>): Plan {
    Finished(d, update, WithAllParts(names, d))
  }

  /** A loop over the parts of one kind. */
  method AddParts(names: Names, kind: Kind, parts: seq<Part>, plan: Plan, world: string, root: string)
    returns (longer: Plan)
    ensures longer == WithParts(names, kind, parts, plan, world, root)
  {
    longer := plan;
    for i := 0 to |parts|
      invariant longer == WithFirst(names, kind, parts, i, plan, world, root)
    {
      if parts[i].text == "" {
        NextPartIsEmpty(names, kind, parts, i, plan, world, root);
        continue;
      }
      NextPart(names, kind, parts, i, plan, world, root);
      longer := longer.(nodes := longer.nodes + [NodeOf(names, kind, parts, i, world)],
                        edges := longer.edges + [EdgeOf(names, kind, parts, i, root)]);
    }
  }

  lemma NoPartsAddNothing(names: Names, d: Document, kind: Kind, plan: Plan)
    requires PartsOf(d, kind) == []
    ensures WithKind(names, d, kind, plan) == plan
  {
  }

  /** The mapper of the document: of an issue its comments and its transitions, of a chat the replies, of a PDF the
      pages, of a record its parent, of a mail nothing but the root. */
  method Map(names: Names, d: Document, update: Option<Update>) returns (plan: Plan)
    ensures plan == PlanOf(names, d, update)
  {
    plan := Plan(Worlds(d), [], [], [], [], []);
    plan := plan.(nodes := plan.nodes + [RootNode(names, d)]);
    assert plan == BarePlan(names, d);
    match d {
      case Issue(_, _, _, _, comments, transitions) =>
        plan := AddParts(names, Comment, comments, plan, WorldKey(d), RootKey(d));
        plan := AddParts(names, Transition, transitions, plan, WorldKey(d), RootKey(d));
        TwoKinds(names, d);
      case Chat(_, _, _, _, _, replies) =>
        plan := AddParts(names, Reply, replies, plan, WorldKey(d), RootKey(d));
        OneKind(names, d, Reply);
      case Mail(_, _, _, _, _, _) =>
        KindsAddNothing(names, d, 0, |KINDS|);
      case Pdf(_, _, _, pages) =>
        plan := AddParts(names, Page, pages, plan, WorldKey(d), RootKey(d));
        OneKind(names, d, Page);
      case Record(_, _, _, _, parent) =>
        if parent != "" {
          var part := Part(Some(parent), "External record: " + parent);
          plan := AddParts(names, Parent, [part], plan, WorldKey(d), RootKey(d));
        }
        OneKind(names, d, Parent);
        if parent == "" {
          NoPartsAddNothing(names, d, Parent, BarePlan(names, d));
        }
    }
    plan := Finish(d, update, plan);
  }

  method Finish(d: Document, update: Option<Update>, plan: Plan) returns (finished: Plan)
    ensures finished == Finished(d, update, plan)
  {
    finished := plan.(contracts := plan.contracts + Keys(plan.nodes), groundings := plan.groundings + Keys(plan.nodes));
    if update.Some? {
      var actions := ImportActions.UpdatePlan(update.value.prior, RootKey(d), d.external, update.value.at);
      finished := finished.(actions := finished.actions + actions);
    }
  }

  /** Kinds without parts leave the plan as it is. */
  lemma {:induction false} KindsAddNothing(names: Names, d: Document, m: nat, n: nat)
    requires m <= n <= |KINDS| && forall k :: m <= k < n ==> PartsOf(d, KINDS[k]) == []
    ensures WithKinds(names, d, n) == WithKinds(names, d, m)
  {
    if m < n {
      KindsAddNothing(names, d, m, n - 1);
      NoPartsAddNothing(names, d, KINDS[n - 1], WithKinds(names, d, n - 1));
    }
  }

  ghost predicate OnlyKind(d: Document, kind: Kind) { forall other :: other != kind ==> PartsOf(d, other) == [] }

  /** A document with parts of one kind only. */
  lemma OneKind(names: Names, d: Document, kind: Kind)
    requires OnlyKind(d, kind)
    ensures WithAllParts(names, d) == WithKind(names, d, kind, BarePlan(names, d))
  {
    var k := Rank(kind);
    forall j: nat | j < |KINDS| && j != k
      ensures PartsOf(d, KINDS[j]) == []
    {
      assert KINDS[j] != kind;
    }
    KindsAddNothing(names, d, 0, k);
    KindsAddNothing(names, d, k + 1, |KINDS|);
    assert WithKinds(names, d, k + 1) == WithKind(names, d, kind, WithKinds(names, d, k));
  }

  /** An issue has parts of two kinds, the first two. */
  lemma TwoKinds(names: Names, d: Document)
    requires d.Issue?
    ensures WithAllParts(names, d) == WithKind(names, d, Transition, WithKind(names, d, Comment, BarePlan(names, d)))
  {
    KindsAddNothing(names, d, 2, |KINDS|);
    assert WithKinds(names, d, 2) == WithKind(names, d, Transition, WithKinds(names, d, 1));
    assert WithKinds(names, d, 1) == WithKind(names, d, Comment, WithKinds(names, d, 0));
  }

  // ---------------------------------------------------------------- keys

  lemma KeysAgreeExactlyWhen(names: Names, kind: Kind, a: seq<Part>, i: nat, kind': Kind, b: seq<Part>, j: nat)
    requires i < |a| && j < |b|
    ensures Key(names, kind, a, i) == Key(names, kind', b, j)
       <==> kind == kind' && Label(names, kind, a, i) == Label(names, kind', b, j)
  {
    var k, k' := Key(names, kind, a, i), Key(names, kind', b, j);
    assert k[|Prefix(kind)|..] == Label(names, kind, a, i) && k'[|Prefix(kind')|..] == Label(names, kind', b, j);
    assert k[0] == Prefix(kind)[0] && k'[0] == Prefix(kind')[0];
    assert k[2] == Prefix(kind)[2] && k'[2] == Prefix(kind')[2];
  }

  lemma RootKeyDiffers(names: Names, d: Document, kind: Kind, parts: seq<Part>, i: nat)
    requires i < |parts|
    ensures Key(names, kind, parts, i) != RootKey(d)
  {
    var k, r := Key(names, kind, parts, i), RootKey(d);
    assert k[0] == Prefix(kind)[0] && k[1] == Prefix(kind)[1] && k[2] == Prefix(kind)[2];
    assert |r| >= 3;
    assert d.Record? ==> r[2] == 'c';
    assert d.Pdf? ==> r[1] == 'd';
    assert d.Issue? ==> r[0] == 'i';
    assert d.Chat? ==> r[0] == 'm';
    assert d.Mail? ==> r[0] == 'e';
  }

  predicate Present(parts: seq<Part>, i: nat) { i < |parts| && parts[i].text != "" }

  ghost predicate NodeBefore(names: Names, kind: Kind, parts: seq<Part>, n: nat, world: string, node: PlannedNode)
    requires n <= |parts|
  {
    exists i :: 0 <= i < n && Present(parts, i) && node == NodeOf(names, kind, parts, i, world)
  }

  ghost predicate EdgeBefore(names: Names, kind: Kind, parts: seq<Part>, n: nat, root: string, edge: PlannedEdge)
    requires n <= |parts|
  {
    exists i :: 0 <= i < n && Present(parts, i) && edge == EdgeOf(names, kind, parts, i, root)
  }

  lemma {:induction false} PartNodesAre(names: Names, kind: Kind, parts: seq<Part>, n: nat, world: string,
                                        node: PlannedNode)
    requires n <= |parts|
    ensures node in PartNodes(names, kind, parts, n, world) <==> NodeBefore(names, kind, parts, n, world, node)
  {
    if n > 0 {
      PartNodesAre(names, kind, parts, n - 1, world, node);
      assert NodeBefore(names, kind, parts, n, world, node)
        <==> NodeBefore(names, kind, parts, n - 1, world, node)
             || (Present(parts, n - 1) && node == NodeOf(names, kind, parts, n - 1, world));
    }
  }

  lemma {:induction false} PartEdgesAre(names: Names, kind: Kind, parts: seq<Part>, n: nat, root: string,
                                        edge: PlannedEdge)
    requires n <= |parts|
    ensures edge in PartEdges(names, kind, parts, n, root) <==> EdgeBefore(names, kind, parts, n, root, edge)
  {
    if n > 0 {
      PartEdgesAre(names, kind, parts, n - 1, root, edge);
      assert EdgeBefore(names, kind, parts, n, root, edge)
        <==> EdgeBefore(names, kind, parts, n - 1, root, edge)
             || (Present(parts, n - 1) && edge == EdgeOf(names, kind, parts, n - 1, root));
    }
  }

  /** The node of a part of the document. */
  function PartNode(names: Names, d: Document, kind: Kind, i: nat): PlannedNode
    requires i < |PartsOf(d, kind)|
  {
    NodeOf(names, kind, PartsOf(d, kind), i, WorldKey(d))
  }

  function PartEdge(names: Names, d: Document, kind: Kind, i: nat): PlannedEdge
    requires i < |PartsOf(d, kind)|
  {
    EdgeOf(names, kind, PartsOf(d, kind), i, RootKey(d))
  }

  ghost predicate IsPartNode(names: Names, d: Document, kind: Kind, node: PlannedNode) {
    NodeBefore(names, kind, PartsOf(d, kind), |PartsOf(d, kind)|, WorldKey(d), node)
  }

  ghost predicate IsPartEdge(names: Names, d: Document, kind: Kind, edge: PlannedEdge) {
    EdgeBefore(names, kind, PartsOf(d, kind), |PartsOf(d, kind)|, RootKey(d), edge)
  }

  lemma PartOfNode(names: Names, d: Document, kind: Kind, node: PlannedNode) returns (i: nat)
    requires IsPartNode(names, d, kind, node)
    ensures Present(PartsOf(d, kind), i) && node == PartNode(names, d, kind, i)
  {
    var parts := PartsOf(d, kind);
    i :| 0 <= i < |parts| && Present(parts, i) && node == NodeOf(names, kind, parts, i, WorldKey(d));
  }

  lemma PartOfEdge(names: Names, d: Document, kind: Kind, edge: PlannedEdge) returns (i: nat)
    requires IsPartEdge(names, d, kind, edge)
    ensures Present(PartsOf(d, kind), i) && edge == PartEdge(names, d, kind, i)
  {
    var parts := PartsOf(d, kind);
    i :| 0 <= i < |parts| && Present(parts, i) && edge == EdgeOf(names, kind, parts, i, RootKey(d));
  }

  lemma KindAdds(names: Names, d: Document, kind: Kind, plan: Plan, node: PlannedNode, edge: PlannedEdge)
    ensures node in WithKind(names, d, kind, plan).nodes <==> node in plan.nodes || IsPartNode(names, d, kind, node)
    ensures edge in WithKind(names, d, kind, plan).edges <==> edge in plan.edges || IsPartEdge(names, d, kind, edge)
  {
    var parts := PartsOf(d, kind);
    PartNodesAre(names, kind, parts, |parts|, WorldKey(d), node);
    PartEdgesAre(names, kind, parts, |parts|, RootKey(d), edge);
  }

  ghost predicate NodeOfFirst(names: Names, d: Document, n: nat, node: PlannedNode) {
    exists kind :: Rank(kind) < n && IsPartNode(names, d, kind, node)
  }

  lemma NodeOfNext(names: Names, d: Document, n: nat, node: PlannedNode)
    requires n < |KINDS|
    ensures NodeOfFirst(names, d, n + 1, node)
       <==> NodeOfFirst(names, d, n, node) || IsPartNode(names, d, KINDS[n], node)
  {
    RankIs(n);
  }

  lemma {:induction false} PlannedNodesAre(names: Names, d: Document, n: nat, node: PlannedNode)
    requires n <= |KINDS|
    ensures node in WithKinds(names, d, n).nodes <==> node == RootNode(names, d) || NodeOfFirst(names, d, n, node)
  {
    if n > 0 {
      PlannedNodesAre(names, d, n - 1, node);
      KindAdds(names, d, KINDS[n - 1], WithKinds(names, d, n - 1), node, PlannedEdge("", "", ""));
      NodeOfNext(names, d, n - 1, node);
    }
  }

  lemma {:induction false} PlannedEdgesAre(names: Names, d: Document, n: nat, edge: PlannedEdge)
    requires n <= |KINDS|
    ensures edge in WithKinds(names, d, n).edges
       <==> exists kind :: Rank(kind) < n && IsPartEdge(names, d, kind, edge)
  {
    if n > 0 {
      PlannedEdgesAre(names, d, n - 1, edge);
      KindAdds(names, d, KINDS[n - 1], WithKinds(names, d, n - 1), RootNode(names, d), edge);
      RankIs(n - 1);
    }
  }

  lemma RankIs(k: nat)
    requires k < |KINDS|
    ensures forall kind :: Rank(kind) == k <==> kind == KINDS[k]
  {
    forall kind
      ensures Rank(kind) == k <==> kind == KINDS[k]
    {
      match kind
      case Comment =>
      case Transition =>
      case Reply =>
      case Page =>
      case Parent =>
    }
  }

  /** The nodes of the plan are the root and those of the parts with a text. */
  lemma NodesAre(names: Names, d: Document, node: PlannedNode)
    ensures node in WithAllParts(names, d).nodes
       <==> node == RootNode(names, d) || exists kind :: IsPartNode(names, d, kind, node)
  {
    PlannedNodesAre(names, d, |KINDS|, node);
  }

  lemma EdgesAre(names: Names, d: Document, edge: PlannedEdge)
    ensures edge in WithAllParts(names, d).edges <==> exists kind :: IsPartEdge(names, d, kind, edge)
  {
    PlannedEdgesAre(names, d, |KINDS|, edge);
  }

  /** The parts bring nothing but nodes and edges. */
  predicate NoMore(d: Document, plan: Plan) {
    plan.worlds == Worlds(d) && plan.contracts == [] && plan.groundings == [] && plan.actions == []
  }

  lemma PartsAddNoMore(names: Names, d: Document, kind: Kind, parts: seq<Part>, plan: Plan)
    requires NoMore(d, plan)
    ensures NoMore(d, WithParts(names, kind, parts, plan, WorldKey(d), RootKey(d)))
  {
  }

  lemma {:induction false} OnlyPartsAdded(names: Names, d: Document, n: nat)
    requires n <= |KINDS|
    ensures NoMore(d, WithKinds(names, d, n))
  {
    if n > 0 {
      OnlyPartsAdded(names, d, n - 1);
      PartsAddNoMore(names, d, KINDS[n - 1], PartsOf(d, KINDS[n - 1]), WithKinds(names, d, n - 1));
    }
  }

  /** Every comment and transition of an issue, reply of a chat, page of a PDF and parent of a record is planned as a
      node, if it has a text. */
  lemma PartsArePlanned(names: Names, d: Document, i: nat)
    ensures var nodes, world := WithAllParts(names, d).nodes, WorldKey(d);
            && (d.Issue? && Present(d.comments, i) ==> NodeOf(names, Comment, d.comments, i, world) in nodes)
            && (d.Issue? && Present(d.transitions, i) ==> NodeOf(names, Transition, d.transitions, i, world) in nodes)
            && (d.Chat? && Present(d.replies, i) ==> NodeOf(names, Reply, d.replies, i, world) in nodes)
            && (d.Pdf? && Present(d.pages, i) ==> NodeOf(names, Page, d.pages, i, world) in nodes)
            && (d.Record? && d.parent != "" ==>
                exists node :: node in nodes && node.key == "parent:" + d.parent && node.worldKey == world)
  {
    if d.Issue? && Present(d.comments, i) {
      PartHasKey(names, d, Comment, i);
    }
    if d.Issue? && Present(d.transitions, i) {
      PartHasKey(names, d, Transition, i);
    }
    if d.Chat? && Present(d.replies, i) {
      PartHasKey(names, d, Reply, i);
    }
    if d.Pdf? && Present(d.pages, i) {
      PartHasKey(names, d, Page, i);
    }
    if d.Record? && d.parent != "" {
      PartHasKey(names, d, Parent, 0);
      assert PartNode(names, d, Parent, 0).key == "parent:" + d.parent;
    }
  }

  // ---------------------------------------------------------------- which documents share their keys

  /** The two are of one mapper and of one project, channel, thread, file or collection. */
  predicate SamePlace(d: Document, d': Document) {
    match (d, d')
    case (Issue(a, _, _, _, _, _), Issue(b, _, _, _, _, _)) => a == b
    case (Chat(_, a, _, _, _, _), Chat(_, b, _, _, _, _)) => a == b
    case (Mail(_, a, _, _, _, _), Mail(_, b, _, _, _, _)) => a == b
    case (Pdf(a, _, _, _), Pdf(b, _, _, _)) => a == b
    case (Record(a, _, _, _, _), Record(b, _, _, _, _)) => a == b
    case (_, _) => false
  }

  lemma SameBehind(prefix: string, a: string, b: string)
    ensures prefix + a == prefix + b <==> a == b
  {
    assert (prefix + a)[|prefix|..] == a && (prefix + b)[|prefix|..] == b;
  }

  lemma WorldKeyStarts(d: Document)
    ensures |WorldKey(d)| >= 2
    ensures WorldKey(d)[..2] == match d
                                case Issue(_, _, _, _, _, _) => "pr"
                                case Chat(_, _, _, _, _, _) => "ch"
                                case Mail(_, _, _, _, _, _) => "th"
                                case Pdf(_, _, _, _) => "pd"
                                case Record(_, _, _, _, _) => "co"
  {
  }

  lemma RootKeyStarts(d: Document)
    ensures |RootKey(d)| >= 1
    ensures RootKey(d)[0] == match d
                             case Issue(_, _, _, _, _, _) => 'i'
                             case Chat(_, _, _, _, _, _) => 'm'
                             case Mail(_, _, _, _, _, _) => 'e'
                             case Pdf(_, _, _, _) => 'p'
                             case Record(_, _, _, _, _) => 'r'
  {
  }

  /** Two documents of a connector are put into one world exactly when they are of one place: chats of one channel name
      and mails of one thread share it even if they are of different workspaces or mailboxes. */
  lemma WorldIsSharedExactlyWhen(d: Document, d': Document)
    ensures WorldKey(d) == WorldKey(d') <==> SamePlace(d, d')
  {
    match (d, d')
    case (Issue(a, _, _, _, _, _), Issue(b, _, _, _, _, _)) => SameBehind("project:", a, b);
    case (Chat(_, a, _, _, _, _), Chat(_, b, _, _, _, _)) => SameBehind("channel:", a, b);
    case (Mail(_, a, _, _, _, _), Mail(_, b, _, _, _, _)) => SameBehind("thread:", a, b);
    case (Pdf(a, _, _, _), Pdf(b, _, _, _)) => SameBehind("pdf:", a, b);
    case (Record(a, _, _, _, _), Record(b, _, _, _, _)) => SameBehind("collection:", a, b);
    case (_, _) => WorldKeyStarts(d); WorldKeyStarts(d');
  }

  /** The roots of two documents have one key exactly when both are PDFs or one mapper finds one external id. */
  lemma RootKeyIsSharedExactlyWhen(d: Document, d': Document)
    ensures RootKey(d) == RootKey(d')
       <==> || (d.Pdf? && d'.Pdf?)
            || (d.external == d'.external && ((d.Issue? && d'.Issue?) || (d.Chat? && d'.Chat?) || (d.Mail? && d'.Mail?)
                                              || (d.Record? && d'.Record?)))
  {
    if d.Issue? && d'.Issue? {
      SameBehind("issue:", d.external, d'.external);
    } else if d.Chat? && d'.Chat? {
      SameBehind("message:", d.external, d'.external);
    } else if d.Mail? && d'.Mail? {
      SameBehind("email:", d.external, d'.external);
    } else if d.Record? && d'.Record? {
      SameBehind("record:", d.external, d'.external);
    }
    RootKeyStarts(d);
    RootKeyStarts(d');
  }

  /** The innermost world bears the name of the place, or of the document where that has a world of its own; the one it
      lies in that of the workspace or mailbox. */
  lemma WorldsAreNamed(d: Document)
    ensures Worlds(d)[|Worlds(d)| - 1].name == match d
                                               case Issue(project, _, _, _, _, _) => project
                                               case Chat(_, channel, _, _, _, _) => channel
                                               case Record(collection, _, _, _, _) => collection
                                               case _ => d.title
    ensures |Worlds(d)| == 2 <==> d.Chat? || d.Mail?
    ensures d.Chat? ==> Worlds(d)[0].name == d.workspace
    ensures d.Mail? ==> Worlds(d)[0].name == d.mailbox
    ensures forall w :: w in Worlds(d) ==> w.at == d.at
  {
  }

  // ---------------------------------------------------------------- what every plan has

  ghost predicate HasKey(nodes: seq<PlannedNode>, key: string) { exists node :: node in nodes && node.key == key }

  /** A world of this key, which no other one names as its parent. */
  ghost predicate HasInnermost(worlds: seq<ImportWorlds.PlannedWorld>, key: string) {
    (exists w :: w in worlds && w.key == key) && forall w :: w in worlds ==> w.parentKey != Some(key)
  }

  /** One world names no parent, neither a planned nor a stored one; all others name planned ones. */
  ghost predicate OneTop(worlds: seq<ImportWorlds.PlannedWorld>) {
    && (forall v, w :: v in worlds && w in worlds && v.parentKey.None? && w.parentKey.None? ==> v == w)
    && (forall w :: w in worlds ==> w.parentWorldId.None?)
  }

  /** One world, or one in another. */
  ghost predicate OneOrNested(worlds: seq<ImportWorlds.PlannedWorld>) {
    || (|worlds| == 1 && IsTop(worlds[0]))
    || (|worlds| == 2 && IsTop(worlds[0]) && worlds[1].parentWorldId.None? && worlds[0].key != worlds[1].key
        && worlds[1].parentKey == Some(worlds[0].key))
  }

  ghost predicate IsTop(w: ImportWorlds.PlannedWorld) { w.parentKey.None? && w.parentWorldId.None? }

  lemma NestedGrounded(worlds: seq<ImportWorlds.PlannedWorld>)
    requires OneOrNested(worlds)
    ensures forall w :: w in worlds ==> ImportWorlds.Grounded(worlds, w)
  {
    assert worlds[0] in worlds && ImportWorlds.GroundedIn(worlds, worlds[0], 0);
    if |worlds| == 2 {
      assert ImportWorlds.GroundedIn(worlds, worlds[1], 1);
    }
  }

  lemma NestedInnermost(worlds: seq<ImportWorlds.PlannedWorld>)
    requires OneOrNested(worlds)
    ensures OneTop(worlds) && HasInnermost(worlds, worlds[|worlds| - 1].key)
  {
    assert worlds[|worlds| - 1] in worlds;
  }

  lemma NestedDistinct(worlds: seq<ImportWorlds.PlannedWorld>)
    requires OneOrNested(worlds)
    ensures ImportWorlds.DistinctKeys(worlds)
  {
    if |worlds| == 1 {
      assert worlds == [worlds[0]];
    } else {
      assert worlds == [worlds[0], worlds[1]];
    }
  }

  lemma WorldsAreNested(d: Document)
    ensures OneOrNested(Worlds(d))
  {
    var worlds := Worlds(d);
    if |worlds| == 2 {
      assert worlds[0].key[0] != worlds[1].key[0];
    }
  }

  lemma WorldsGrounded(d: Document)
    ensures ImportWorlds.DistinctKeys(Worlds(d)) && HasInnermost(Worlds(d), WorldKey(d)) && OneTop(Worlds(d))
    ensures forall w :: w in Worlds(d) ==> ImportWorlds.Grounded(Worlds(d), w)
  {
    WorldsAreNested(d);
    NestedGrounded(Worlds(d));
    NestedInnermost(Worlds(d));
    NestedDistinct(Worlds(d));
  }

  lemma RootHasKey(names: Names, d: Document)
    ensures HasKey(WithAllParts(names, d).nodes, RootKey(d))
  {
    NodesAre(names, d, RootNode(names, d));
  }

  lemma PartHasKey(names: Names, d: Document, kind: Kind, i: nat)
    requires Present(PartsOf(d, kind), i)
    ensures PartNode(names, d, kind, i) in WithAllParts(names, d).nodes
    ensures HasKey(WithAllParts(names, d).nodes, Key(names, kind, PartsOf(d, kind), i))
  {
    var node := PartNode(names, d, kind, i);
    NodesAre(names, d, node);
    assert IsPartNode(names, d, kind, node);
  }

  lemma EdgeIsBetweenNodes(names: Names, d: Document, edge: PlannedEdge)
    requires edge in WithAllParts(names, d).edges
    ensures HasKey(WithAllParts(names, d).nodes, edge.from) && HasKey(WithAllParts(names, d).nodes, edge.to)
  {
    EdgesAre(names, d, edge);
    var kind :| IsPartEdge(names, d, kind, edge);
    var i := PartOfEdge(names, d, kind, edge);
    RootHasKey(names, d);
    PartHasKey(names, d, kind, i);
  }

  /** Whatever the payload holds and whichever mapper it is, the worlds of the plan can be created, one of them at the
      top, every node lies in the innermost one, every edge joins two nodes of the plan, contracts and groundings are
      those of the nodes, and every action is a supersession that names a node of the plan. */
  lemma PlanIsClosed(names: Names, d: Document, update: Option<Update>)
    ensures var plan := PlanOf(names, d, update);
            && ImportWorlds.DistinctKeys(plan.worlds)
            && (forall w :: w in plan.worlds ==> ImportWorlds.Grounded(plan.worlds, w))
            && OneTop(plan.worlds)
            && (forall node :: node in plan.nodes ==> HasInnermost(plan.worlds, node.worldKey))
            && (forall edge :: edge in plan.edges ==> HasKey(plan.nodes, edge.from) && HasKey(plan.nodes, edge.to))
            && (forall key :: key in plan.contracts <==> HasKey(plan.nodes, key))
            && (forall key :: key in plan.groundings <==> HasKey(plan.nodes, key))
            && (forall a :: a in plan.actions ==> !a.deletes && a.key.Some? && HasKey(plan.nodes, a.key.value))
  {
    var plan, bare := PlanOf(names, d, update), WithAllParts(names, d);
    OnlyPartsAdded(names, d, |KINDS|);
    assert plan.worlds == Worlds(d) && plan.nodes == bare.nodes && plan.edges == bare.edges;
    WorldsGrounded(d);
    NodesAre(names, d, RootNode(names, d));
    forall node | node in plan.nodes
      ensures HasInnermost(plan.worlds, node.worldKey)
    {
      NodesAre(names, d, node);
    }
    forall edge | edge in plan.edges
      ensures HasKey(plan.nodes, edge.from) && HasKey(plan.nodes, edge.to)
    {
      EdgeIsBetweenNodes(names, d, edge);
    }
    assert plan.contracts == Keys(plan.nodes) && plan.groundings == Keys(plan.nodes);
    forall key
      ensures key in Keys(plan.nodes) <==> HasKey(plan.nodes, key)
    {
      KeysAre(plan.nodes, key);
    }
    assert RootNode(names, d) in plan.nodes;
  }

  lemma KeysAre(nodes: seq<PlannedNode>, key: string)
    ensures key in Keys(nodes) <==> HasKey(nodes, key)
  {
    if HasKey(nodes, key) {
      var node :| node in nodes && node.key == key;
      var i :| 0 <= i < |nodes| && nodes[i] == node;
      assert Keys(nodes)[i] == key;
    }
    if key in Keys(nodes) {
      var i :| 0 <= i < |Keys(nodes)| && Keys(nodes)[i] == key;
      assert nodes[i] in nodes;
    }
  }

  // ---------------------------------------------------------------- what the import makes of the keys

  /** The import notes the id of every node under its key, so the last node of a key counts. */
  function NodeIds(nodes: seq<PlannedNode>): map<string, string> {
    if nodes == [] then map[] else NodeIds(nodes[..|nodes| - 1])[nodes[|nodes| - 1].key := nodes[|nodes| - 1].id]
  }

  lemma {:induction false} NodeIdsAre(nodes: seq<PlannedNode>, key: string)
    ensures key in NodeIds(nodes) <==> HasKey(nodes, key)
    ensures key in NodeIds(nodes) ==> PlannedHere(nodes, key, NodeIds(nodes)[key])
  {
    if nodes != [] {
      var front, last := nodes[..|nodes| - 1], nodes[|nodes| - 1];
      NodeIdsAre(front, key);
      assert nodes == front + [last];
      if last.key == key {
        assert last in nodes;
      }
    }
  }

  ghost predicate PlannedHere(nodes: seq<PlannedNode>, key: string, id: string) {
    exists node :: node in nodes && node.key == key && node.id == id
  }

  /** The ids that the import of the document notes. */
  function Ids(names: Names, d: Document): map<string, string> { NodeIds(WithAllParts(names, d).nodes) }

  /** Some edge of the plan joins the two ids. */
  ghost predicate Linked(names: Names, d: Document, from: string, to: string) {
    exists edge :: edge in WithAllParts(names, d).edges && Joins(names, d, edge, from, to)
  }

  ghost predicate Joins(names: Names, d: Document, edge: PlannedEdge, from: string, to: string) {
    Lookup(Ids(names, d), edge.from) == Some(from) && Lookup(Ids(names, d), edge.to) == Some(to)
  }

  /** The edge between the part and the root is there, between the very nodes of the two. */
  ghost predicate PartIsLinked(names: Names, d: Document, kind: Kind, i: nat)
    requires i < |PartsOf(d, kind)|
  {
    var root, part := RootNode(names, d).id, PartNode(names, d, kind, i).id;
    if kind == Transition then Linked(names, d, part, root) else Linked(names, d, root, part)
  }

  /** Parts of one kind that share a label have one text. */
  ghost predicate LabelsTell(names: Names, kind: Kind, parts: seq<Part>) {
    forall i: nat, j: nat ::
      Present(parts, i) && Present(parts, j) && Label(names, kind, parts, i) == Label(names, kind, parts, j) ==>
        parts[i].text == parts[j].text
  }

  lemma RootIsNoted(names: Names, d: Document)
    ensures Lookup(Ids(names, d), RootKey(d)) == Some(RootNode(names, d).id)
  {
    var nodes := WithAllParts(names, d).nodes;
    NodesAre(names, d, RootNode(names, d));
    NodeIdsAre(nodes, RootKey(d));
    var node :| node in nodes && node.key == RootKey(d) && node.id == NodeIds(nodes)[RootKey(d)];
    NodesAre(names, d, node);
    if node != RootNode(names, d) {
      var kind :| IsPartNode(names, d, kind, node);
      var i := PartOfNode(names, d, kind, node);
      RootKeyDiffers(names, d, kind, PartsOf(d, kind), i);
      assert false;
    }
  }

  /** Under the key of a part the import notes the id of a part with this label. */
  lemma PartIsNoted(names: Names, d: Document, kind: Kind, i: nat) returns (j: nat)
    requires Present(PartsOf(d, kind), i)
    ensures var parts, key := PartsOf(d, kind), Key(names, kind, PartsOf(d, kind), i);
            && Present(parts, j) && Label(names, kind, parts, j) == Label(names, kind, parts, i)
            && Lookup(Ids(names, d), key) == Some(names.nodeId(key, parts[j].text))
  {
    var nodes, parts := WithAllParts(names, d).nodes, PartsOf(d, kind);
    var own := PartNode(names, d, kind, i);
    PartHasKey(names, d, kind, i);
    NodeIdsAre(nodes, own.key);
    var node :| node in nodes && node.key == own.key && node.id == NodeIds(nodes)[own.key];
    NodesAre(names, d, node);
    RootKeyDiffers(names, d, kind, parts, i);
    var kind' :| IsPartNode(names, d, kind', node);
    var k := PartOfNode(names, d, kind', node);
    KeysAgreeExactlyWhen(names, kind, parts, i, kind', PartsOf(d, kind'), k);
    j := k;
  }

  lemma OwnEdgeJoins(names: Names, d: Document, kind: Kind, i: nat)
    requires Present(PartsOf(d, kind), i) && LabelsTell(names, kind, PartsOf(d, kind))
    ensures PartIsLinked(names, d, kind, i)
  {
    var edge := PartEdge(names, d, kind, i);
    EdgesAre(names, d, edge);
    assert IsPartEdge(names, d, kind, edge);
    RootIsNoted(names, d);
    var j := PartIsNoted(names, d, kind, i);
    assert edge in WithAllParts(names, d).edges;
  }

  /** What the ends of the edge of a part are noted as. */
  lemma EdgeEnds(names: Names, d: Document, kind: Kind, k: nat) returns (id: string)
    requires Present(PartsOf(d, kind), k)
    ensures var edge, key := PartEdge(names, d, kind, k), Key(names, kind, PartsOf(d, kind), k);
            && Lookup(Ids(names, d), key) == Some(id) && IsIdOf(names, key, id)
            && Lookup(Ids(names, d), RootKey(d)) == Some(RootNode(names, d).id) && key != RootKey(d)
            && (kind == Transition ==> edge.from == key && edge.to == RootKey(d))
            && (kind != Transition ==> edge.from == RootKey(d) && edge.to == key)
  {
    var j := PartIsNoted(names, d, kind, k);
    RootIsNoted(names, d);
    RootKeyDiffers(names, d, kind, PartsOf(d, kind), k);
    id := names.nodeId(Key(names, kind, PartsOf(d, kind), k), PartsOf(d, kind)[j].text);
  }

  /** The id is that of a node with the key. */
  ghost predicate IsIdOf(names: Names, key: string, id: string) { exists text :: id == names.nodeId(key, text) }

  lemma IdsTellKeys(names: Names, key: string, key': string, id: string)
    requires Separates(names) && IsIdOf(names, key, id) && IsIdOf(names, key', id)
    ensures key == key'
  {
  }

  /** An edge between the ids of a part and the root is that of a part of this kind and label. */
  lemma JoiningEdge(names: Names, d: Document, kind: Kind, i: nat, edge: PlannedEdge)
    requires Separates(names) && Present(PartsOf(d, kind), i) && edge in WithAllParts(names, d).edges
    requires var root, part := RootNode(names, d).id, PartNode(names, d, kind, i).id;
             if kind == Transition then Joins(names, d, edge, part, root) else Joins(names, d, edge, root, part)
    ensures var node := PartNode(names, d, kind, i); Lookup(Ids(names, d), node.key) == Some(node.id)
  {
    EdgesAre(names, d, edge);
    var kind' :| IsPartEdge(names, d, kind', edge);
    var k := PartOfEdge(names, d, kind', edge);
    var id := EdgeEnds(names, d, kind', k);
    var node, root := PartNode(names, d, kind, i), RootNode(names, d);
    assert IsIdOf(names, node.key, node.id) && IsIdOf(names, root.key, root.id);
    var key' := Key(names, kind', PartsOf(d, kind'), k);
    if (kind == Transition) == (kind' == Transition) {
      IdsTellKeys(names, node.key, key', node.id);
    } else {
      IdsTellKeys(names, root.key, key', root.id);
    }
  }

  lemma LinkNamesPart(names: Names, d: Document, kind: Kind, i: nat)
    requires Separates(names) && Present(PartsOf(d, kind), i) && PartIsLinked(names, d, kind, i)
    ensures var node := PartNode(names, d, kind, i); Lookup(Ids(names, d), node.key) == Some(node.id)
  {
    var root, node := RootNode(names, d).id, PartNode(names, d, kind, i);
    var edge :| edge in WithAllParts(names, d).edges
                && if kind == Transition then Joins(names, d, edge, node.id, root)
                   else Joins(names, d, edge, root, node.id);
    JoiningEdge(names, d, kind, i, edge);
  }

  lemma LinkedNamesakesAgree(names: Names, d: Document, kind: Kind, i: nat, j: nat)
    requires Separates(names) && Present(PartsOf(d, kind), i) && Present(PartsOf(d, kind), j)
    requires Label(names, kind, PartsOf(d, kind), i) == Label(names, kind, PartsOf(d, kind), j)
    requires PartIsLinked(names, d, kind, i) && PartIsLinked(names, d, kind, j)
    ensures PartsOf(d, kind)[i].text == PartsOf(d, kind)[j].text
  {
    LinkNamesPart(names, d, kind, i);
    LinkNamesPart(names, d, kind, j);
  }

  /** Every part of a kind ends up joined to its root by an edge of its own exactly when no two different texts of the
      kind share a label: what the part brings, or its index where it brings none. */
  lemma PartsAreLinkedExactlyWhen(names: Names, d: Document, kind: Kind)
    requires Separates(names)
    ensures (forall i :: Present(PartsOf(d, kind), i) ==> PartIsLinked(names, d, kind, i))
       <==> LabelsTell(names, kind, PartsOf(d, kind))
  {
    var parts := PartsOf(d, kind);
    if LabelsTell(names, kind, parts) {
      forall i | Present(parts, i)
        ensures PartIsLinked(names, d, kind, i)
      {
        OwnEdgeJoins(names, d, kind, i);
      }
    } else if forall i :: Present(parts, i) ==> PartIsLinked(names, d, kind, i) {
      var i: nat, j: nat :| Present(parts, i) && Present(parts, j)
                            && Label(names, kind, parts, i) == Label(names, kind, parts, j)
                            && parts[i].text != parts[j].text;
      LinkedNamesakesAgree(names, d, kind, i, j);
      assert false;
    }
  }

  /** Of two parts with one label and two texts, all that a document has, the second takes the key. */
  lemma FirstLosesItsEdge(names: Names, d: Document, kind: Kind)
    requires Separates(names) && OnlyKind(d, kind) && |PartsOf(d, kind)| == 2
    requires Present(PartsOf(d, kind), 0) && Present(PartsOf(d, kind), 1)
    requires Label(names, kind, PartsOf(d, kind), 0) == Label(names, kind, PartsOf(d, kind), 1)
    requires PartsOf(d, kind)[0].text != PartsOf(d, kind)[1].text
    ensures !PartIsLinked(names, d, kind, 0)
  {
    if PartIsLinked(names, d, kind, 0) {
      SecondTakesKey(names, d, kind);
      LinkNamesPart(names, d, kind, 0);
      assert false;
    }
  }

  lemma SecondTakesKey(names: Names, d: Document, kind: Kind)
    requires OnlyKind(d, kind) && |PartsOf(d, kind)| == 2
    requires Present(PartsOf(d, kind), 0) && Present(PartsOf(d, kind), 1)
    requires Label(names, kind, PartsOf(d, kind), 0) == Label(names, kind, PartsOf(d, kind), 1)
    ensures Lookup(Ids(names, d), PartNode(names, d, kind, 0).key) == Some(PartNode(names, d, kind, 1).id)
  {
    var first, second := PartNode(names, d, kind, 0), PartNode(names, d, kind, 1);
    TwoNodes(names, kind, PartsOf(d, kind), WorldKey(d));
    OneKind(names, d, kind);
    var nodes := WithAllParts(names, d).nodes;
    assert nodes == [RootNode(names, d), first] + [second];
    assert NodeIds(nodes)[second.key] == second.id;
  }

  lemma TwoNodes(names: Names, kind: Kind, parts: seq<Part>, world: string)
    requires |parts| == 2 && Present(parts, 0) && Present(parts, 1)
    ensures PartNodes(names, kind, parts, 2, world)
         == [NodeOf(names, kind, parts, 0, world), NodeOf(names, kind, parts, 1, world)]
  {
    assert PartNodes(names, kind, parts, 0, world) == [];
    assert PartNodes(names, kind, parts, 1, world) == [NodeOf(names, kind, parts, 0, world)];
  }

  /** A comment with the id "1" and one without an id behind it: the second takes the key, and no edge joins
      the first. */
  lemma CommentLosesItsEdge(names: Names)
    requires Separates(names) && names.decimal(1) == "1"
    ensures !PartIsLinked(names, Issue("p", "i", "t", 0, [Part(Some("1"), "a"), Part(None, "b")], []), Comment, 0)
  {
    FirstLosesItsEdge(names, Issue("p", "i", "t", 0, [Part(Some("1"), "a"), Part(None, "b")], []), Comment);
  }

  /** Two pages whose labels are not numbers: both are page NaN, and no edge joins the first. Likewise a page 2 in front
      of a second page without a number, as pages count from one. */
  lemma PageLosesItsEdge(names: Names)
    requires Separates(names)
    ensures names.decimal(2) == "2" ==>
              !PartIsLinked(names, Pdf("d", "t", 0, [Part(Some("2"), "a"), Part(None, "b")]), Page, 0)
    ensures !PartIsLinked(names, Pdf("d", "t", 0, [Part(Some("NaN"), "a"), Part(Some("NaN"), "b")]), Page, 0)
  {
    FirstLosesItsEdge(names, Pdf("d", "t", 0, [Part(Some("NaN"), "a"), Part(Some("NaN"), "b")]), Page);
    if names.decimal(2) == "2" {
      FirstLosesItsEdge(names, Pdf("d", "t", 0, [Part(Some("2"), "a"), Part(None, "b")]), Page);
    }
  }

  // ---------------------------------------------------------------- updates

  /** Every id of a node says that a connector made it. */
  const PREFIX := "connector:"

  ghost predicate Marked(names: Names) { forall k, t :: PREFIX <= names.nodeId(k, t) }

  lemma KeysAreUnmarked(names: Names, d: Document, kind: Kind, parts: seq<Part>, i: nat)
    requires i < |parts|
    ensures !(PREFIX <= RootKey(d)) && !(PREFIX <= Key(names, kind, parts, i))
  {
    var k, r := Key(names, kind, parts, i), RootKey(d);
    assert k[0] == Prefix(kind)[0] && k[2] == Prefix(kind)[2];
    assert PREFIX[0] == 'c' && PREFIX[2] == 'n' && r[0] != 'c';
  }

  lemma IdsAreNoKeys(names: Names, d: Document, id: string)
    requires PREFIX <= id
    ensures id !in Ids(names, d)
  {
    var nodes := WithAllParts(names, d).nodes;
    NodeIdsAre(nodes, id);
    if HasKey(nodes, id) {
      var node :| node in nodes && node.key == id;
      NodesAre(names, d, node);
      KeysAreUnmarked(names, d, Comment, [Part(None, "")], 0);
      if node != RootNode(names, d) {
        var kind :| IsPartNode(names, d, kind, node);
        var i := PartOfNode(names, d, kind, node);
        KeysAreUnmarked(names, d, kind, PartsOf(d, kind), i);
      }
      assert false;
    }
  }

  /** The supersessions of an update resolve against the nodes of its own plan whatever parts these are: no tombstone,
      and for every node of the item before it an edge from the very node of the root. */
  lemma UpdateSupersedesPrior(names: Names, d: Document, update: Update,
                              world: string -> Option<string>, mint: (string, int) -> string)
    requires Marked(names) && forall id :: id in update.prior ==> PREFIX <= id
    ensures var actions := PlanOf(names, d, Some(update)).actions;
            var c := ImportActions.Context(NodeIds(PlanOf(names, d, Some(update)).nodes), world, mint);
            && ImportActions.AllFine(c, actions, |actions|) && |actions| == |update.prior|
            && ImportActions.Tombstones(c, actions, |actions|) == []
            && forall i :: 0 <= i < |update.prior| ==>
                 ImportActions.Edges(c, actions, |actions|)[i]
                 == ImportActions.Edge(RootNode(names, d).id, update.prior[i])
  {
    var c := ImportActions.Context(Ids(names, d), world, mint);
    RootIsNoted(names, d);
    IdsAreNoKeys(names, d, RootNode(names, d).id);
    forall id | id in update.prior
      ensures id !in c.planned
    {
      IdsAreNoKeys(names, d, id);
    }
    var actions := PlanOf(names, d, Some(update)).actions;
    OnlyPartsAdded(names, d, |KINDS|);
    assert actions == ImportActions.UpdatePlan(update.prior, RootKey(d), d.external, update.at);
    ImportActions.UpdateSupersedesAll(c, update.prior, RootKey(d), d.external, update.at);
  }
}
