/** What a canvas shows, what has no place on it, and which nodes are connected. */
module CanvasProjection {
  import opened Collections
  // There is a node for each visible placement; orphaned placements are re-anchored to the plan they
  // always meant. What a node displays beyond its entity is not modelled.

  import opened Options
  import opened Strings
  import opened Sorting
  import opened CanvasStore

  datatype Item = Item(id: string, path: string, workspace: string, branch: string)

  datatype Session = Session(id: string, workspace: string, branch: string, plan: Option<string>)

  datatype NodeState = Shown | Stale | Forbidden

  datatype Node = Node(
    id: string, kind: Kind, state: NodeState, ref: EntityRef, x: Number, y: Number, collapsed: bool, revision: int,
    plan: Option<Item>, session: Option<Session>)

  datatype Connection = Connection(source: string, target: string)

  datatype Projection = Projection(nodes: seq<Node>, connections: seq<Connection>, unplaced: seq<EntityRef>)

  function WorkspaceNode(id: string): string { "workspace:" + id }

  function PlanNode(id: string): string { "plan:" + id }

  function SessionNode(id: string): string { "session:" + id }

  function PlanRef(item: Item): EntityRef {
    EntityRef(Plan, item.workspace, item.id, item.path, item.branch, "")
  }

  function SessionRef(s: Session): EntityRef {
    EntityRef(CanvasStore.Session, s.workspace, "", "", s.branch, s.id)
  }

  lemma PlanNodesDiffer(a: string, b: string)
    requires PlanNode(a) == PlanNode(b)
    ensures a == b
  {
    assert a == PlanNode(a)[5..] && b == PlanNode(b)[5..];
  }

  // ------------------------------------------------------------------ paths

  function Slashed(path: string): string {
    seq(|path|, i requires 0 <= i < |path| => if path[i] == '\\' then '/' else path[i])
  }

  function TrimLeadingSlashes(s: string): string {
    if s != "" && s[0] == '/' then TrimLeadingSlashes(s[1..]) else s
  }

  function TrimTrailingSlashes(s: string): string {
    if s != "" && s[|s| - 1] == '/' then TrimTrailingSlashes(s[..|s| - 1]) else s
  }

  function PathKey(path: string): string {
    TrimTrailingSlashes(TrimLeadingSlashes(Slashed(path)))
  }

  /** The path of a ticket: plans, a service, a ticket. */
  predicate IsPlanPath(path: string) {
    var parts := Split(PathKey(path), '/');
    |parts| == 3 && parts[0] == "plans" && !IsBlank(parts[1]) && !IsBlank(parts[2])
  }

  // ------------------------------------------------------------------ one placement

  /** What the projection looks things up in; of two items with one ID or path the later one counts. */
  datatype View = View(items: map<string, Item>, byPath: map<string, Item>, sessions: map<string, Session>,
    forbidden: bool)

  function ItemsById(items: seq<Item>): map<string, Item> {
    if items == [] then map[] else ItemsById(items[..|items| - 1])[items[|items| - 1].id := items[|items| - 1]]
  }

  function ItemsByPath(items: seq<Item>): map<string, Item> {
    if items == [] then map[]
    else ItemsByPath(items[..|items| - 1])[PathKey(items[|items| - 1].path) := items[|items| - 1]]
  }

  function SessionsById(sessions: seq<Session>): map<string, Session> {
    if sessions == [] then map[]
    else SessionsById(sessions[..|sessions| - 1])[sessions[|sessions| - 1].id := sessions[|sessions| - 1]]
  }

  function ViewOf(items: seq<Item>, sessions: seq<Session>, forbidden: bool): View {
    View(ItemsById(items), ItemsByPath(items), SessionsById(sessions), forbidden)
  }

  /** What becomes of a placement: nothing, a node, or a node unless its plan has one already. */
  datatype Fate = Dropped | Projected(node: Node) | Orphan(item: Item)

  function NodeOf(p: Placement, state: NodeState): Node {
    Node(p.node, p.ref.kind, state, p.ref, p.x, p.y, p.collapsed, p.revision, None, None)
  }

  function FateOf(p: Placement, view: View): Fate {
    var node := NodeOf(p, Shown);
    if p.hidden then Dropped
    else if view.forbidden then Projected(node.(state := Forbidden, ref := p.ref.(path := "")))
    else
      match p.ref.kind
      case Workspace => Projected(node)
      case Plan =>
        var key := PathKey(p.ref.path);
        if p.ref.item in view.items then Projected(node.(plan := Some(view.items[p.ref.item])))
        else if !IsPlanPath(p.ref.path) then Dropped
        else if key in view.byPath then Orphan(view.byPath[key])
        else Projected(node.(state := Stale))
      case Session =>
        if p.ref.session in view.sessions then Projected(node.(session := Some(view.sessions[p.ref.session])))
        else Projected(node.(state := Stale))
      case Unsupported => Projected(node.(state := Stale))
  }

  /** The orphan under the identity its plan has now. */
  function Adopted(p: Placement, item: Item): Node {
    NodeOf(p, Shown).(ref := p.ref.(item := item.id), plan := Some(item))
  }

  // ------------------------------------------------------------------ all placements

  function NodeIds(placements: seq<Placement>): set<string> {
    set i | 0 <= i < |placements| :: placements[i].node
  }

  datatype Progress = Progress(nodes: seq<Node>, placed: set<string>)

  function Advance(s: Progress, p: Placement, view: View): Progress {
    match FateOf(p, view)
    case Dropped => s
    case Projected(node) => s.(nodes := s.nodes + [node])
    case Orphan(item) =>
      if PlanNode(item.id) in s.placed then s
      else Progress(s.nodes + [Adopted(p, item)], s.placed + {PlanNode(item.id)})
  }

  /** The nodes of the placements so far, and every node ID that counts as placed. */
  function Project(placements: seq<Placement>, initial: set<string>, view: View): Progress {
    if placements == [] then Progress([], initial)
    else Advance(Project(placements[..|placements| - 1], initial, view), placements[|placements| - 1], view)
  }

  /** A visible placement of a plan that has a new identity. */
  predicate AnchorsTo(p: Placement, view: View, id: string) {
    FateOf(p, view).Orphan? && FateOf(p, view).item.id == id
  }

  /** A node ID is placed if and only if a placement has it, or an orphan was re-anchored to its plan. */
  lemma {:induction false} PlacedIs(placements: seq<Placement>, initial: set<string>, view: View, id: string)
    ensures PlanNode(id) in Project(placements, initial, view).placed <==>
      PlanNode(id) in initial || exists i :: 0 <= i < |placements| && AnchorsTo(placements[i], view, id)
    ensures initial <= Project(placements, initial, view).placed
  {
    if placements != [] {
      var n := |placements| - 1;
      var before := placements[..n];
      PlacedIs(before, initial, view, id);
      var fate := FateOf(placements[n], view);
      if fate.Orphan? && PlanNode(fate.item.id) == PlanNode(id) { PlanNodesDiffer(fate.item.id, id); }
      assert AnchorsTo(placements[n], view, id) <==> fate.Orphan? && PlanNode(fate.item.id) == PlanNode(id);
      if i :| 0 <= i < n && AnchorsTo(before[i], view, id) { assert AnchorsTo(placements[i], view, id); }
      if i :| 0 <= i < |placements| && AnchorsTo(placements[i], view, id) {
        if i < n { assert AnchorsTo(before[i], view, id); }
      }
    }
  }

  predicate DistinctPlacements(placements: seq<Placement>) {
    forall i, j :: 0 <= i < j < |placements| ==> placements[i].node != placements[j].node
  }

  /** A plan is placed under the node ID that its item ID gives. */
  predicate PlanNodesMatch(placements: seq<Placement>) {
    forall i :: 0 <= i < |placements| && placements[i].ref.kind == Plan ==>
      placements[i].node == PlanNode(placements[i].ref.item)
  }

  predicate KeyedById(view: View) {
    forall id :: id in view.items ==> view.items[id].id == id
  }

  lemma {:induction false} ItemsAreKeyed(items: seq<Item>)
    ensures forall id :: id in ItemsById(items) ==> ItemsById(items)[id].id == id && ItemsById(items)[id] in items
    ensures forall x :: x in items ==> x.id in ItemsById(items)
  {
    if items != [] {
      ItemsAreKeyed(items[..|items| - 1]);
      assert items == items[..|items| - 1] + [items[|items| - 1]];
    }
  }

  /** A plan node is where its item belongs, or it was adopted because nothing was there. */
  ghost predicate Anchored(n: Node, initial: set<string>) {
    n.plan.Some? ==> n.id == PlanNode(n.plan.value.id) || PlanNode(n.plan.value.id) !in initial
  }

  ghost predicate OnePlanNodeEach(nodes: seq<Node>) {
    forall i, j :: 0 <= i < j < |nodes| && nodes[i].plan.Some? && nodes[j].plan.Some? ==>
      nodes[i].plan.value.id != nodes[j].plan.value.id
  }

  /** What the nodes so far have in common. */
  ghost predicate Tidy(s: Progress, seen: set<string>, initial: set<string>) {
    && OnePlanNodeEach(s.nodes)
    && (forall i :: 0 <= i < |s.nodes| ==> s.nodes[i].id in seen && Anchored(s.nodes[i], initial))
    && (forall i :: 0 <= i < |s.nodes| && s.nodes[i].plan.Some? ==> PlanNode(s.nodes[i].plan.value.id) in s.placed)
  }

  /** A plan whose node ID is not taken has no node yet. */
  lemma NoNodeYet(s: Progress, seen: set<string>, initial: set<string>, item: Item)
    requires Tidy(s, seen, initial)
    requires PlanNode(item.id) !in s.placed || (PlanNode(item.id) !in seen && PlanNode(item.id) in initial)
    ensures forall i :: 0 <= i < |s.nodes| && s.nodes[i].plan.Some? ==> s.nodes[i].plan.value.id != item.id
  {
    forall i | 0 <= i < |s.nodes| && s.nodes[i].plan.Some? ensures s.nodes[i].plan.value.id != item.id {
      assert Anchored(s.nodes[i], initial) && s.nodes[i].id in seen;
      assert PlanNode(s.nodes[i].plan.value.id) in s.placed;
    }
  }

  lemma NodeStaysTidy(s: Progress, node: Node, placed: set<string>, seen: set<string>, initial: set<string>)
    requires Tidy(s, seen, initial) && s.placed <= placed && Anchored(node, initial)
    requires node.plan.Some? ==>
      && PlanNode(node.plan.value.id) in placed
      && forall i :: 0 <= i < |s.nodes| && s.nodes[i].plan.Some? ==> s.nodes[i].plan.value.id != node.plan.value.id
    ensures Tidy(Progress(s.nodes + [node], placed), seen + {node.id}, initial)
  {
  }

  lemma AdvanceStaysTidy(s: Progress, p: Placement, seen: set<string>, initial: set<string>, view: View)
    requires Tidy(s, seen, initial) && p.node !in seen && p.node in initial && initial <= s.placed && KeyedById(view)
    requires p.ref.kind == Plan ==> p.node == PlanNode(p.ref.item)
    ensures Tidy(Advance(s, p, view), seen + {p.node}, initial)
  {
    match FateOf(p, view)
    case Dropped =>
    case Projected(node) =>
      if node.plan.Some? { NoNodeYet(s, seen, initial, node.plan.value); }
      NodeStaysTidy(s, node, s.placed, seen, initial);
    case Orphan(item) =>
      if PlanNode(item.id) !in s.placed {
        NoNodeYet(s, seen, initial, item);
        NodeStaysTidy(s, Adopted(p, item), s.placed + {PlanNode(item.id)}, seen, initial);
      }
  }

  lemma {:induction false} ProjectionIsTidy(placements: seq<Placement>, initial: set<string>, view: View)
    requires DistinctPlacements(placements) && PlanNodesMatch(placements) && KeyedById(view)
    requires NodeIds(placements) <= initial
    ensures Tidy(Project(placements, initial, view), NodeIds(placements), initial)
    ensures initial <= Project(placements, initial, view).placed
  {
    if placements != [] {
      var n := |placements| - 1;
      var before, p := placements[..n], placements[n];
      NodeIdsOneMore(placements);
      ProjectionIsTidy(before, initial, view);
      assert p.node !in NodeIds(before);
      AdvanceStaysTidy(Project(before, initial, view), p, NodeIds(before), initial, view);
    }
  }

  lemma NodeIdsOneMore(placements: seq<Placement>)
    requires placements != []
    ensures NodeIds(placements) == NodeIds(placements[..|placements| - 1]) + {placements[|placements| - 1].node}
  {
    var n := |placements| - 1;
    var before := placements[..n];
    forall id ensures id in NodeIds(placements) <==> id in NodeIds(before) + {placements[n].node} {
      if id in NodeIds(placements) {
        var i :| 0 <= i < |placements| && placements[i].node == id;
        assert i < n ==> before[i].node == id;
      }
      if id in NodeIds(before) {
        var i :| 0 <= i < n && before[i].node == id;
        assert placements[i].node == id;
      }
      assert placements[n].node in NodeIds(placements);
    }
  }

  // ------------------------------------------------------------------ what is not placed, and connections

  function UnplacedItems(items: seq<Item>, placed: set<string>): seq<EntityRef> {
    if items == [] then []
    else
      var last := items[|items| - 1];
      UnplacedItems(items[..|items| - 1], placed) + if PlanNode(last.id) in placed then [] else [PlanRef(last)]
  }

  function UnplacedSessions(sessions: seq<Session>, placed: set<string>): seq<EntityRef> {
    if sessions == [] then []
    else
      var last := sessions[|sessions| - 1];
      UnplacedSessions(sessions[..|sessions| - 1], placed)
        + if SessionNode(last.id) in placed then [] else [SessionRef(last)]
  }

  function Unplaced(workspace: string, items: seq<Item>, sessions: seq<Session>, placed: set<string>): seq<EntityRef> {
    (if WorkspaceNode(workspace) in placed then [] else [EntityRef(Workspace, workspace, "", "", "", "")])
    + UnplacedItems(items, placed) + UnplacedSessions(sessions, placed)
  }

  lemma {:induction false} UnplacedItemsAre(items: seq<Item>, placed: set<string>, r: EntityRef)
    ensures r in UnplacedItems(items, placed) <==>
      exists i :: 0 <= i < |items| && r == PlanRef(items[i]) && PlanNode(items[i].id) !in placed
  {
    if items != [] {
      var n := |items| - 1;
      var before := items[..n];
      UnplacedItemsAre(before, placed, r);
      if i :| 0 <= i < n && r == PlanRef(before[i]) && PlanNode(before[i].id) !in placed {
        assert items[i] == before[i];
      }
      if i :| 0 <= i < |items| && r == PlanRef(items[i]) && PlanNode(items[i].id) !in placed {
        assert i < n ==> before[i] == items[i];
      }
    }
  }

  lemma {:induction false} UnplacedSessionsAre(sessions: seq<Session>, placed: set<string>)
    ensures forall r :: r in UnplacedSessions(sessions, placed) ==> r.kind == CanvasStore.Session
  {
    if sessions != [] { UnplacedSessionsAre(sessions[..|sessions| - 1], placed); }
  }

  function Ids(nodes: seq<Node>): set<string> {
    set i | 0 <= i < |nodes| :: nodes[i].id
  }

  /** A session node whose plan is on the canvas under its own node ID. */
  predicate Connects(n: Node, ids: set<string>) {
    && n.state != Forbidden && n.kind == CanvasStore.Session && n.session.Some? && n.session.value.plan.Some?
    && PlanNode(n.session.value.plan.value) in ids && PlanNode(n.session.value.plan.value) != n.id
  }

  function ConnectionOf(n: Node): Connection
    requires n.session.Some? && n.session.value.plan.Some?
  {
    Connection(PlanNode(n.session.value.plan.value), n.id)
  }

  function ConnectionKey(c: Connection): SortKey {
    ["session_launched_from:" + c.source + ":" + c.target]
  }

  function Links(nodes: seq<Node>, ids: set<string>): seq<Connection> {
    if nodes == [] then []
    else
      var last := nodes[|nodes| - 1];
      Links(nodes[..|nodes| - 1], ids) + if Connects(last, ids) then [ConnectionOf(last)] else []
  }

  function Connections(nodes: seq<Node>): seq<Connection> {
    Sort(Links(nodes, Ids(nodes)), By(ConnectionKey))
  }

  lemma {:induction false} LinksAre(nodes: seq<Node>, ids: set<string>)
    ensures forall c :: c in Links(nodes, ids) <==> exists n :: n in nodes && Connects(n, ids) && c == ConnectionOf(n)
  {
    if nodes != [] {
      var rest, last := nodes[..|nodes| - 1], nodes[|nodes| - 1];
      LinksAre(rest, ids);
      assert nodes == rest + [last];
      forall c ensures c in Links(nodes, ids) <==> exists n :: n in nodes && Connects(n, ids) && c == ConnectionOf(n) {
        if n :| n in nodes && Connects(n, ids) && c == ConnectionOf(n) {
          assert n in rest || n == last;
        }
        if c in Links(rest, ids) {
          var n :| n in rest && Connects(n, ids) && c == ConnectionOf(n);
          assert n in nodes;
        }
      }
    }
  }

  /** Both ends of a connection are nodes, and they differ. */
  lemma ConnectionsJoinNodes(nodes: seq<Node>, c: Connection)
    requires c in Connections(nodes)
    ensures c.source in Ids(nodes) && c.target in Ids(nodes) && c.source != c.target
    ensures exists n :: n in nodes && n.id == c.target && n.session.Some?
  {
    LinksAre(nodes, Ids(nodes));
    SortContains(Links(nodes, Ids(nodes)), By(ConnectionKey));
    var n :| n in nodes && Connects(n, Ids(nodes)) && c == ConnectionOf(n);
    var i :| 0 <= i < |nodes| && nodes[i] == n;
  }

  // ------------------------------------------------------------------ results

  function ProjectionOf(
    workspace: string, items: seq<Item>, sessions: seq<Session>, placements: seq<Placement>,
    forbidden: bool): Projection
  {
    var s := Project(placements, NodeIds(placements), ViewOf(items, sessions, forbidden));
    Projection(s.nodes, Connections(s.nodes), Unplaced(workspace, items, sessions, s.placed))
  }

  /** No plan is shown twice, whatever mixture of current and orphaned placements there is. */
  lemma NoPlanShownTwice(
    workspace: string, items: seq<Item>, sessions: seq<Session>, placements: seq<Placement>, forbidden: bool)
    requires DistinctPlacements(placements) && PlanNodesMatch(placements)
    ensures OnePlanNodeEach(ProjectionOf(workspace, items, sessions, placements, forbidden).nodes)
  {
    ItemsAreKeyed(items);
    ProjectionIsTidy(placements, NodeIds(placements), ViewOf(items, sessions, forbidden));
  }

  /** A plan is offered as unplaced if and only if no placement has its node ID and no visible orphan
      was re-anchored to it. */
  lemma UnplacedMeaning(
    workspace: string, items: seq<Item>, sessions: seq<Session>, placements: seq<Placement>, forbidden: bool,
    item: Item)
    requires item in items
    ensures PlanRef(item) in ProjectionOf(workspace, items, sessions, placements, forbidden).unplaced <==>
      && PlanNode(item.id) !in NodeIds(placements)
      && !exists i :: 0 <= i < |placements| && AnchorsTo(placements[i], ViewOf(items, sessions, forbidden), item.id)
  {
    var view := ViewOf(items, sessions, forbidden);
    var s := Project(placements, NodeIds(placements), view);
    PlacedIs(placements, NodeIds(placements), view, item.id);
    UnplacedItemsAre(items, s.placed, PlanRef(item));
    UnplacedSessionsAre(sessions, s.placed);
    var k :| 0 <= k < |items| && items[k] == item;
    assert PlanRef(item) in UnplacedItems(items, s.placed) <==> PlanNode(item.id) !in s.placed by {
      if i :| 0 <= i < |items| && PlanRef(item) == PlanRef(items[i]) && PlanNode(items[i].id) !in s.placed {
        assert items[i].id == PlanRef(items[i]).item == item.id;
      }
    }
  }

  // ------------------------------------------------------------------ the loops

  method IndexItems(items: seq<Item>) returns (byId: map<string, Item>, byPath: map<string, Item>)
    ensures byId == ItemsById(items) && byPath == ItemsByPath(items)
  {
    byId, byPath := map[], map[];
    var i := 0;
    while i < |items|
      invariant 0 <= i <= |items|
      invariant byId == ItemsById(items[..i]) && byPath == ItemsByPath(items[..i])
    {
      LastTaken(items, i);
      byId := byId[items[i].id := items[i]];
      byPath := byPath[PathKey(items[i].path) := items[i]];
      i := i + 1;
    }
    assert items[..i] == items;
  }

  method IndexSessions(sessions: seq<Session>) returns (byId: map<string, Session>)
    ensures byId == SessionsById(sessions)
  {
    byId := map[];
    var i := 0;
    while i < |sessions|
      invariant 0 <= i <= |sessions| && byId == SessionsById(sessions[..i])
    {
      LastTaken(sessions, i);
      byId := byId[sessions[i].id := sessions[i]];
      i := i + 1;
    }
    assert sessions[..i] == sessions;
  }

  /** One placement, with the decisions in the order of the code. */
  method ProjectPlacement(p: Placement, view: View, placed: set<string>) returns (shown: seq<Node>, next: set<string>)
    ensures var s := Advance(Progress([], placed), p, view); shown == s.nodes && next == s.placed
  {
    next := placed;
    if p.hidden { return [], next; }
    var node := NodeOf(p, Shown);
    if view.forbidden { return [node.(state := Forbidden, ref := p.ref.(path := ""))], next; }
    match p.ref.kind {
      case Workspace =>
      case Plan =>
        var item: Item;
        if p.ref.item in view.items {
          item := view.items[p.ref.item];
        } else {
          if !IsPlanPath(p.ref.path) { return [], next; }
          var key := PathKey(p.ref.path);
          if key !in view.byPath { return [node.(state := Stale)], next; }
          item := view.byPath[key];
          if PlanNode(item.id) in next { return [], next; }
          next := next + {PlanNode(item.id)};
          node := node.(ref := node.ref.(item := item.id));
        }
        node := node.(plan := Some(item));
      case Session =>
        if p.ref.session !in view.sessions { return [node.(state := Stale)], next; }
        node := node.(session := Some(view.sessions[p.ref.session]));
      case Unsupported =>
        node := node.(state := Stale);
    }
    shown := [node];
  }

  method DerivedConnections(nodes: seq<Node>) returns (connections: seq<Connection>)
    ensures connections == Connections(nodes)
  {
    var ids: set<string> := set i | 0 <= i < |nodes| :: nodes[i].id;
    connections := [];
    var i := 0;
    while i < |nodes|
      invariant 0 <= i <= |nodes| && connections == Links(nodes[..i], ids)
    {
      LastTaken(nodes, i);
      var node := nodes[i];
      if node.state != Forbidden && node.kind == CanvasStore.Session && node.session.Some?
        && node.session.value.plan.Some? {
        var source := PlanNode(node.session.value.plan.value);
        if source in ids && source != node.id { connections := connections + [Connection(source, node.id)]; }
      }
      i := i + 1;
    }
    assert nodes[..i] == nodes;
    connections := Sort(connections, By(ConnectionKey));
  }

  method ListUnplaced(workspace: string, items: seq<Item>, sessions: seq<Session>, placed: set<string>)
    returns (unplaced: seq<EntityRef>)
    ensures unplaced == Unplaced(workspace, items, sessions, placed)
  {
    unplaced := [];
    if WorkspaceNode(workspace) !in placed { unplaced := [EntityRef(Workspace, workspace, "", "", "", "")]; }
    ghost var first := unplaced;
    var i := 0;
    while i < |items|
      invariant 0 <= i <= |items| && unplaced == first + UnplacedItems(items[..i], placed)
    {
      LastTaken(items, i);
      if PlanNode(items[i].id) !in placed { unplaced := unplaced + [PlanRef(items[i])]; }
      i := i + 1;
    }
    assert items[..i] == items;
    var k := 0;
    while k < |sessions|
      invariant 0 <= k <= |sessions|
      invariant unplaced == first + UnplacedItems(items, placed) + UnplacedSessions(sessions[..k], placed)
    {
      LastTaken(sessions, k);
      if SessionNode(sessions[k].id) !in placed { unplaced := unplaced + [SessionRef(sessions[k])]; }
      k := k + 1;
    }
    assert sessions[..k] == sessions;
  }

  method ProjectContext(
    workspace: string, items: seq<Item>, sessions: seq<Session>, placements: seq<Placement>, forbidden: bool)
    returns (projection: Projection)
    ensures projection == ProjectionOf(workspace, items, sessions, placements, forbidden)
  {
    var byId, byPath := IndexItems(items);
    var sessionById := IndexSessions(sessions);
    var view := View(byId, byPath, sessionById, forbidden);
    var placed: set<string> := set i | 0 <= i < |placements| :: placements[i].node;
    ghost var initial := placed;
    var nodes: seq<Node>, i := [], 0;
    while i < |placements|
      invariant 0 <= i <= |placements|
      invariant Progress(nodes, placed) == Project(placements[..i], initial, view)
    {
      LastTaken(placements, i);
      var shown;
      shown, placed := ProjectPlacement(placements[i], view, placed);
      nodes := nodes + shown;
      i := i + 1;
    }
    assert placements[..i] == placements;
    var unplaced := ListUnplaced(workspace, items, sessions, placed);
    var connections := DerivedConnections(nodes);
    projection := Projection(nodes, connections, unplaced);
  }
}
