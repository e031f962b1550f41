/** What a projected canvas shows, told placement by placement and without the indexes. */
module CanvasView {
  import opened Collections
  import opened Options
  import opened Strings
  import opened Sorting
  import opened CanvasStore
  import opened CanvasProjection

  // ------------------------------------------------------------------ paths

  predicate AllSlashes(s: string) {
    forall i :: 0 <= i < |s| ==> s[i] == '/'
  }

  predicate NoEdgeSlash(s: string) {
    s == "" || (s[0] != '/' && s[|s| - 1] != '/')
  }

  lemma {:induction false} TrimmedLeft(s: string) returns (before: string)
    ensures AllSlashes(before) && s == before + TrimLeadingSlashes(s)
    ensures TrimLeadingSlashes(s) == "" || TrimLeadingSlashes(s)[0] != '/'
  {
    before := "";
    if s != "" && s[0] == '/' {
      var rest := TrimmedLeft(s[1..]);
      before := ['/'] + rest;
      assert s == ['/'] + s[1..];
    }
  }

  lemma {:induction false} TrimmedRight(s: string) returns (after: string)
    ensures AllSlashes(after) && s == TrimTrailingSlashes(s) + after
    ensures TrimTrailingSlashes(s) == "" || TrimTrailingSlashes(s)[|TrimTrailingSlashes(s)| - 1] != '/'
  {
    after := "";
    if s != "" && s[|s| - 1] == '/' {
      var rest := TrimmedRight(s[..|s| - 1]);
      after := rest + ['/'];
      assert s == s[..|s| - 1] + ['/'];
    }
  }

  /** The key of a path is the path without slashes around it; a backslash counts as a slash. */
  ghost predicate IsKeyOf(path: string, key: string) {
    exists before, after ::
      && AllSlashes(before) && AllSlashes(after) && NoEdgeSlash(key)
      && |path| == |before + key + after|
      && forall i :: 0 <= i < |path| ==>
           (before + key + after)[i] == if path[i] == '\\' then '/' else path[i]
  }

  lemma PathKeyIs(path: string)
    ensures IsKeyOf(path, PathKey(path))
  {
    var s := Slashed(path);
    var before := TrimmedLeft(s);
    var t := TrimLeadingSlashes(s);
    var after := TrimmedRight(t);
    var key := PathKey(path);
    assert t == key + after;
    if key != "" { assert key[0] == t[0]; }
    assert s == before + key + after;
  }

  predicate IsPart(s: string) {
    '/' !in s && !IsBlank(s)
  }

  lemma {:induction false} SplitFirst(part: string, rest: string)
    requires '/' !in part
    ensures Split(part + "/" + rest, '/') == [part] + Split(rest, '/')
  {
    var s := part + "/" + rest;
    if part == "" {
      assert s[1..] == rest;
    } else {
      assert s[1..] == part[1..] + "/" + rest;
      SplitFirst(part[1..], rest);
      assert Split(s[1..], '/')[0] == part[1..] && Split(s[1..], '/')[1..] == Split(rest, '/');
      assert part == [part[0]] + part[1..];
    }
  }

  lemma {:induction false} SplitOne(part: string)
    requires '/' !in part
    ensures Split(part, '/') == [part]
  {
    if part != "" {
      SplitOne(part[1..]);
      assert part == [part[0]] + part[1..];
    }
  }

  lemma {:induction false} FirstPiece(s: string) returns (rest: string)
    ensures '/' !in Split(s, '/')[0]
    ensures if |Split(s, '/')| == 1 then s == Split(s, '/')[0]
      else s == Split(s, '/')[0] + "/" + rest && Split(s, '/')[1..] == Split(rest, '/')
  {
    rest := "";
    if s != "" {
      if s[0] == '/' {
        rest := s[1..];
        assert s == "" + "/" + rest;
      } else {
        rest := FirstPiece(s[1..]);
        var tail := Split(s[1..], '/');
        assert Split(s, '/') == [[s[0]] + tail[0]] + tail[1..];
        assert Split(s, '/')[1..] == tail[1..];
        assert s == [s[0]] + s[1..];
        if |tail| > 1 { assert s == [s[0]] + (tail[0] + "/" + rest) == [s[0]] + tail[0] + "/" + rest; }
      }
    }
  }

  /** A ticket lies at "plans/", a service, and a ticket, neither of which is blank. */
  ghost predicate IsTicketPath(path: string) {
    exists service, ticket :: IsPart(service) && IsPart(ticket) && PathKey(path) == "plans/" + service + "/" + ticket
  }

  lemma TicketKey(service: string, ticket: string)
    requires '/' !in service && '/' !in ticket
    ensures Split("plans/" + service + "/" + ticket, '/') == ["plans", service, ticket]
  {
    var key, rest := "plans/" + service + "/" + ticket, service + "/" + ticket;
    assert key == "plans" + "/" + rest;
    SplitFirst("plans", rest);
    SplitFirst(service, ticket);
    SplitOne(ticket);
  }

  lemma ThreePieces(s: string, a: string, b: string, c: string)
    requires Split(s, '/') == [a, b, c]
    ensures s == a + "/" + b + "/" + c && '/' !in a && '/' !in b && '/' !in c
  {
    var rest := FirstPiece(s);
    assert [a, b, c][1..] == [b, c];
    var last := FirstPiece(rest);
    assert [b, c][1..] == [c];
    var none := FirstPiece(last);
    assert s == a + "/" + (b + "/" + c) == a + "/" + b + "/" + c;
  }

  lemma PlanPathIsTicket(path: string)
    requires IsPlanPath(path)
    ensures IsTicketPath(path)
  {
    var parts := Split(PathKey(path), '/');
    assert parts == [parts[0], parts[1], parts[2]];
    ThreePieces(PathKey(path), "plans", parts[1], parts[2]);
    assert PathKey(path) == "plans/" + parts[1] + "/" + parts[2];
    assert IsPart(parts[1]) && IsPart(parts[2]);
  }

  lemma TicketIsPlanPath(path: string, service: string, ticket: string)
    requires IsPart(service) && IsPart(ticket) && PathKey(path) == "plans/" + service + "/" + ticket
    ensures IsPlanPath(path)
  {
    TicketKey(service, ticket);
  }

  lemma TicketPaths(path: string)
    ensures IsPlanPath(path) <==> IsTicketPath(path)
  {
    if IsPlanPath(path) { PlanPathIsTicket(path); }
    if service, ticket :| IsPart(service) && IsPart(ticket) && PathKey(path) == "plans/" + service + "/" + ticket {
      TicketIsPlanPath(path, service, ticket);
    }
  }

  // ------------------------------------------------------------------ what a placement stands for

  predicate NoItem(items: seq<Item>, id: string) {
    forall k :: 0 <= k < |items| ==> items[k].id != id
  }

  predicate LastWithId(items: seq<Item>, id: string, k: nat) {
    k < |items| && items[k].id == id && forall later :: k < later < |items| ==> items[later].id != id
  }

  predicate NothingAt(items: seq<Item>, key: string) {
    forall k :: 0 <= k < |items| ==> PathKey(items[k].path) != key
  }

  predicate LastAt(items: seq<Item>, key: string, k: nat) {
    && k < |items| && PathKey(items[k].path) == key
    && forall later :: k < later < |items| ==> PathKey(items[later].path) != key
  }

  predicate NoSession(sessions: seq<Session>, id: string) {
    forall k :: 0 <= k < |sessions| ==> sessions[k].id != id
  }

  predicate LastSession(sessions: seq<Session>, id: string, k: nat) {
    k < |sessions| && sessions[k].id == id && forall later :: k < later < |sessions| ==> sessions[later].id != id
  }

  lemma {:induction false} ItemById(items: seq<Item>, id: string) returns (k: nat)
    ensures if id in ItemsById(items) then LastWithId(items, id, k) && ItemsById(items)[id] == items[k]
      else NoItem(items, id)
  {
    k := 0;
    if items != [] {
      k := ItemById(items[..|items| - 1], id);
      if items[|items| - 1].id == id { k := |items| - 1; }
    }
  }

  lemma {:induction false} ItemAtPath(items: seq<Item>, key: string) returns (k: nat)
    ensures if key in ItemsByPath(items) then LastAt(items, key, k) && ItemsByPath(items)[key] == items[k]
      else NothingAt(items, key)
  {
    k := 0;
    if items != [] {
      k := ItemAtPath(items[..|items| - 1], key);
      if PathKey(items[|items| - 1].path) == key { k := |items| - 1; }
    }
  }

  lemma {:induction false} SessionById(sessions: seq<Session>, id: string) returns (k: nat)
    ensures if id in SessionsById(sessions)
      then LastSession(sessions, id, k) && SessionsById(sessions)[id] == sessions[k]
      else NoSession(sessions, id)
  {
    k := 0;
    if sessions != [] {
      k := SessionById(sessions[..|sessions| - 1], id);
      if sessions[|sessions| - 1].id == id { k := |sessions| - 1; }
    }
  }

  /** The placement names no item any more, and item `k` lies where its plan was. */
  predicate IsOrphan(p: Placement, items: seq<Item>, k: nat) {
    && !p.hidden && p.ref.kind == Plan && NoItem(items, p.ref.item) && IsPlanPath(p.ref.path)
    && LastAt(items, PathKey(p.ref.path), k)
  }

  predicate OrphanOf(p: Placement, items: seq<Item>, id: string) {
    exists k :: 0 <= k < |items| && IsOrphan(p, items, k) && items[k].id == id
  }

  predicate IsPlanNode(p: Placement, n: Node, items: seq<Item>, k: nat) {
    n.state == Shown && k < |items| && n.plan == Some(items[k])
    && ((LastWithId(items, p.ref.item, k) && n.ref == p.ref)
        || (IsOrphan(p, items, k) && n.ref == p.ref.(item := items[k].id)))
  }

  /** What the node of a readable placement shows, by the kind of its entity. */
  ghost predicate TellsEntity(p: Placement, n: Node, items: seq<Item>, sessions: seq<Session>) {
    match p.ref.kind
    case Workspace => n.ref == p.ref && n.state == Shown && n.plan == None && n.session == None
    case Plan =>
      && n.session == None
      && ((exists k: nat :: IsPlanNode(p, n, items, k))
          || (NoItem(items, p.ref.item) && IsPlanPath(p.ref.path) && NothingAt(items, PathKey(p.ref.path))
              && n.ref == p.ref && n.state == Stale && n.plan == None))
    case Session =>
      && n.ref == p.ref && n.plan == None
      && ((n.state == Shown
           && exists k: nat :: LastSession(sessions, p.ref.session, k) && n.session == Some(sessions[k]))
          || (n.state == Stale && NoSession(sessions, p.ref.session) && n.session == None))
    case Unsupported => n.ref == p.ref && n.state == Stale && n.plan == None && n.session == None
  }

  /** A node takes identity, place and revision from its placement. */
  ghost predicate Tells(p: Placement, n: Node, items: seq<Item>, sessions: seq<Session>, forbidden: bool) {
    && !p.hidden && n.id == p.node && n.kind == p.ref.kind && n.x == p.x && n.y == p.y
    && n.collapsed == p.collapsed && n.revision == p.revision
    && (if forbidden then n.state == Forbidden && n.ref == p.ref.(path := "") && n.plan == None && n.session == None
        else TellsEntity(p, n, items, sessions))
  }

  predicate IsForeign(p: Placement, items: seq<Item>) {
    p.ref.kind == Plan && NoItem(items, p.ref.item) && !IsPlanPath(p.ref.path)
  }

  lemma PlanTells(p: Placement, items: seq<Item>, sessions: seq<Session>)
    requires !p.hidden && p.ref.kind == Plan
    ensures match FateOf(p, ViewOf(items, sessions, false))
      case Dropped => IsForeign(p, items)
      case Projected(n) => Tells(p, n, items, sessions, false) && !IsForeign(p, items) && !Orphaned(p, items)
      case Orphan(item) =>
        Tells(p, Adopted(p, item), items, sessions, false) && !IsForeign(p, items) && OrphanOf(p, items, item.id)
  {
    var k := ItemById(items, p.ref.item);
    var l := ItemAtPath(items, PathKey(p.ref.path));
    var fate := FateOf(p, ViewOf(items, sessions, false));
    if p.ref.item in ItemsById(items) {
      assert IsPlanNode(p, fate.node, items, k);
    } else if fate.Orphan? {
      assert IsPlanNode(p, Adopted(p, fate.item), items, l);
    }
  }

  predicate Orphaned(p: Placement, items: seq<Item>) {
    exists k :: 0 <= k < |items| && IsOrphan(p, items, k)
  }

  lemma FateTells(p: Placement, items: seq<Item>, sessions: seq<Session>, forbidden: bool)
    ensures match FateOf(p, ViewOf(items, sessions, forbidden))
      case Dropped => p.hidden || (!forbidden && IsForeign(p, items))
      case Projected(n) =>
        Tells(p, n, items, sessions, forbidden) && (forbidden || (!IsForeign(p, items) && !Orphaned(p, items)))
      case Orphan(item) =>
        && Tells(p, Adopted(p, item), items, sessions, forbidden) && !forbidden && !IsForeign(p, items)
        && OrphanOf(p, items, item.id)
  {
    if !p.hidden && !forbidden {
      if p.ref.kind == Plan { PlanTells(p, items, sessions); }
      if p.ref.kind == CanvasStore.Session { var k := SessionById(sessions, p.ref.session); }
    }
  }

  lemma AnchorMeans(p: Placement, items: seq<Item>, sessions: seq<Session>, forbidden: bool, id: string)
    ensures AnchorsTo(p, ViewOf(items, sessions, forbidden), id) <==> !forbidden && OrphanOf(p, items, id)
  {
    FateTells(p, items, sessions, forbidden);
  }

  // ------------------------------------------------------------------ which placements have a node

  /** The plan is placed under its new ID already, or an earlier orphan was adopted for it. */
  predicate IsSuperseded(placements: seq<Placement>, i: nat, items: seq<Item>, id: string)
    requires i < |placements|
  {
    "plan:" + id in NodeIds(placements) || exists j :: 0 <= j < i && OrphanOf(placements[j], items, id)
  }

  predicate IsDuplicate(placements: seq<Placement>, i: nat, items: seq<Item>)
    requires i < |placements|
  {
    exists k :: 0 <= k < |items| && IsOrphan(placements[i], items, k) && IsSuperseded(placements, i, items, items[k].id)
  }

  /** The placements without a node: the hidden ones, those that never were tickets, and orphans whose
      plan is on the canvas otherwise. */
  predicate Withheld(placements: seq<Placement>, i: nat, items: seq<Item>, forbidden: bool)
    requires i < |placements|
  {
    placements[i].hidden || (!forbidden && (IsForeign(placements[i], items) || IsDuplicate(placements, i, items)))
  }

  /** The nodes are those of the first `n` placements that have one, in order. */
  ghost predicate NodesTell(
    placements: seq<Placement>, n: nat, nodes: seq<Node>, picks: seq<nat>, items: seq<Item>, sessions: seq<Session>,
    forbidden: bool)
    requires n <= |placements|
  {
    && |picks| == |nodes| && IsPick(picks, n)
    && (forall k :: 0 <= k < |nodes| ==> Tells(placements[picks[k]], nodes[k], items, sessions, forbidden))
    && (forall i :: 0 <= i < n ==> (i in picks <==> !Withheld(placements, i, items, forbidden)))
  }

  /** The plan counts as placed once the first `n` placements are projected. */
  predicate IsPlaced(placements: seq<Placement>, n: nat, items: seq<Item>, forbidden: bool, id: string)
    requires n <= |placements|
  {
    || "plan:" + id in NodeIds(placements)
    || (!forbidden && exists j :: 0 <= j < n && OrphanOf(placements[j], items, id))
  }

  lemma PlacedSoFar(
    placements: seq<Placement>, n: nat, items: seq<Item>, sessions: seq<Session>, forbidden: bool, id: string)
    requires n <= |placements|
    ensures var view := ViewOf(items, sessions, forbidden);
      PlanNode(id) in Project(placements[..n], NodeIds(placements), view).placed
      <==> IsPlaced(placements, n, items, forbidden, id)
  {
    var view := ViewOf(items, sessions, forbidden);
    PlacedIs(placements[..n], NodeIds(placements), view, id);
    forall j | 0 <= j < n
      ensures AnchorsTo(placements[j], view, id) <==> !forbidden && OrphanOf(placements[j], items, id)
    {
      AnchorMeans(placements[j], items, sessions, forbidden, id);
    }
    if j :| 0 <= j < n && OrphanOf(placements[j], items, id) && !forbidden {
      assert AnchorsTo(placements[..n][j], view, id);
    }
  }

  /** One placement more: no node, or one at the end that tells it. */
  ghost predicate NodeMore(
    before: seq<Node>, after: seq<Node>, placements: seq<Placement>, n: nat, items: seq<Item>, sessions: seq<Session>,
    forbidden: bool)
    requires n < |placements|
  {
    if Withheld(placements, n, items, forbidden) then after == before
    else
      && |after| == |before| + 1 && after[..|before|] == before
      && Tells(placements[n], after[|before|], items, sessions, forbidden)
  }

  lemma DuplicateIs(placements: seq<Placement>, n: nat, items: seq<Item>, id: string)
    requires n < |placements| && OrphanOf(placements[n], items, id)
    ensures IsDuplicate(placements, n, items) <==> IsPlaced(placements, n, items, false, id)
  {
    var k :| 0 <= k < |items| && IsOrphan(placements[n], items, k) && items[k].id == id;
    assert IsSuperseded(placements, n, items, items[k].id) <==> IsPlaced(placements, n, items, false, id);
  }

  lemma NodeMoreIs(placements: seq<Placement>, n: nat, items: seq<Item>, sessions: seq<Session>, forbidden: bool)
    requires n < |placements|
    ensures var view := ViewOf(items, sessions, forbidden);
      var before := Project(placements[..n], NodeIds(placements), view);
      NodeMore(before.nodes, Advance(before, placements[n], view).nodes, placements, n, items, sessions, forbidden)
  {
    var p := placements[n];
    var fate := FateOf(p, ViewOf(items, sessions, forbidden));
    FateTells(p, items, sessions, forbidden);
    if fate.Orphan? {
      PlacedSoFar(placements, n, items, sessions, forbidden, fate.item.id);
      DuplicateIs(placements, n, items, fate.item.id);
    } else if fate.Projected? && !forbidden {
      assert !Orphaned(p, items);
    }
  }

  lemma NodesTellMore(
    placements: seq<Placement>, n: nat, before: seq<Node>, after: seq<Node>, picks: seq<nat>, items: seq<Item>,
    sessions: seq<Session>, forbidden: bool)
    requires n < |placements| && NodesTell(placements, n, before, picks, items, sessions, forbidden)
    requires NodeMore(before, after, placements, n, items, sessions, forbidden)
    ensures NodesTell(placements, n + 1, after, Pick(picks, n, !Withheld(placements, n, items, forbidden)), items,
                      sessions, forbidden)
  {
    PickNext(picks, n, !Withheld(placements, n, items, forbidden));
    assert forall k :: 0 <= k < |before| ==> after[k] == after[..|before|][k];
  }

  lemma {:induction false} NodesAreTold(
    placements: seq<Placement>, n: nat, items: seq<Item>, sessions: seq<Session>, forbidden: bool)
    returns (picks: seq<nat>)
    requires n <= |placements|
    ensures var view := ViewOf(items, sessions, forbidden);
      var nodes := Project(placements[..n], NodeIds(placements), view).nodes;
      NodesTell(placements, n, nodes, picks, items, sessions, forbidden)
  {
    picks := [];
    if n > 0 {
      picks := NodesAreTold(placements, n - 1, items, sessions, forbidden);
      NodeMoreIs(placements, n - 1, items, sessions, forbidden);
      assert placements[..n][..n - 1] == placements[..n - 1];
      var view := ViewOf(items, sessions, forbidden);
      var before := Project(placements[..n - 1], NodeIds(placements), view);
      var after := Advance(before, placements[n - 1], view);
      NodesTellMore(placements, n - 1, before.nodes, after.nodes, picks, items, sessions, forbidden);
      picks := Pick(picks, n - 1, !Withheld(placements, n - 1, items, forbidden));
    }
  }

  // ------------------------------------------------------------------ what has no place

  predicate IsPlanRef(item: Item, r: EntityRef) {
    r == EntityRef(Plan, item.workspace, item.id, item.path, item.branch, "")
  }

  predicate IsSessionRef(session: Session, r: EntityRef) {
    r == EntityRef(CanvasStore.Session, session.workspace, "", "", session.branch, session.id)
  }

  lemma {:induction false} ItemsLeft(items: seq<Item>, placed: set<string>) returns (picks: seq<nat>)
    ensures IsPick(picks, |items|) && |UnplacedItems(items, placed)| == |picks|
    ensures forall k :: 0 <= k < |picks| ==> IsPlanRef(items[picks[k]], UnplacedItems(items, placed)[k])
    ensures forall i :: 0 <= i < |items| ==> (i in picks <==> "plan:" + items[i].id !in placed)
  {
    picks := [];
    if items != [] {
      var n := |items| - 1;
      var before := ItemsLeft(items[..n], placed);
      PickNext(before, n, PlanNode(items[n].id) !in placed);
      picks := Pick(before, n, PlanNode(items[n].id) !in placed);
    }
  }

  lemma {:induction false} SessionsLeft(sessions: seq<Session>, placed: set<string>) returns (picks: seq<nat>)
    ensures IsPick(picks, |sessions|) && |UnplacedSessions(sessions, placed)| == |picks|
    ensures forall k :: 0 <= k < |picks| ==> IsSessionRef(sessions[picks[k]], UnplacedSessions(sessions, placed)[k])
    ensures forall i :: 0 <= i < |sessions| ==> (i in picks <==> "session:" + sessions[i].id !in placed)
  {
    picks := [];
    if sessions != [] {
      var n := |sessions| - 1;
      var before := SessionsLeft(sessions[..n], placed);
      PickNext(before, n, SessionNode(sessions[n].id) !in placed);
      picks := Pick(before, n, SessionNode(sessions[n].id) !in placed);
    }
  }

  lemma {:induction false} OnlyPlansAreAdded(placements: seq<Placement>, initial: set<string>, view: View)
    ensures forall id :: id in Project(placements, initial, view).placed ==>
      id in initial || (id != "" && id[0] == 'p')
    ensures initial <= Project(placements, initial, view).placed
  {
    if placements != [] {
      OnlyPlansAreAdded(placements[..|placements| - 1], initial, view);
      var fate := FateOf(placements[|placements| - 1], view);
      assert fate.Orphan? ==> PlanNode(fate.item.id)[0] == 'p';
    }
  }

  predicate PlansLeft(
    placements: seq<Placement>, items: seq<Item>, forbidden: bool, picks: seq<nat>, refs: seq<EntityRef>)
  {
    && IsPick(picks, |items|) && |refs| == |picks|
    && (forall k :: 0 <= k < |picks| ==> IsPlanRef(items[picks[k]], refs[k]))
    && forall i :: 0 <= i < |items| ==>
         (i in picks <==> !IsPlaced(placements, |placements|, items, forbidden, items[i].id))
  }

  predicate SessionsLeftOver(
    placements: seq<Placement>, sessions: seq<Session>, picks: seq<nat>, refs: seq<EntityRef>)
  {
    && IsPick(picks, |sessions|) && |refs| == |picks|
    && (forall k :: 0 <= k < |picks| ==> IsSessionRef(sessions[picks[k]], refs[k]))
    && forall i :: 0 <= i < |sessions| ==> (i in picks <==> "session:" + sessions[i].id !in NodeIds(placements))
  }

  /** The workspace, then the plans, then the sessions that have no place, each in their order. */
  ghost predicate UnplacedTells(
    workspace: string, items: seq<Item>, sessions: seq<Session>, placements: seq<Placement>, forbidden: bool,
    unplaced: seq<EntityRef>)
  {
    exists planPicks, plans, sessionPicks, rest ::
      && PlansLeft(placements, items, forbidden, planPicks, plans)
      && SessionsLeftOver(placements, sessions, sessionPicks, rest)
      && unplaced == (if "workspace:" + workspace in NodeIds(placements) then []
                      else [EntityRef(Workspace, workspace, "", "", "", "")]) + plans + rest
  }

  lemma UnplacedIsTold(
    workspace: string, items: seq<Item>, sessions: seq<Session>, placements: seq<Placement>, forbidden: bool)
    ensures UnplacedTells(workspace, items, sessions, placements, forbidden,
                          ProjectionOf(workspace, items, sessions, placements, forbidden).unplaced)
  {
    var view := ViewOf(items, sessions, forbidden);
    var placed := Project(placements, NodeIds(placements), view).placed;
    assert placements[..|placements|] == placements;
    OnlyPlansAreAdded(placements, NodeIds(placements), view);
    var planPicks := ItemsLeft(items, placed);
    var sessionPicks := SessionsLeft(sessions, placed);
    forall i | 0 <= i < |items|
      ensures i in planPicks <==> !IsPlaced(placements, |placements|, items, forbidden, items[i].id)
    {
      PlacedSoFar(placements, |placements|, items, sessions, forbidden, items[i].id);
      assert PlanNode(items[i].id) == "plan:" + items[i].id;
    }
    assert PlansLeft(placements, items, forbidden, planPicks, UnplacedItems(items, placed));
    forall i | 0 <= i < |sessions| ensures i in sessionPicks <==> "session:" + sessions[i].id !in NodeIds(placements) {
      assert ("session:" + sessions[i].id)[0] == 's';
    }
    assert SessionsLeftOver(placements, sessions, sessionPicks, UnplacedSessions(sessions, placed));
    assert WorkspaceNode(workspace)[0] == 'w';
  }

  // ------------------------------------------------------------------ connections

  /** A readable session node whose session was launched from a plan that has a node, under that
      plan's ID, other than itself. */
  predicate IsLaunched(nodes: seq<Node>, n: Node) {
    && n.state != Forbidden && n.kind == CanvasStore.Session && n.session.Some? && n.session.value.plan.Some?
    && "plan:" + n.session.value.plan.value != n.id
    && exists m :: 0 <= m < |nodes| && nodes[m].id == "plan:" + n.session.value.plan.value
  }

  predicate IsLaunch(n: Node, c: Connection) {
    n.session.Some? && n.session.value.plan.Some? && c == Connection("plan:" + n.session.value.plan.value, n.id)
  }

  function ConnectionId(c: Connection): string {
    "session_launched_from:" + c.source + ":" + c.target
  }

  /** One connection for each node that was launched, in the order of their IDs. */
  ghost predicate ConnectionsTell(nodes: seq<Node>, connections: seq<Connection>) {
    && (forall i, j :: 0 <= i < j < |connections| ==>
          !StringLess(ConnectionId(connections[j]), ConnectionId(connections[i])))
    && exists picks: seq<nat>, launches: seq<Connection> ::
      && IsPick(picks, |nodes|) && |launches| == |picks| == |connections|
      && (forall i :: 0 <= i < |nodes| ==> (i in picks <==> IsLaunched(nodes, nodes[i])))
      && (forall k :: 0 <= k < |picks| ==> IsLaunch(nodes[picks[k]], launches[k]))
      && forall c :: Occurs(connections, c) == Occurs(launches, c)
  }

  predicate LaunchesOf(nodes: seq<Node>, n: nat, ids: set<string>, launches: seq<Connection>, picks: seq<nat>)
    requires n <= |nodes|
  {
    && IsPick(picks, n) && |launches| == |picks|
    && (forall i :: 0 <= i < n ==> (i in picks <==> Connects(nodes[i], ids)))
    && forall k :: 0 <= k < |picks| ==> IsLaunch(nodes[picks[k]], launches[k])
  }

  lemma LaunchesMore(nodes: seq<Node>, n: nat, ids: set<string>, launches: seq<Connection>, picks: seq<nat>)
    requires n < |nodes| && LaunchesOf(nodes, n, ids, launches, picks) && Connects(nodes[n], ids)
    ensures LaunchesOf(nodes, n + 1, ids, launches + [ConnectionOf(nodes[n])], Pick(picks, n, true))
  {
    PickNext(picks, n, true);
    assert IsLaunch(nodes[n], ConnectionOf(nodes[n]));
  }

  lemma {:induction false} LaunchesPicked(nodes: seq<Node>, n: nat, ids: set<string>) returns (picks: seq<nat>)
    requires n <= |nodes|
    ensures LaunchesOf(nodes, n, ids, Links(nodes[..n], ids), picks)
  {
    picks := [];
    if n > 0 {
      picks := LaunchesPicked(nodes, n - 1, ids);
      assert nodes[..n][..n - 1] == nodes[..n - 1];
      if Connects(nodes[n - 1], ids) {
        LaunchesMore(nodes, n - 1, ids, Links(nodes[..n - 1], ids), picks);
        picks := Pick(picks, n - 1, true);
      }
    }
  }

  lemma ConnectsIs(nodes: seq<Node>, n: Node)
    ensures Connects(n, Ids(nodes)) <==> IsLaunched(nodes, n)
  {
    if n.session.Some? && n.session.value.plan.Some? {
      assert PlanNode(n.session.value.plan.value) == "plan:" + n.session.value.plan.value;
    }
  }

  lemma ConnectionOrder(a: Connection, b: Connection)
    ensures By(ConnectionKey)(a, b) <==> StringLess(ConnectionId(a), ConnectionId(b))
  {
    assert ConnectionKey(a) == [ConnectionId(a)] && ConnectionKey(b) == [ConnectionId(b)];
    KeyOfOne(ConnectionId(a), ConnectionId(b));
  }

  lemma ConnectionsAreTold(nodes: seq<Node>)
    ensures ConnectionsTell(nodes, Connections(nodes))
  {
    var launches := Links(nodes, Ids(nodes));
    var picks := LaunchesPicked(nodes, |nodes|, Ids(nodes));
    assert nodes[..|nodes|] == nodes;
    forall i | 0 <= i < |nodes| ensures i in picks <==> IsLaunched(nodes, nodes[i]) { ConnectsIs(nodes, nodes[i]); }
    forall c ensures Occurs(Connections(nodes), c) == Occurs(launches, c) {
      SortMembers(launches, c, By(ConnectionKey));
    }
    ByIsAnOrder(ConnectionKey);
    SortSorts(launches, By(ConnectionKey));
    var all := Connections(nodes);
    forall i, j | 0 <= i < j < |all| ensures !StringLess(ConnectionId(all[j]), ConnectionId(all[i])) {
      ConnectionOrder(all[j], all[i]);
    }
  }

  // ------------------------------------------------------------------ the projection

  ghost predicate ProjectionTells(
    workspace: string, items: seq<Item>, sessions: seq<Session>, placements: seq<Placement>, forbidden: bool,
    r: Projection)
  {
    && (exists picks :: NodesTell(placements, |placements|, r.nodes, picks, items, sessions, forbidden))
    && ConnectionsTell(r.nodes, r.connections)
    && UnplacedTells(workspace, items, sessions, placements, forbidden, r.unplaced)
  }

  /** A projection, told placement by placement. */
  lemma ProjectionIsTold(
    workspace: string, items: seq<Item>, sessions: seq<Session>, placements: seq<Placement>, forbidden: bool)
    ensures ProjectionTells(workspace, items, sessions, placements, forbidden,
                            ProjectionOf(workspace, items, sessions, placements, forbidden))
  {
    var picks := NodesAreTold(placements, |placements|, items, sessions, forbidden);
    assert placements[..|placements|] == placements;
    var r := ProjectionOf(workspace, items, sessions, placements, forbidden);
    assert NodesTell(placements, |placements|, r.nodes, picks, items, sessions, forbidden);
    ConnectionsAreTold(r.nodes);
    UnplacedIsTold(workspace, items, sessions, placements, forbidden);
  }
}
