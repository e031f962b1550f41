/** How placements get their identity, and why a plan always goes by the node ID of its item. */
module CanvasIdentity {
  // A new canvas is seeded from the branch, and a new placement is made to name what it resolves to
  // before it is written; other writers may act in between.

  import opened Options
  import opened CanvasStore
  import opened CanvasProjection
  import opened CanvasView

  // ------------------------------------------------------------------ new placements

  function FindItem(items: seq<Item>, patch: Patch): Option<Item> {
    if items == [] then None
    else if IsPlanPath(items[0].path) && items[0].id == patch.ref.item && patch.node == PlanNode(items[0].id) then
      Some(items[0])
    else FindItem(items[1..], patch)
  }

  function FindSession(sessions: seq<Session>, patch: Patch): Option<Session> {
    if sessions == [] then None
    else if sessions[0].id == patch.ref.session && patch.node == SessionNode(sessions[0].id) then Some(sessions[0])
    else FindSession(sessions[1..], patch)
  }

  /** What the branch answers when it is asked about one patch: no list when the question fails. */
  datatype Answer = Answer(items: Option<seq<Item>>, sessions: Option<seq<Session>>)

  /** The reference a new placement is stored with, if what it names is there. */
  function Resolve(layout: Layout, patch: Patch, answer: Answer): Option<EntityRef> {
    match patch.ref.kind
    case Workspace =>
      if patch.node != WorkspaceNode(layout.workspace) || patch.ref.workspace != layout.workspace then None
      else Some(EntityRef(Workspace, layout.workspace, "", "", "", ""))
    case Plan =>
      if answer.items.None? then None
      else
        var item := FindItem(answer.items.value, patch);
        if item.Some? then Some(PlanRef(item.value)) else None
    case Session =>
      if answer.sessions.None? then None
      else
        var session := FindSession(answer.sessions.value, patch);
        if session.Some? then Some(SessionRef(session.value)) else None
    case Unsupported => None
  }

  predicate IsNew(existing: set<string>, patch: Patch) {
    patch.node !in existing && patch.expected == 0
  }

  predicate Resolves(existing: set<string>, layout: Layout, patch: Patch, answer: Answer) {
    IsNew(existing, patch) ==> Resolve(layout, patch, answer).Some?
  }

  /** A patch of an existing placement stays as it is; a new one gets the reference it resolves to. */
  function Canonicalized(existing: set<string>, layout: Layout, patch: Patch, answer: Answer): Patch {
    if IsNew(existing, patch) && Resolve(layout, patch, answer).Some? then
      patch.(ref := Resolve(layout, patch, answer).value)
    else patch
  }

  /** A ticket of the answer has the item ID and the node ID of the patch. */
  ghost predicate Names(item: Item, patch: Patch) {
    IsTicketPath(item.path) && item.id == patch.ref.item && patch.node == "plan:" + item.id
  }

  /** The reference the answer gives: to the workspace, or to the first ticket or session that the patch
      names. */
  ghost predicate IsAnswered(layout: Layout, patch: Patch, answer: Answer, ref: EntityRef) {
    match patch.ref.kind
    case Workspace =>
      && patch.node == "workspace:" + layout.workspace && patch.ref.workspace == layout.workspace
      && ref == EntityRef(Workspace, layout.workspace, "", "", "", "")
    case Plan =>
      && answer.items.Some?
      && exists k :: 0 <= k < |answer.items.value| && Names(answer.items.value[k], patch)
           && (forall j :: 0 <= j < k ==> !Names(answer.items.value[j], patch))
           && IsPlanRef(answer.items.value[k], ref)
    case Session =>
      && answer.sessions.Some?
      && exists k :: 0 <= k < |answer.sessions.value| && NamesSession(answer.sessions.value[k], patch)
           && (forall j :: 0 <= j < k ==> !NamesSession(answer.sessions.value[j], patch))
           && IsSessionRef(answer.sessions.value[k], ref)
    case Unsupported => false
  }

  predicate NamesSession(session: Session, patch: Patch) {
    session.id == patch.ref.session && patch.node == "session:" + session.id
  }

  lemma {:induction false} FirstItem(items: seq<Item>, patch: Patch) returns (k: nat)
    ensures if FindItem(items, patch).Some?
      then k < |items| && FindItem(items, patch) == Some(items[k]) && Names(items[k], patch)
        && forall j :: 0 <= j < k ==> !Names(items[j], patch)
      else forall j :: 0 <= j < |items| ==> !Names(items[j], patch)
  {
    k := 0;
    if items != [] {
      TicketPaths(items[0].path);
      if !Names(items[0], patch) {
        var rest := FirstItem(items[1..], patch);
        k := rest + 1;
      }
    }
  }

  lemma {:induction false} FirstSession(sessions: seq<Session>, patch: Patch) returns (k: nat)
    ensures if FindSession(sessions, patch).Some?
      then k < |sessions| && FindSession(sessions, patch) == Some(sessions[k]) && NamesSession(sessions[k], patch)
        && forall j :: 0 <= j < k ==> !NamesSession(sessions[j], patch)
      else forall j :: 0 <= j < |sessions| ==> !NamesSession(sessions[j], patch)
  {
    k := 0;
    if sessions != [] && !NamesSession(sessions[0], patch) {
      var rest := FirstSession(sessions[1..], patch);
      k := rest + 1;
    }
  }

  /** A new placement resolves exactly to what the answer gives. */
  lemma ResolveMeans(layout: Layout, patch: Patch, answer: Answer, ref: EntityRef)
    ensures Resolve(layout, patch, answer) == Some(ref) <==> IsAnswered(layout, patch, answer, ref)
  {
    match patch.ref.kind
    case Workspace =>
    case Plan => if answer.items.Some? { var k := FirstItem(answer.items.value, patch); }
    case Session => if answer.sessions.Some? { var k := FirstSession(answer.sessions.value, patch); }
    case Unsupported =>
  }

  /** What becomes of one patch, if anything. */
  ghost predicate PatchAnswered(existing: set<string>, layout: Layout, patch: Patch, answer: Answer, result: Patch) {
    if patch.node in existing || patch.expected != 0 then result == patch
    else IsAnswered(layout, patch, answer, result.ref) && result == patch.(ref := result.ref)
  }

  lemma CanonicalizedMeans(existing: set<string>, layout: Layout, patch: Patch, answer: Answer, result: Patch)
    ensures Resolves(existing, layout, patch, answer) && result == Canonicalized(existing, layout, patch, answer)
      <==> PatchAnswered(existing, layout, patch, answer, result)
  {
    ResolveMeans(layout, patch, answer, result.ref);
    if Resolve(layout, patch, answer).Some? {
      ResolveMeans(layout, patch, answer, Resolve(layout, patch, answer).value);
    }
  }

  ghost predicate NotAnswered(existing: set<string>, layout: Layout, patch: Patch, answer: Answer) {
    forall result :: !PatchAnswered(existing, layout, patch, answer, result)
  }

  lemma UnresolvedIsUnanswered(existing: set<string>, layout: Layout, patch: Patch, answer: Answer)
    requires !Resolves(existing, layout, patch, answer)
    ensures NotAnswered(existing, layout, patch, answer)
  {
    forall result ensures !PatchAnswered(existing, layout, patch, answer, result) {
      CanonicalizedMeans(existing, layout, patch, answer, result);
    }
  }

  /** The branch is asked again for every new placement, and may answer differently each time. */
  method CanonicalizeNewPlacementPatches(
    existing: set<string>, layout: Layout, patches: seq<Patch>, answers: nat -> Answer)
    returns (ok: bool, result: seq<Patch>)
    ensures ok <==> forall i :: 0 <= i < |patches| ==> Resolves(existing, layout, patches[i], answers(i))
    ensures ok ==> |result| == |patches| && forall i :: 0 <= i < |patches| ==>
      result[i] == Canonicalized(existing, layout, patches[i], answers(i))
    ensures ok ==> forall i :: 0 <= i < |patches| ==>
      PatchAnswered(existing, layout, patches[i], answers(i), result[i])
    ensures !ok ==> exists i :: 0 <= i < |patches| && NotAnswered(existing, layout, patches[i], answers(i))
  {
    result := patches;
    var i := 0;
    while i < |result|
      invariant 0 <= i <= |result| == |patches|
      invariant forall k :: 0 <= k < i ==> Resolves(existing, layout, patches[k], answers(k))
      invariant forall k :: 0 <= k < i ==> result[k] == Canonicalized(existing, layout, patches[k], answers(k))
      invariant forall k :: i <= k < |result| ==> result[k] == patches[k]
    {
      var patch := result[i];
      if patch.node !in existing && patch.expected == 0 {
        var ref := Resolve(layout, patch, answers(i));
        if ref.None? {
          UnresolvedIsUnanswered(existing, layout, patches[i], answers(i));
          return false, result;
        }
        result := result[i := patch.(ref := ref.value)];
      }
      i := i + 1;
    }
    ok := true;
    forall k | 0 <= k < |patches| ensures PatchAnswered(existing, layout, patches[k], answers(k), result[k]) {
      CanonicalizedMeans(existing, layout, patches[k], answers(k), result[k]);
    }
  }

  /** The placement of a plan goes by the node ID of its item. */
  predicate Matches(ref: EntityRef, node: string) {
    ref.kind == Plan ==> node == PlanNode(ref.item)
  }

  ghost predicate SeedMatches(seed: seq<Placement>) {
    forall p :: p in seed ==> Matches(p.ref, p.node)
  }

  lemma {:induction false} FoundItemMatches(items: seq<Item>, patch: Patch)
    ensures FindItem(items, patch).Some? ==> patch.node == PlanNode(FindItem(items, patch).value.id)
  {
    if items != [] { FoundItemMatches(items[1..], patch); }
  }

  lemma ResolvedMatches(layout: Layout, patch: Patch, answer: Answer)
    requires Resolve(layout, patch, answer).Some?
    ensures Matches(Resolve(layout, patch, answer).value, patch.node)
  {
    if answer.items.Some? { FoundItemMatches(answer.items.value, patch); }
  }

  // ------------------------------------------------------------------ a new canvas

  function PlacementAt(node: string, ref: EntityRef, x: real, y: real, collapsed: bool): Placement {
    Placement("", node, ref, Finite(x), Finite(y), collapsed, false, 1)
  }

  function WorkspacePlacement(workspace: string): Placement {
    PlacementAt(WorkspaceNode(workspace), EntityRef(Workspace, workspace, "", "", "", ""), 0.0, 0.0, false)
  }

  function PlanPlacement(item: Item, i: nat): Placement {
    PlacementAt(PlanNode(item.id), PlanRef(item), 360.0 + (i % 3 * 320) as real, (i / 3 * 190) as real, false)
  }

  function SessionPlacement(session: Session, i: nat): Placement {
    var x, y := 360.0 + (i % 3 * 320) as real, 420.0 + (i / 3 * 190) as real;
    PlacementAt(SessionNode(session.id), SessionRef(session), x, y, true)
  }

  predicate IsAt(p: Placement, node: string, x: int, y: int, collapsed: bool) {
    && p.layout == "" && p.node == node && p.x == Finite(x as real) && p.y == Finite(y as real)
    && p.collapsed == collapsed && !p.hidden && p.revision == 1
  }

  /** The workspace at the origin. */
  predicate IsHome(p: Placement, workspace: string) {
    IsAt(p, "workspace:" + workspace, 0, 0, false) && p.ref == EntityRef(Workspace, workspace, "", "", "", "")
  }

  /** Plans in rows of three to the right of it. */
  predicate IsPlanAt(p: Placement, item: Item, i: nat) {
    IsAt(p, "plan:" + item.id, 360 + 320 * (i % 3), 190 * (i / 3), false) && IsPlanRef(item, p.ref)
  }

  /** Sessions, collapsed, in rows of three from 420 downwards. */
  predicate IsSessionAt(p: Placement, session: Session, i: nat) {
    && IsAt(p, "session:" + session.id, 360 + 320 * (i % 3), 420 + 190 * (i / 3), true)
    && IsSessionRef(session, p.ref)
  }

  /** The workspace, then plans and sessions for as long as there is room. */
  method InitialPlacements(workspace: string, items: seq<Item>, sessions: seq<Session>)
    returns (placements: seq<Placement>)
    ensures 1 <= |placements| <= MAX_PLACEMENTS
    ensures IsHome(placements[0], workspace)
    ensures var plans := Min(|items|, MAX_PLACEMENTS - 1);
      var all := Min(1 + |items| + Min(|sessions|, MAX_PLACEMENTS), MAX_PLACEMENTS);
      && |placements| == all
      && (forall i :: 0 <= i < plans ==> IsPlanAt(placements[1 + i], items[i], i))
      && (forall i :: 0 <= i < all - 1 - plans ==> IsSessionAt(placements[1 + plans + i], sessions[i], i))
    ensures SeedMatches(placements)
  {
    var candidates := if |sessions| > MAX_PLACEMENTS then sessions[..MAX_PLACEMENTS] else sessions;
    placements := [WorkspacePlacement(workspace)];
    ghost var first := placements[0];
    var i := 0;
    while i < |items| && |placements| != MAX_PLACEMENTS
      invariant 0 <= i <= |items| && |placements| == 1 + i <= MAX_PLACEMENTS && placements[0] == first
      invariant forall k :: 0 <= k < i ==> IsPlanAt(placements[1 + k], items[k], k)
      invariant SeedMatches(placements)
    {
      placements := placements + [PlanPlacement(items[i], i)];
      i := i + 1;
    }
    var k := 0;
    while k < |candidates| && |placements| != MAX_PLACEMENTS
      invariant 0 <= k <= |candidates| && |placements| == 1 + i + k <= MAX_PLACEMENTS && placements[0] == first
      invariant forall j :: 0 <= j < i ==> IsPlanAt(placements[1 + j], items[j], j)
      invariant forall j :: 0 <= j < k ==> IsSessionAt(placements[1 + i + j], sessions[j], j)
      invariant SeedMatches(placements)
    {
      placements := placements + [SessionPlacement(candidates[k], k)];
      k := k + 1;
    }
  }

  function Min(a: nat, b: nat): nat {
    if a < b then a else b
  }

  // ------------------------------------------------------------------ over all runs

  ghost predicate AllMatch(s: Store) {
    forall key :: key in s.table ==> Matches(s.table[key].ref, s.table[key].node)
  }

  /** The patches were made canonical against this state of the layout, or would change nothing new. */
  ghost predicate CanonicalFor(s: Store, layout: string, patches: seq<Patch>) {
    forall i :: 0 <= i < |patches| ==>
      (layout, patches[i].node) in s.table || patches[i].expected != 0 || Matches(patches[i].ref, patches[i].node)
  }

  lemma CanonicalizedIsCanonical(
    s: Store, layout: Layout, patches: seq<Patch>, result: seq<Patch>, answers: nat -> Answer)
    requires var existing := set key | key in s.table && key.0 == layout.id :: key.1;
      && |result| == |patches| && forall i :: 0 <= i < |patches| ==>
        && Resolves(existing, layout, patches[i], answers(i))
        && result[i] == Canonicalized(existing, layout, patches[i], answers(i))
    ensures CanonicalFor(s, layout.id, result)
  {
    var existing := set key | key in s.table && key.0 == layout.id :: key.1;
    forall i | 0 <= i < |result|
      ensures (layout.id, result[i].node) in s.table || result[i].expected != 0
        || Matches(result[i].ref, result[i].node)
    {
      assert Resolves(existing, layout, patches[i], answers(i));
      if IsNew(existing, patches[i]) { ResolvedMatches(layout, patches[i], answers(i)); }
    }
  }

  lemma PatchedMatches(s: Store, now: Store, layout: string, p: Patch)
    requires ValidStore(now) && AllMatch(now) && CanvasStore.Matches(now, layout, p)
    requires (layout, p.node) in s.table ==> (layout, p.node) in now.table
    requires (layout, p.node) in s.table || p.expected != 0 || Matches(p.ref, p.node)
    ensures Matches(Patched(now, layout, p).ref, p.node) && Patched(now, layout, p).node == p.node
  {
    var key := (layout, p.node);
    if key in now.table { assert ValidRow(now, key); }
  }

  /** Other writers may have acted since the patches were made canonical: what was there still is, and
      what was not is only inserted by a canonical patch. */
  lemma PatchesKeepMatch(s: Store, now: Store, layout: string, patches: seq<Patch>)
    requires ValidStore(now) && Evolves(s, now) && AllMatch(now)
    requires CanonicalFor(s, layout, patches) && AcceptsPatches(now, layout, patches)
    ensures AllMatch(WithPatches(now, layout, patches))
  {
    var rows := PatchRows(now, layout, patches);
    forall key | key in rows ensures Matches(rows[key].ref, rows[key].node) {
      RowMatches(s, now, layout, patches, key);
    }
  }

  lemma RowMatches(s: Store, now: Store, layout: string, patches: seq<Patch>, key: Key)
    requires ValidStore(now) && Evolves(s, now) && AllMatch(now)
    requires CanonicalFor(s, layout, patches) && AcceptsPatches(now, layout, patches)
    requires key in PatchRows(now, layout, patches)
    ensures var row := PatchRows(now, layout, patches)[key]; Matches(row.ref, row.node)
  {
    RowsOfPatches(now, layout, patches);
    var i :| 0 <= i < |patches| && key == (layout, patches[i].node);
    AcceptedPatch(now, layout, patches, i);
    PatchedMatches(s, now, layout, patches[i]);
  }

  lemma SeedKeepsMatch(s: Store, made: Layout, seed: seq<Placement>)
    requires AllMatch(s) && AcceptsLayout(s, made, seed) && SeedMatches(seed)
    ensures AllMatch(WithLayout(s, made, seed))
  {
    var rows := SeedRows(made.id, seed);
    RowsOfSeed(made.id, seed);
    forall key | key in rows ensures Matches(rows[key].ref, rows[key].node) {
      var i :| 0 <= i < |seed| && key == (made.id, seed[i].node);
      assert seed[i] in seed;
    }
  }

  /** An operation as the service issues it: seeds come from the branch, and patches were made
      canonical against some earlier state. */
  ghost predicate WellSourced(s: Store, ops: seq<Op>, i: nat, digest: string -> string)
    requires i < |ops|
  {
    match ops[i]
    case Initialise(_, _, _, seed) => SeedMatches(seed)
    case PatchAll(layout, patches) => exists j :: 0 <= j <= i && CanonicalFor(Run(s, ops[..j], digest), layout, patches)
    case _ => true
  }

  lemma {:induction false} RunSum(s: Store, a: seq<Op>, b: seq<Op>, digest: string -> string)
    ensures Run(s, a + b, digest) == Run(Run(s, a, digest), b, digest)
    decreases |a|
  {
    if a == [] {
      assert a + b == b;
    } else {
      assert (a + b)[1..] == a[1..] + b;
      RunSum(Step(s, a[0], digest), a[1..], b, digest);
    }
  }

  lemma EarlierEvolves(s: Store, ops: seq<Op>, j: nat, i: nat, digest: string -> string)
    requires ValidStore(s) && j <= i <= |ops|
    ensures ValidStore(Run(s, ops[..i], digest)) && Evolves(Run(s, ops[..j], digest), Run(s, ops[..i], digest))
  {
    RunEvolves(s, ops[..j], digest);
    RunSum(s, ops[..j], ops[j..i], digest);
    assert ops[..i] == ops[..j] + ops[j..i];
    RunEvolves(Run(s, ops[..j], digest), ops[j..i], digest);
  }

  lemma PatchStepKeepsMatch(
    s: Store, ops: seq<Op>, j: nat, i: nat, digest: string -> string, layout: string, patches: seq<Patch>)
    requires ValidStore(s) && j <= i <= |ops| && AllMatch(Run(s, ops[..i], digest))
    requires CanonicalFor(Run(s, ops[..j], digest), layout, patches)
    requires AcceptsPatches(Run(s, ops[..i], digest), layout, patches)
    ensures AllMatch(WithPatches(Run(s, ops[..i], digest), layout, patches))
  {
    EarlierEvolves(s, ops, j, i, digest);
    PatchesKeepMatch(Run(s, ops[..j], digest), Run(s, ops[..i], digest), layout, patches);
  }

  lemma StepKeepsMatch(s: Store, ops: seq<Op>, i: nat, digest: string -> string)
    requires ValidStore(s) && i < |ops| && WellSourced(s, ops, i, digest)
    requires AllMatch(Run(s, ops[..i], digest))
    ensures AllMatch(Step(Run(s, ops[..i], digest), ops[i], digest))
  {
    var now := Run(s, ops[..i], digest);
    if Accepts(now, ops[i], digest) {
      match ops[i]
      case Initialise(owner, workspace, branch, seed) =>
        if !HasDefault(now, ops[i]) { SeedKeepsMatch(now, NewLayout(owner, workspace, branch, digest).value, seed); }
      case PatchAll(layout, patches) =>
        var j :| 0 <= j <= i && CanonicalFor(Run(s, ops[..j], digest), layout, patches);
        PatchStepKeepsMatch(s, ops, j, i, digest, layout, patches);
      case Remove(layout, node, _) => HideKeepsMatch(now, (layout, node));
      case SaveViewport(_, _, _) =>
    }
  }

  lemma HideKeepsMatch(s: Store, key: Key)
    requires AllMatch(s) && key in s.table
    ensures AllMatch(WithHidden(s, key))
  {
  }

  /** In every run of well-sourced operations, however they interleave, plans keep their node IDs. */
  lemma {:induction false} RunKeepsMatch(s: Store, ops: seq<Op>, n: nat, digest: string -> string)
    requires ValidStore(s) && AllMatch(s) && n <= |ops|
    requires forall i :: 0 <= i < |ops| ==> WellSourced(s, ops, i, digest)
    ensures AllMatch(Run(s, ops[..n], digest))
  {
    if n > 0 {
      RunKeepsMatch(s, ops, n - 1, digest);
      assert ops[..n] == ops[..n - 1] + [ops[n - 1]];
      RunSum(s, ops[..n - 1], [ops[n - 1]], digest);
      assert WellSourced(s, ops, n - 1, digest);
      StepKeepsMatch(s, ops, n - 1, digest);
      assert Run(Run(s, ops[..n - 1], digest), [ops[n - 1]], digest)
        == Step(Run(s, ops[..n - 1], digest), ops[n - 1], digest);
    }
  }

  /** The placements of one layout, as the repository lists them. */
  ghost predicate Listing(s: Store, layout: string, placements: seq<Placement>) {
    && DistinctPlacements(placements)
    && forall i :: 0 <= i < |placements| ==>
         (layout, placements[i].node) in s.table && s.table[(layout, placements[i].node)] == placements[i]
  }

  /** After any such run no plan is shown twice on any canvas. */
  lemma ProjectionAfterRun(
    ops: seq<Op>, digest: string -> string, layout: string, placements: seq<Placement>,
    workspace: string, items: seq<Item>, sessions: seq<Session>, forbidden: bool)
    requires forall i :: 0 <= i < |ops| ==> WellSourced(Store(map[], map[]), ops, i, digest)
    requires Listing(Run(Store(map[], map[]), ops, digest), layout, placements)
    ensures OnePlanNodeEach(ProjectionOf(workspace, items, sessions, placements, forbidden).nodes)
  {
    RunKeepsMatch(Store(map[], map[]), ops, |ops|, digest);
    assert ops[..|ops|] == ops;
    NoPlanShownTwice(workspace, items, sessions, placements, forbidden);
  }
}
