/** Canvas layouts and placements: what a stored canvas may contain, and what each operation does to it. */
module CanvasStore {
  import opened Options
  import opened NulKeys
  import opened Strings

  const MAX_PLACEMENTS: nat := 300
  const MAX_PLACEMENT_BATCH: nat := 50
  const MAX_COORDINATE: real := 1000000.0
  const MIN_ZOOM: real := 0.1
  const MAX_ZOOM: real := 2.0
  const MAX_INT64: int := 0x7fff_ffff_ffff_ffff

  /** A floating-point value; rounding plays no part here. */
  datatype Number = NaN | Infinite | Finite(value: real)

  datatype Kind = Workspace | Plan | Session | Unsupported

  datatype EntityRef = EntityRef(
    kind: Kind, workspace: string, item: string, path: string, branch: string, session: string)

  datatype Viewport = Viewport(x: Number, y: Number, zoom: Number)

  datatype Layout = Layout(
    id: string, owner: string, workspace: string, branch: string, viewport: Viewport, version: int)

  datatype Placement = Placement(
    layout: string, node: string, ref: EntityRef, x: Number, y: Number, collapsed: bool, hidden: bool, revision: int)

  datatype Patch = Patch(node: string, ref: EntityRef, x: Number, y: Number, collapsed: bool, expected: int)

  /** Adding one to a 64-bit counter. */
  function Next(n: int): int {
    if n == MAX_INT64 then -MAX_INT64 - 1 else n + 1
  }

  // ------------------------------------------------------------------ validation

  predicate ValidCoordinate(n: Number) {
    n.Finite? && -MAX_COORDINATE <= n.value <= MAX_COORDINATE
  }

  predicate ValidViewport(v: Viewport) {
    ValidCoordinate(v.x) && ValidCoordinate(v.y) && v.zoom.Finite? && MIN_ZOOM <= v.zoom.value <= MAX_ZOOM
  }

  predicate ValidLayout(l: Layout) {
    !IsBlank(l.id) && !IsBlank(l.workspace) && !IsBlank(l.branch) && l.version >= 1 && ValidViewport(l.viewport)
  }

  predicate ValidRef(l: Layout, r: EntityRef) {
    && !IsBlank(r.workspace) && r.workspace == l.workspace
    && match r.kind
       case Workspace => r.item == "" && r.session == ""
       case Plan => !IsBlank(r.item) && !IsBlank(r.path) && !IsBlank(r.branch) && r.branch == l.branch
       case Session => !IsBlank(r.session) && (r.branch == "" || r.branch == l.branch)
       case Unsupported => false
  }

  predicate ValidPlacement(l: Layout, p: Placement) {
    !IsBlank(p.node) && p.revision >= 1 && ValidCoordinate(p.x) && ValidCoordinate(p.y) && ValidRef(l, p.ref)
  }

  /** A user has one default layout for a branch of a workspace. */
  function DefaultKey(l: Layout): (string, string, string) {
    (l.owner, l.workspace, l.branch)
  }

  // ------------------------------------------------------------------ store

  type Key = (string, string)

  /** The stored canvas as both repositories see it: layouts by ID, placements by layout and node. */
  datatype Store = Store(layouts: map<string, Layout>, table: map<Key, Placement>)

  function KeyOf(p: Placement): Key {
    (p.layout, p.node)
  }

  function Placed(table: map<Key, Placement>, layout: string): set<Key> {
    set key | key in table && key.0 == layout
  }

  ghost predicate ValidRow(s: Store, key: Key)
    requires key in s.table
  {
    && KeyOf(s.table[key]) == key && key.0 in s.layouts && ValidPlacement(s.layouts[key.0], s.table[key])
  }

  ghost predicate ValidEntry(s: Store, id: string)
    requires id in s.layouts
  {
    && s.layouts[id].id == id && ValidLayout(s.layouts[id])
    && |Placed(s.table, id)| <= MAX_PLACEMENTS
  }

  ghost predicate ValidStore(s: Store) {
    && (forall id {:trigger ValidEntry(s, id)} :: id in s.layouts ==> ValidEntry(s, id))
    && (forall a, b :: a in s.layouts && b in s.layouts && a != b ==>
      DefaultKey(s.layouts[a]) != DefaultKey(s.layouts[b]))
    && (forall key {:trigger ValidRow(s, key)} :: key in s.table ==> ValidRow(s, key))
  }

  // ------------------------------------------------------------------ operations

  datatype Op =
    | Initialise(owner: string, workspace: string, branch: string, seed: seq<Placement>)
    | PatchAll(layout: string, patches: seq<Patch>)
    | Remove(layout: string, node: string, expected: int)
    | SaveViewport(layout: string, expected: int, viewport: Viewport)

  /** The new layout; `digest` stands for the hexadecimal hash its ID is made of. */
  function NewLayout(owner: string, workspace: string, branch: string, digest: string -> string): Option<Layout> {
    var o, w, b := Trim(owner), Trim(workspace), Trim(branch);
    if w == "" || b == "" then None
    else Some(Layout("canvas-" + digest(Join(o, Join(w, b))), o, w, b,
                     Viewport(Finite(0.0), Finite(0.0), Finite(1.0)), 1))
  }

  predicate IsDefault(l: Layout, owner: string, workspace: string, branch: string) {
    l.owner == owner && l.workspace == workspace && l.branch == branch
  }

  predicate HasDefault(s: Store, op: Op)
    requires op.Initialise?
  {
    exists id :: id in s.layouts && IsDefault(s.layouts[id], op.owner, op.workspace, op.branch)
  }

  predicate DistinctNodes(seed: seq<Placement>) {
    forall i, j :: 0 <= i < j < |seed| ==> seed[i].node != seed[j].node
  }

  function Fresh(layout: string, p: Patch): Placement {
    Placement(layout, p.node, p.ref, p.x, p.y, p.collapsed, false, 1)
  }

  function Moved(layout: string, p: Patch, current: Placement): Placement {
    Placement(layout, p.node, current.ref, p.x, p.y, p.collapsed, current.hidden, Next(current.revision))
  }

  /** The placement a patch makes: a new one, or the current one moved, with its identity kept. */
  function Patched(s: Store, layout: string, p: Patch): Placement {
    if (layout, p.node) in s.table then Moved(layout, p, s.table[(layout, p.node)]) else Fresh(layout, p)
  }

  /** The writer expects the stored revision, or none. */
  predicate Matches(s: Store, layout: string, p: Patch) {
    var key := (layout, p.node);
    if key in s.table then s.table[key].revision == p.expected else p.expected == 0
  }

  predicate DistinctPatches(patches: seq<Patch>) {
    forall i, j :: 0 <= i < j < |patches| ==> patches[i].node != patches[j].node
  }

  function PatchedKeys(layout: string, patches: seq<Patch>): set<Key> {
    set i | 0 <= i < |patches| :: (layout, patches[i].node)
  }

  /** Every patch of the batch names a node of its own, expects what is stored, and makes a valid placement. */
  predicate AcceptsPatches(s: Store, layout: string, patches: seq<Patch>) {
    && 1 <= |patches| <= MAX_PLACEMENT_BATCH && layout in s.layouts && DistinctPatches(patches)
    && (forall i :: 0 <= i < |patches| ==>
          Matches(s, layout, patches[i]) && ValidPlacement(s.layouts[layout], Patched(s, layout, patches[i])))
    && |Placed(s.table, layout) + PatchedKeys(layout, patches)| <= MAX_PLACEMENTS
  }

  predicate AcceptsLayout(s: Store, made: Layout, seed: seq<Placement>) {
    && 1 <= |seed| <= MAX_PLACEMENTS && made.id !in s.layouts
    && (forall id :: id in s.layouts ==> DefaultKey(s.layouts[id]) != DefaultKey(made))
    && (forall i :: 0 <= i < |seed| ==> ValidPlacement(made, seed[i])) && DistinctNodes(seed)
  }

  predicate Accepts(s: Store, op: Op, digest: string -> string) {
    match op
    case Initialise(owner, workspace, branch, seed) =>
      HasDefault(s, op) ||
      (var made := NewLayout(owner, workspace, branch, digest); made.Some? && AcceptsLayout(s, made.value, seed))
    case PatchAll(layout, patches) => AcceptsPatches(s, layout, patches)
    case Remove(layout, node, expected) =>
      && layout in s.layouts && (layout, node) in s.table
      && s.table[(layout, node)].revision == expected != MAX_INT64
    case SaveViewport(layout, expected, viewport) =>
      && ValidViewport(viewport) && layout in s.layouts
      && s.layouts[layout].version == expected != MAX_INT64
  }

  /** The rows a batch of patches writes, each patch made against the store the batch found. */
  function PatchRows(s: Store, layout: string, patches: seq<Patch>): map<Key, Placement> {
    if patches == [] then map[]
    else
      var last := patches[|patches| - 1];
      PatchRows(s, layout, patches[..|patches| - 1])[(layout, last.node) := Patched(s, layout, last)]
  }

  function SeedRows(layout: string, seed: seq<Placement>): map<Key, Placement> {
    if seed == [] then map[]
    else
      var last := seed[|seed| - 1];
      SeedRows(layout, seed[..|seed| - 1])[(layout, last.node) := last.(layout := layout)]
  }

  function WithPatches(s: Store, layout: string, patches: seq<Patch>): Store {
    s.(table := s.table + PatchRows(s, layout, patches))
  }

  function WithLayout(s: Store, made: Layout, seed: seq<Placement>): Store {
    Store(s.layouts[made.id := made], s.table + SeedRows(made.id, seed))
  }

  function WithHidden(s: Store, key: Key): Store
    requires key in s.table
  {
    s.(table := s.table[key := s.table[key].(hidden := true, revision := Next(s.table[key].revision))])
  }

  function WithViewport(s: Store, layout: string, viewport: Viewport): Store
    requires layout in s.layouts
  {
    var l := s.layouts[layout];
    s.(layouts := s.layouts[layout := l.(viewport := viewport, version := Next(l.version))])
  }

  function Step(s: Store, op: Op, digest: string -> string): Store {
    if !Accepts(s, op, digest) then s
    else
      match op
      case Initialise(owner, workspace, branch, seed) =>
        if HasDefault(s, op) then s
        else WithLayout(s, NewLayout(owner, workspace, branch, digest).value, seed)
      case PatchAll(layout, patches) => WithPatches(s, layout, patches)
      case Remove(layout, node, _) => WithHidden(s, (layout, node))
      case SaveViewport(layout, _, viewport) => WithViewport(s, layout, viewport)
  }

  function Run(s: Store, ops: seq<Op>, digest: string -> string): Store
    decreases |ops|
  {
    if ops == [] then s else Run(Step(s, ops[0], digest), ops[1..], digest)
  }

  // ------------------------------------------------------------------ validity is kept

  /** Rows of one layout written over the table: the layout's own rows are the union. */
  lemma PlacedAfter(table: map<Key, Placement>, rows: map<Key, Placement>, layout: string, other: string)
    requires forall key :: key in rows ==> key.0 == layout
    ensures Placed(table + rows, other)
      == if other == layout then Placed(table, other) + rows.Keys else Placed(table, other)
  {
  }

  lemma RowsKeepValid(s: Store, layout: string, rows: map<Key, Placement>)
    requires ValidStore(s) && layout in s.layouts
    requires forall key :: key in rows ==>
      key.0 == layout && KeyOf(rows[key]) == key && ValidPlacement(s.layouts[layout], rows[key])
    requires |Placed(s.table, layout) + rows.Keys| <= MAX_PLACEMENTS
    ensures ValidStore(s.(table := s.table + rows))
  {
    var t := s.(table := s.table + rows);
    forall id | id in t.layouts ensures ValidEntry(t, id) {
      assert ValidEntry(s, id);
      PlacedAfter(s.table, rows, layout, id);
    }
    forall key | key in t.table ensures ValidRow(t, key) {
      if key !in rows { assert ValidRow(s, key); }
    }
  }

  lemma {:induction false} PatchRowKeys(s: Store, layout: string, patches: seq<Patch>)
    ensures PatchRows(s, layout, patches).Keys == PatchedKeys(layout, patches)
  {
    if patches != [] {
      PatchRowKeys(s, layout, patches[..|patches| - 1]);
      KeysOneMore(layout, patches);
    }
  }

  lemma {:induction false} PatchRowAt(s: Store, layout: string, patches: seq<Patch>, i: nat)
    requires DistinctPatches(patches) && i < |patches|
    ensures (layout, patches[i].node) in PatchRows(s, layout, patches)
    ensures PatchRows(s, layout, patches)[(layout, patches[i].node)] == Patched(s, layout, patches[i])
  {
    var n := |patches| - 1;
    if i < n {
      assert patches[i].node != patches[n].node && patches[..n][i] == patches[i];
      PatchRowAt(s, layout, patches[..n], i);
    }
  }

  lemma RowsOfPatches(s: Store, layout: string, patches: seq<Patch>)
    requires DistinctPatches(patches)
    ensures PatchRows(s, layout, patches).Keys == PatchedKeys(layout, patches)
    ensures forall i :: 0 <= i < |patches| ==>
      PatchRows(s, layout, patches)[(layout, patches[i].node)] == Patched(s, layout, patches[i])
  {
    PatchRowKeys(s, layout, patches);
    forall i | 0 <= i < |patches|
      ensures PatchRows(s, layout, patches)[(layout, patches[i].node)] == Patched(s, layout, patches[i])
    {
      PatchRowAt(s, layout, patches, i);
    }
  }

  lemma KeysOneMore(layout: string, patches: seq<Patch>)
    requires patches != []
    ensures PatchedKeys(layout, patches)
      == PatchedKeys(layout, patches[..|patches| - 1]) + {(layout, patches[|patches| - 1].node)}
  {
    var before, n := patches[..|patches| - 1], |patches| - 1;
    forall key | key in PatchedKeys(layout, patches)
      ensures key in PatchedKeys(layout, before) + {(layout, patches[n].node)}
    {
      var i :| 0 <= i < |patches| && key == (layout, patches[i].node);
      assert i < n ==> before[i] == patches[i];
    }
    forall key | key in PatchedKeys(layout, before) ensures key in PatchedKeys(layout, patches) {
      var i :| 0 <= i < n && key == (layout, before[i].node);
      assert key == (layout, patches[i].node);
    }
  }

  lemma AcceptedPatch(s: Store, layout: string, patches: seq<Patch>, i: nat)
    requires AcceptsPatches(s, layout, patches) && i < |patches|
    ensures Matches(s, layout, patches[i]) && ValidPlacement(s.layouts[layout], Patched(s, layout, patches[i]))
  {
  }

  lemma PatchKeepsValid(s: Store, layout: string, patches: seq<Patch>)
    requires ValidStore(s) && AcceptsPatches(s, layout, patches)
    ensures ValidStore(WithPatches(s, layout, patches))
  {
    var rows := PatchRows(s, layout, patches);
    forall key | key in rows
      ensures key.0 == layout && KeyOf(rows[key]) == key && ValidPlacement(s.layouts[layout], rows[key])
    {
      RowsOfPatches(s, layout, patches);
      assert key in PatchedKeys(layout, patches);
      var i :| 0 <= i < |patches| && key == (layout, patches[i].node);
      AcceptedPatch(s, layout, patches, i);
    }
    assert rows.Keys == PatchedKeys(layout, patches) by { RowsOfPatches(s, layout, patches); }
    RowsKeepValid(s, layout, rows);
  }

  lemma HideKeepsValid(s: Store, key: Key)
    requires ValidStore(s) && key in s.table && s.table[key].revision != MAX_INT64
    ensures ValidStore(WithHidden(s, key))
  {
    var rows := map[key := s.table[key].(hidden := true, revision := Next(s.table[key].revision))];
    assert ValidRow(s, key) && ValidEntry(s, key.0);
    assert Placed(s.table, key.0) + rows.Keys == Placed(s.table, key.0);
    RowsKeepValid(s, key.0, rows);
    assert s.table + rows == WithHidden(s, key).table;
  }

  lemma ViewportKeepsValid(s: Store, layout: string, viewport: Viewport)
    requires ValidStore(s) && layout in s.layouts && ValidViewport(viewport) && s.layouts[layout].version != MAX_INT64
    ensures ValidStore(WithViewport(s, layout, viewport))
  {
    var t := WithViewport(s, layout, viewport);
    forall id | id in t.layouts ensures ValidEntry(t, id) { assert ValidEntry(s, id); }
    forall key | key in t.table ensures ValidRow(t, key) { assert ValidRow(s, key); }
  }

  lemma {:induction false} TrimNotBlank(s: string)
    requires Trim(s) != ""
    ensures !IsBlank(Trim(s))
  {
    TrimRightEnds(TrimLeft(s));
  }

  lemma {:induction false} TrimRightEnds(s: string)
    ensures TrimRight(s) != "" ==> !IsSpace(TrimRight(s)[|TrimRight(s)| - 1])
  {
    if s != [] && IsSpace(s[|s| - 1]) { TrimRightEnds(s[..|s| - 1]); }
  }

  lemma NewLayoutIsValid(owner: string, workspace: string, branch: string, digest: string -> string)
    requires NewLayout(owner, workspace, branch, digest).Some?
    ensures ValidLayout(NewLayout(owner, workspace, branch, digest).value)
  {
    TrimNotBlank(workspace);
    TrimNotBlank(branch);
    var made := NewLayout(owner, workspace, branch, digest).value;
    assert made.id[0] == 'c' && !IsSpace('c');
  }

  function SeedKeys(layout: string, seed: seq<Placement>): set<Key> {
    set i | 0 <= i < |seed| :: (layout, seed[i].node)
  }

  lemma SeedKeysOneMore(layout: string, seed: seq<Placement>)
    requires seed != []
    ensures SeedKeys(layout, seed) == SeedKeys(layout, seed[..|seed| - 1]) + {(layout, seed[|seed| - 1].node)}
  {
    var before, n := seed[..|seed| - 1], |seed| - 1;
    forall key | key in SeedKeys(layout, seed) ensures key in SeedKeys(layout, before) + {(layout, seed[n].node)} {
      var i :| 0 <= i < |seed| && key == (layout, seed[i].node);
      assert i < n ==> before[i] == seed[i];
    }
    forall key | key in SeedKeys(layout, before) ensures key in SeedKeys(layout, seed) {
      var i :| 0 <= i < n && key == (layout, before[i].node);
      assert key == (layout, seed[i].node);
    }
  }

  lemma {:induction false} SeedSize(layout: string, seed: seq<Placement>)
    ensures |SeedKeys(layout, seed)| <= |seed|
  {
    if seed != [] {
      SeedSize(layout, seed[..|seed| - 1]);
      SeedKeysOneMore(layout, seed);
    }
  }

  /** A new layout has no placements yet, so a valid store stays valid when it is added. */
  lemma EmptyLayoutKeepsValid(s: Store, made: Layout)
    requires ValidStore(s) && ValidLayout(made) && made.id !in s.layouts
    requires forall id :: id in s.layouts ==> DefaultKey(s.layouts[id]) != DefaultKey(made)
    ensures ValidStore(s.(layouts := s.layouts[made.id := made])) && Placed(s.table, made.id) == {}
  {
    var t := s.(layouts := s.layouts[made.id := made]);
    forall key | key in s.table ensures key.0 != made.id && ValidRow(t, key) { assert ValidRow(s, key); }
    forall id | id in t.layouts ensures ValidEntry(t, id) { if id in s.layouts { assert ValidEntry(s, id); } }
  }

  lemma {:induction false} SeedRowKeys(layout: string, seed: seq<Placement>)
    ensures SeedRows(layout, seed).Keys == SeedKeys(layout, seed)
  {
    if seed != [] {
      SeedRowKeys(layout, seed[..|seed| - 1]);
      SeedKeysOneMore(layout, seed);
    }
  }

  lemma {:induction false} SeedRowAt(layout: string, seed: seq<Placement>, i: nat)
    requires DistinctNodes(seed) && i < |seed|
    ensures (layout, seed[i].node) in SeedRows(layout, seed)
    ensures SeedRows(layout, seed)[(layout, seed[i].node)] == seed[i].(layout := layout)
  {
    var n := |seed| - 1;
    if i < n {
      assert seed[i].node != seed[n].node && seed[..n][i] == seed[i];
      SeedRowAt(layout, seed[..n], i);
    }
  }

  lemma RowsOfSeed(layout: string, seed: seq<Placement>)
    requires DistinctNodes(seed)
    ensures SeedRows(layout, seed).Keys == SeedKeys(layout, seed)
    ensures forall i :: 0 <= i < |seed| ==> SeedRows(layout, seed)[(layout, seed[i].node)] == seed[i].(layout := layout)
  {
    SeedRowKeys(layout, seed);
    forall i | 0 <= i < |seed| ensures SeedRows(layout, seed)[(layout, seed[i].node)] == seed[i].(layout := layout) {
      SeedRowAt(layout, seed, i);
    }
  }

  lemma LayoutKeepsValid(s: Store, made: Layout, seed: seq<Placement>)
    requires ValidStore(s) && AcceptsLayout(s, made, seed) && ValidLayout(made)
    ensures ValidStore(WithLayout(s, made, seed))
  {
    var rows := SeedRows(made.id, seed);
    EmptyLayoutKeepsValid(s, made);
    forall key | key in rows
      ensures key.0 == made.id && KeyOf(rows[key]) == key && ValidPlacement(made, rows[key])
    {
      RowsOfSeed(made.id, seed);
      assert key in SeedKeys(made.id, seed);
      var i :| 0 <= i < |seed| && key == (made.id, seed[i].node);
      assert ValidPlacement(made, seed[i]);
    }
    assert Placed(s.table, made.id) + rows.Keys == SeedKeys(made.id, seed) by { RowsOfSeed(made.id, seed); }
    SeedSize(made.id, seed);
    RowsKeepValid(s.(layouts := s.layouts[made.id := made]), made.id, rows);
  }

  lemma StepKeepsValid(s: Store, op: Op, digest: string -> string)
    requires ValidStore(s)
    ensures ValidStore(Step(s, op, digest))
  {
    if Accepts(s, op, digest) {
      match op
      case Initialise(owner, workspace, branch, seed) =>
        if !HasDefault(s, op) {
          NewLayoutIsValid(owner, workspace, branch, digest);
          LayoutKeepsValid(s, NewLayout(owner, workspace, branch, digest).value, seed);
        }
      case PatchAll(layout, patches) => PatchKeepsValid(s, layout, patches);
      case Remove(layout, node, _) => HideKeepsValid(s, (layout, node));
      case SaveViewport(layout, _, viewport) => ViewportKeepsValid(s, layout, viewport);
    }
  }

  // ------------------------------------------------------------------ results

  /** What becomes of a placement: it stays, keeps its entity, stays hidden once hidden, and any
      change raises its revision. */
  ghost predicate RowEvolves(a: Placement, b: Placement) {
    && b.ref == a.ref && b.layout == a.layout && b.node == a.node && (a.hidden ==> b.hidden)
    && (b == a || a.revision < b.revision)
  }

  ghost predicate Evolves(s: Store, t: Store) {
    && (forall key {:trigger s.table[key]} {:trigger t.table[key]} :: key in s.table ==>
          key in t.table && RowEvolves(s.table[key], t.table[key]))
    && (forall id :: id in s.layouts ==> id in t.layouts && s.layouts[id].version <= t.layouts[id].version)
  }

  lemma PatchedRowEvolves(s: Store, layout: string, patches: seq<Patch>, key: Key)
    requires ValidStore(s) && AcceptsPatches(s, layout, patches)
    requires key in s.table && key in PatchRows(s, layout, patches)
    ensures RowEvolves(s.table[key], PatchRows(s, layout, patches)[key])
  {
    RowsOfPatches(s, layout, patches);
    var i :| 0 <= i < |patches| && key == (layout, patches[i].node);
    MovedEvolves(s, layout, patches, i);
  }

  lemma MovedEvolves(s: Store, layout: string, patches: seq<Patch>, i: nat)
    requires ValidStore(s) && AcceptsPatches(s, layout, patches) && i < |patches|
    requires (layout, patches[i].node) in s.table
    ensures RowEvolves(s.table[(layout, patches[i].node)], Patched(s, layout, patches[i]))
  {
    AcceptedPatch(s, layout, patches, i);
    assert ValidRow(s, (layout, patches[i].node));
  }

  lemma PatchesEvolve(s: Store, layout: string, patches: seq<Patch>)
    requires ValidStore(s) && AcceptsPatches(s, layout, patches)
    ensures Evolves(s, WithPatches(s, layout, patches))
  {
    forall key | key in s.table && key in PatchRows(s, layout, patches)
      ensures RowEvolves(s.table[key], PatchRows(s, layout, patches)[key])
    {
      PatchedRowEvolves(s, layout, patches, key);
    }
  }

  lemma LayoutEvolves(s: Store, made: Layout, seed: seq<Placement>)
    requires ValidStore(s) && AcceptsLayout(s, made, seed)
    ensures Evolves(s, WithLayout(s, made, seed))
  {
    RowsOfSeed(made.id, seed);
    forall key | key in s.table ensures key.0 != made.id && key !in SeedKeys(made.id, seed) {
      assert ValidRow(s, key);
    }
  }

  lemma StepEvolves(s: Store, op: Op, digest: string -> string)
    requires ValidStore(s)
    ensures Evolves(s, Step(s, op, digest))
  {
    if Accepts(s, op, digest) {
      match op
      case Initialise(owner, workspace, branch, seed) =>
        if !HasDefault(s, op) { LayoutEvolves(s, NewLayout(owner, workspace, branch, digest).value, seed); }
      case PatchAll(layout, patches) => PatchesEvolve(s, layout, patches);
      case _ =>
    }
  }

  /** Over every run: the store stays valid, entity references never change, revisions of changed
      placements only grow, nothing placed disappears and nothing hidden comes back. */
  lemma {:induction false} RunEvolves(s: Store, ops: seq<Op>, digest: string -> string)
    requires ValidStore(s)
    ensures ValidStore(Run(s, ops, digest)) && Evolves(s, Run(s, ops, digest))
    decreases |ops|
  {
    if ops != [] {
      StepKeepsValid(s, ops[0], digest);
      StepEvolves(s, ops[0], digest);
      RunEvolves(Step(s, ops[0], digest), ops[1..], digest);
    }
  }

  /** The operation changes this placement on the strength of this revision. */
  predicate Targets(s: Store, op: Op, key: Key, expected: int) {
    match op
    case PatchAll(layout, patches) =>
      layout == key.0 && exists i :: 0 <= i < |patches| && patches[i].node == key.1 && patches[i].expected == expected
    case Remove(layout, node, e) => (layout, node) == key && e == expected
    case _ => false
  }

  lemma PatchedRevision(s: Store, layout: string, patches: seq<Patch>, i: nat)
    requires AcceptsPatches(s, layout, patches) && i < |patches|
    ensures var key, expected := (layout, patches[i].node), patches[i].expected;
      && (if key in s.table then s.table[key].revision else 0) == expected
      && key in WithPatches(s, layout, patches).table
      && WithPatches(s, layout, patches).table[key].revision > expected
  {
    AcceptedPatch(s, layout, patches, i);
    RowsOfPatches(s, layout, patches);
    assert (layout, patches[i].node) in PatchRows(s, layout, patches);
  }

  lemma TargetedRevision(s: Store, op: Op, digest: string -> string, key: Key, expected: int)
    requires ValidStore(s) && Accepts(s, op, digest) && Targets(s, op, key, expected)
    ensures (if key in s.table then s.table[key].revision else 0) == expected
    ensures key in Step(s, op, digest).table && Step(s, op, digest).table[key].revision > expected
  {
    if op.PatchAll? {
      var i :| 0 <= i < |op.patches| && op.patches[i].node == key.1 && op.patches[i].expected == expected;
      PatchedRevision(s, op.layout, op.patches, i);
    }
  }

  /** Two writers that name the same revision of a placement never both succeed, whatever ran between. */
  lemma SecondWriterConflicts(
    s: Store, first: Op, between: seq<Op>, second: Op, digest: string -> string, key: Key, expected: int)
    requires ValidStore(s)
    requires Accepts(s, first, digest) && Targets(s, first, key, expected)
    requires Targets(Run(Step(s, first, digest), between, digest), second, key, expected)
    ensures !Accepts(Run(Step(s, first, digest), between, digest), second, digest)
  {
    var t := Step(s, first, digest);
    var u := Run(t, between, digest);
    TargetedRevision(s, first, digest, key, expected);
    StepKeepsValid(s, first, digest);
    RunEvolves(t, between, digest);
    assert key in u.table && RowEvolves(t.table[key], u.table[key]);
    if Accepts(u, second, digest) {
      TargetedRevision(u, second, digest, key, expected);
    }
  }
}
