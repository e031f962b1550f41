/** What the operations on a canvas do to it, field by field, and when they are taken. */
module CanvasChanges {
  import opened Strings
  import opened CanvasStore

  // ------------------------------------------------------------------ a batch of patches

  /** The patched placement is where the patch says. One that was there keeps its identity and stays
      hidden or shown; its revision counts the change. */
  predicate RowDone(was: Store, now: Store, layout: string, p: Patch) {
    var key := (layout, p.node);
    && key in now.table
    && var row := now.table[key];
      && row.layout == layout && row.node == p.node
      && row.x == p.x && row.y == p.y && row.collapsed == p.collapsed
      && if key in was.table then
           && row.ref == was.table[key].ref && row.hidden == was.table[key].hidden
           && row.revision == was.table[key].revision + 1
         else row.ref == p.ref && !row.hidden && row.revision == 1
  }

  ghost predicate SameRow(was: Store, now: Store, key: Key) {
    (key in now.table <==> key in was.table) && (key in was.table ==> now.table[key] == was.table[key])
  }

  ghost predicate BatchDone(was: Store, now: Store, layout: string, patches: seq<Patch>) {
    && now.layouts == was.layouts
    && (forall i :: 0 <= i < |patches| ==> RowDone(was, now, layout, patches[i]))
    && (forall key: Key {:trigger SameRow(was, now, key)} ::
          (key.0 != layout || forall i :: 0 <= i < |patches| ==> patches[i].node != key.1) ==> SameRow(was, now, key))
  }

  lemma PatchIsDone(s: Store, layout: string, patches: seq<Patch>, i: nat)
    requires AcceptsPatches(s, layout, patches) && i < |patches|
    ensures RowDone(s, WithPatches(s, layout, patches), layout, patches[i])
  {
    AcceptedPatch(s, layout, patches, i);
    PatchRowAt(s, layout, patches, i);
  }

  /** An accepted batch does all of its patches and nothing else. */
  lemma BatchIsDone(s: Store, layout: string, patches: seq<Patch>)
    requires AcceptsPatches(s, layout, patches)
    ensures BatchDone(s, WithPatches(s, layout, patches), layout, patches)
  {
    var t := WithPatches(s, layout, patches);
    forall i | 0 <= i < |patches| ensures RowDone(s, t, layout, patches[i]) { PatchIsDone(s, layout, patches, i); }
    forall key: Key | key.0 != layout || forall i :: 0 <= i < |patches| ==> patches[i].node != key.1
      ensures SameRow(s, t, key)
    {
      PatchRowKeys(s, layout, patches);
      assert key !in PatchedKeys(layout, patches);
    }
  }

  lemma BatchIs(s: Store, layout: string, patches: seq<Patch>, digest: string -> string)
    requires ValidStore(s)
    ensures var op := PatchAll(layout, patches);
      && (Accepts(s, op, digest) <==> AcceptsPatches(s, layout, patches))
      && (Accepts(s, op, digest) ==>
            && Step(s, op, digest) == WithPatches(s, layout, patches) && ValidStore(Step(s, op, digest))
            && BatchDone(s, Step(s, op, digest), layout, patches))
  {
    if AcceptsPatches(s, layout, patches) {
      PatchKeepsValid(s, layout, patches);
      BatchIsDone(s, layout, patches);
    }
  }

  /** No further than a million from the origin. */
  predicate InReach(n: Number) {
    n.Finite? && -1000000.0 <= n.value <= 1000000.0
  }

  /** The reference names something of the layout's workspace, and of its branch where it names one. */
  predicate BelongsTo(l: Layout, r: EntityRef) {
    && r.workspace == l.workspace && !IsBlank(l.workspace) && r.kind != Unsupported
    && (r.kind == Workspace ==> r.item == "" && r.session == "")
    && (r.kind == Plan ==> !IsBlank(r.item) && !IsBlank(r.path) && !IsBlank(r.branch) && r.branch == l.branch)
    && (r.kind == CanvasStore.Session ==> !IsBlank(r.session) && r.branch in {"", l.branch})
  }

  /** The writer of the patch has seen what is stored, and what it makes may be stored. */
  predicate PatchFits(s: Store, layout: string, p: Patch)
    requires layout in s.layouts
  {
    var key := (layout, p.node);
    && !IsBlank(p.node) && InReach(p.x) && InReach(p.y)
    && if key in s.table then p.expected == s.table[key].revision != 0x7fff_ffff_ffff_ffff
       else p.expected == 0 && BelongsTo(s.layouts[layout], p.ref)
  }

  lemma PatchIsTaken(s: Store, layout: string, p: Patch)
    requires ValidStore(s) && layout in s.layouts
    ensures Matches(s, layout, p) && ValidPlacement(s.layouts[layout], Patched(s, layout, p))
      <==> PatchFits(s, layout, p)
  {
    var key := (layout, p.node);
    if key in s.table { assert ValidRow(s, key); }
  }

  /** A batch is accepted if and only if it has one to fifty patches, for different nodes of a known
      layout, each of which fits, and the layout then has no more than three hundred placements. */
  lemma BatchIsTaken(s: Store, layout: string, patches: seq<Patch>)
    requires ValidStore(s)
    ensures AcceptsPatches(s, layout, patches) <==>
      && 1 <= |patches| <= 50 && layout in s.layouts
      && (forall i, j :: 0 <= i < j < |patches| ==> patches[i].node != patches[j].node)
      && (forall i :: 0 <= i < |patches| ==> PatchFits(s, layout, patches[i]))
      && (var before := set key | key in s.table && key.0 == layout;
          var written := set i | 0 <= i < |patches| :: (layout, patches[i].node);
          |before + written| <= 300)
  {
    if layout in s.layouts {
      forall i | 0 <= i < |patches|
        ensures Matches(s, layout, patches[i]) && ValidPlacement(s.layouts[layout], Patched(s, layout, patches[i]))
          <==> PatchFits(s, layout, patches[i])
      {
        PatchIsTaken(s, layout, patches[i]);
      }
    }
    assert Placed(s.table, layout) == set key | key in s.table && key.0 == layout;
    assert PatchedKeys(layout, patches) == set i | 0 <= i < |patches| :: (layout, patches[i].node);
  }

  // ------------------------------------------------------------------ the other operations

  /** The placement is hidden and its revision counts the change; nothing else differs. */
  ghost predicate HideDone(was: Store, now: Store, layout: string, node: string) {
    var key := (layout, node);
    && key in was.table && key in now.table && now.layouts == was.layouts
    && now.table[key].hidden && now.table[key].revision == was.table[key].revision + 1
    && now.table[key].(hidden := was.table[key].hidden, revision := was.table[key].revision) == was.table[key]
    && forall other: Key {:trigger SameRow(was, now, other)} :: other != key ==> SameRow(was, now, other)
  }

  lemma HideIsDone(s: Store, key: Key)
    requires key in s.table && s.table[key].revision != MAX_INT64
    ensures HideDone(s, WithHidden(s, key), key.0, key.1)
  {
  }

  /** The writer has seen the placement as it is stored. */
  predicate SeenPlacement(s: Store, layout: string, node: string, expected: int) {
    && layout in s.layouts && (layout, node) in s.table
    && s.table[(layout, node)].revision == expected != 0x7fff_ffff_ffff_ffff
  }

  lemma RemovalIs(s: Store, layout: string, node: string, expected: int, digest: string -> string)
    ensures var op := Remove(layout, node, expected);
      && (Accepts(s, op, digest) <==> SeenPlacement(s, layout, node, expected))
      && (Accepts(s, op, digest) ==> HideDone(s, Step(s, op, digest), layout, node))
  {
    if SeenPlacement(s, layout, node, expected) { HideIsDone(s, (layout, node)); }
  }

  /** The layout is seen from there and its version counts the change; nothing else differs. */
  ghost predicate ViewDone(was: Store, now: Store, layout: string, viewport: Viewport) {
    && layout in was.layouts && now.table == was.table
    && var l := was.layouts[layout];
      now.layouts
        == was.layouts[layout := Layout(l.id, l.owner, l.workspace, l.branch, viewport, l.version + 1)]
  }

  lemma ViewIsDone(s: Store, layout: string, viewport: Viewport)
    requires layout in s.layouts && s.layouts[layout].version != MAX_INT64
    ensures ViewDone(s, WithViewport(s, layout, viewport), layout, viewport)
  {
  }

  /** No further than a million from the origin, at a tenth to twice the size. */
  predicate MayBeSeen(v: Viewport) {
    InReach(v.x) && InReach(v.y) && v.zoom.Finite? && 0.1 <= v.zoom.value <= 2.0
  }

  /** What a file or a table may hold. */
  predicate LayoutMayBeStored(l: Layout) {
    !IsBlank(l.id) && !IsBlank(l.workspace) && !IsBlank(l.branch) && l.version > 0 && MayBeSeen(l.viewport)
  }

  predicate PlacementMayBeStored(l: Layout, p: Placement) {
    !IsBlank(p.node) && p.revision > 0 && InReach(p.x) && InReach(p.y) && BelongsTo(l, p.ref)
  }

  lemma StoredValues(l: Layout, p: Placement)
    ensures ValidLayout(l) <==> LayoutMayBeStored(l)
    ensures ValidPlacement(l, p) <==> PlacementMayBeStored(l, p)
  {
  }

  lemma ViewportIsTaken(v: Viewport)
    ensures ValidViewport(v) <==> MayBeSeen(v)
  {
  }

  /** The writer has seen the layout as it is stored. */
  predicate SeenLayout(s: Store, layout: string, expected: int) {
    layout in s.layouts && s.layouts[layout].version == expected != 0x7fff_ffff_ffff_ffff
  }

  lemma ViewingIs(s: Store, layout: string, expected: int, viewport: Viewport, digest: string -> string)
    ensures var op := SaveViewport(layout, expected, viewport);
      && (Accepts(s, op, digest) <==> MayBeSeen(viewport) && SeenLayout(s, layout, expected))
      && (Accepts(s, op, digest) ==> ViewDone(s, Step(s, op, digest), layout, viewport))
  {
    ViewportIsTaken(viewport);
    if SeenLayout(s, layout, expected) { ViewIsDone(s, layout, viewport); }
  }

  predicate KnowsDefault(s: Store, owner: string, workspace: string, branch: string) {
    exists id :: id in s.layouts &&
      (s.layouts[id].owner, s.layouts[id].workspace, s.layouts[id].branch) == (owner, workspace, branch)
  }

  lemma KnowingIs(s: Store, owner: string, workspace: string, branch: string, seed: seq<Placement>)
    ensures HasDefault(s, Initialise(owner, workspace, branch, seed)) <==> KnowsDefault(s, owner, workspace, branch)
  {
    if HasDefault(s, Initialise(owner, workspace, branch, seed)) {
      var id :| id in s.layouts && IsDefault(s.layouts[id], owner, workspace, branch);
      assert (s.layouts[id].owner, s.layouts[id].workspace, s.layouts[id].branch) == (owner, workspace, branch);
    }
    if KnowsDefault(s, owner, workspace, branch) {
      var id :| id in s.layouts &&
        (s.layouts[id].owner, s.layouts[id].workspace, s.layouts[id].branch) == (owner, workspace, branch);
      assert IsDefault(s.layouts[id], owner, workspace, branch);
    }
  }

  /** There is a new layout, seen from the origin, with just the seed on it; nothing else differs. */
  ghost predicate CreateDone(was: Store, now: Store, made: Layout, seed: seq<Placement>) {
    && made.id !in was.layouts && now.layouts == was.layouts[made.id := made]
    && made.viewport == Viewport(Finite(0.0), Finite(0.0), Finite(1.0)) && made.version == 1
    && (forall i :: 0 <= i < |seed| ==>
          (made.id, seed[i].node) in now.table && now.table[(made.id, seed[i].node)] == seed[i].(layout := made.id))
    && (forall key: Key {:trigger SameRow(was, now, key)} ::
          (key.0 != made.id || forall i :: 0 <= i < |seed| ==> seed[i].node != key.1) ==> SameRow(was, now, key))
  }

  lemma CreateIsDone(s: Store, made: Layout, seed: seq<Placement>)
    requires AcceptsLayout(s, made, seed) && made.version == 1
    requires made.viewport == Viewport(Finite(0.0), Finite(0.0), Finite(1.0))
    ensures CreateDone(s, WithLayout(s, made, seed), made, seed)
  {
    var t := WithLayout(s, made, seed);
    forall i | 0 <= i < |seed|
      ensures (made.id, seed[i].node) in t.table && t.table[(made.id, seed[i].node)] == seed[i].(layout := made.id)
    {
      SeedRowAt(made.id, seed, i);
    }
    forall key: Key | key.0 != made.id || forall i :: 0 <= i < |seed| ==> seed[i].node != key.1
      ensures SameRow(s, t, key)
    {
      SeedRowKeys(made.id, seed);
      assert key !in SeedKeys(made.id, seed);
    }
  }

  /** The new layout belongs to the trimmed owner, workspace and branch, and its ID is made of them. */
  lemma NewLayoutIs(owner: string, workspace: string, branch: string, digest: string -> string)
    ensures var made := NewLayout(owner, workspace, branch, digest);
      var o, w, b := Trim(owner), Trim(workspace), Trim(branch);
      && (made.Some? <==> w != "" && b != "")
      && (made.Some? ==>
            && made.value.id == "canvas-" + digest(o + "\0" + w + "\0" + b)
            && made.value.owner == o && made.value.workspace == w && made.value.branch == b
            && made.value.version == 1 && made.value.viewport == Viewport(Finite(0.0), Finite(0.0), Finite(1.0)))
  {
    var o, w, b := Trim(owner), Trim(workspace), Trim(branch);
    assert o + "\0" + (w + "\0" + b) == o + "\0" + w + "\0" + b;
  }
}
