/**
  The canvas kept in one file: two lists, changed in memory and stored as a whole once they are
  checked. Storing a checked snapshot either happens or does not (`healthy`).
 */
module CanvasFileRepository {
  import opened CanvasStore
  import opened CanvasChanges
  import opened CanvasSnapshots
  import opened CanvasBatches

  lemma ReplacedLayout(layouts: seq<Layout>, i: nat, l: Layout, id: string)
    requires UniqueIds(layouts) && i < |layouts| && layouts[i].id == l.id && UniqueIds(layouts[i := l])
    ensures id in LayoutMap(layouts[i := l]) <==> id in LayoutMap(layouts)
    ensures id in LayoutMap(layouts) ==>
      LayoutMap(layouts[i := l])[id] == if id == l.id then l else LayoutMap(layouts)[id]
  {
    var all := layouts[i := l];
    if id in LayoutMap(layouts) {
      var k := LayoutIndex(layouts, id);
      LayoutAt(all, k);
      if id == l.id { LayoutAt(all, i); }
    }
    if id in LayoutMap(all) {
      var k := LayoutIndex(all, id);
      LayoutAt(layouts, k);
    }
  }

  lemma ReplaceLayout(layouts: seq<Layout>, i: nat, l: Layout)
    requires UniqueIds(layouts) && i < |layouts| && layouts[i].id == l.id
    ensures UniqueIds(layouts[i := l]) && LayoutMap(layouts[i := l]) == LayoutMap(layouts)[l.id := l]
  {
    ReplacedIds(layouts, i, l);
    LayoutAt(layouts, i);
    var all, m := LayoutMap(layouts[i := l]), LayoutMap(layouts)[l.id := l];
    forall id ensures (id in all <==> id in m) && (id in m ==> all[id] == m[id]) {
      ReplacedLayout(layouts, i, l, id);
    }
  }

  lemma ReplacedIds(layouts: seq<Layout>, i: nat, l: Layout)
    requires UniqueIds(layouts) && i < |layouts| && layouts[i].id == l.id
    ensures UniqueIds(layouts[i := l])
  {
    var all := layouts[i := l];
    forall a, b | 0 <= a < b < |all| ensures all[a].id != all[b].id {
      assert layouts[a].id != layouts[b].id;
    }
  }

  /** The snapshot is one the repository can have stored. */
  ghost predicate Stored(s: Snapshot) {
    UniqueIds(s.layouts) && UniqueKeys(s.placements) && ValidStore(AsStore(s)) && JoinsApart(AsStore(s))
  }

  lemma StoredIsValid(s: Snapshot)
    ensures Stored(s) <==> ValidSnapshot(s)
  {
    if ValidSnapshot(s) { ValidKeysAreUnique(s); }
    if UniqueIds(s.layouts) && UniqueKeys(s.placements) { SnapshotIsStore(s); }
  }

  /** What the file takes: what the store accepts, unless two joined keys of the result are the same. */
  predicate FileAccepts(s: Store, op: Op, digest: string -> string) {
    Accepts(s, op, digest) && JoinsApart(Step(s, op, digest))
  }

  lemma AcceptedStep(s: Store, layout: string, patches: seq<Patch>, digest: string -> string)
    requires AcceptsPatches(s, layout, patches)
    ensures Step(s, PatchAll(layout, patches), digest) == WithPatches(s, layout, patches)
    ensures FileAccepts(s, PatchAll(layout, patches), digest) <==> JoinsApart(WithPatches(s, layout, patches))
  {
  }

  /** For a batch that can be seen beforehand: it is about the placements there are and those it names. */
  lemma BatchJoins(s: Store, layout: string, patches: seq<Patch>, digest: string -> string)
    requires JoinsApart(s)
    ensures FileAccepts(s, PatchAll(layout, patches), digest)
      <==> AcceptsPatches(s, layout, patches) && KeysApart(s.table.Keys + PatchedKeys(layout, patches))
  {
    if AcceptsPatches(s, layout, patches) {
      AcceptedStep(s, layout, patches, digest);
      RowsOfPatches(s, layout, patches);
      assert WithPatches(s, layout, patches).table.Keys == s.table.Keys + PatchedKeys(layout, patches);
    }
  }

  function Hidden(p: Placement): Placement {
    p.(hidden := true, revision := Next(p.revision))
  }

  /** Hiding a placement leaves a valid snapshot unless its revision cannot grow. */
  lemma HiddenSnapshot(s: Snapshot, i: nat)
    requires Stored(s) && i < |s.placements|
    ensures var p := s.placements[i];
      var next := s.(placements := s.placements[i := Hidden(p)]);
      && (ValidSnapshot(next) <==> p.revision != MAX_INT64)
      && (p.revision != MAX_INT64 ==> Stored(next) && AsStore(next) == WithHidden(AsStore(s), KeyOf(p)))
  {
    var p := s.placements[i];
    var next := s.(placements := s.placements[i := Hidden(p)]);
    RowAt(s.placements, i);
    ReplaceRow(s.placements, i, Hidden(p));
    if p.revision != MAX_INT64 {
      HideKeepsValid(AsStore(s), KeyOf(p));
      assert AsStore(next) == WithHidden(AsStore(s), KeyOf(p));
      assert AsStore(next).table.Keys == AsStore(s).table.Keys;
      SnapshotIsStore(next);
    } else {
      assert next.placements[i].revision < 1;
      assert !Fits(next.layouts, next.placements[i]);
    }
  }

  function Viewed(l: Layout, viewport: Viewport): Layout {
    l.(viewport := viewport, version := Next(l.version))
  }

  lemma ViewedStaysApart(layouts: map<string, Layout>, id: string, viewport: Viewport)
    requires LayoutsApart(layouts) && id in layouts
    ensures LayoutsApart(layouts[id := Viewed(layouts[id], viewport)])
  {
  }

  lemma ViewedSnapshot(s: Snapshot, i: nat, viewport: Viewport)
    requires Stored(s) && i < |s.layouts| && ValidViewport(viewport)
    ensures var l := s.layouts[i];
      var next := s.(layouts := s.layouts[i := Viewed(l, viewport)]);
      && (ValidSnapshot(next) <==> l.version != MAX_INT64)
      && (l.version != MAX_INT64 ==> Stored(next) && AsStore(next) == WithViewport(AsStore(s), l.id, viewport))
  {
    var l := s.layouts[i];
    var next := s.(layouts := s.layouts[i := Viewed(l, viewport)]);
    LayoutAt(s.layouts, i);
    ReplaceLayout(s.layouts, i, Viewed(l, viewport));
    if l.version != MAX_INT64 {
      ViewportKeepsValid(AsStore(s), l.id, viewport);
      assert AsStore(next) == WithViewport(AsStore(s), l.id, viewport);
      ViewedStaysApart(AsStore(s).layouts, l.id, viewport);
      SnapshotIsStore(next);
    } else {
      assert next.layouts[i].version < 1;
    }
  }

  function Seeded(layout: string, seed: seq<Placement>): (r: seq<Placement>)
    ensures |r| == |seed| && forall i :: 0 <= i < |seed| ==> r[i] == seed[i].(layout := layout)
  {
    if seed == [] then [] else Seeded(layout, seed[..|seed| - 1]) + [seed[|seed| - 1].(layout := layout)]
  }

  lemma SeedIsFresh(table: map<Key, Placement>, layout: string, seed: seq<Placement>, n: nat)
    requires Placed(table, layout) == {} && DistinctNodes(seed) && n < |seed|
    ensures (layout, seed[n].node) !in table + SeedRows(layout, seed[..n])
  {
    var key := (layout, seed[n].node);
    RowsOfSeed(layout, seed[..n]);
    assert key !in table by { assert key !in Placed(table, layout); }
    assert key !in SeedKeys(layout, seed[..n]);
  }

  lemma PutInSum<K, V>(a: map<K, V>, b: map<K, V>, k: K, v: V)
    ensures (a + b)[k := v] == a + b[k := v]
  {
  }

  lemma AppendTo(before: seq<Placement>, table: map<Key, Placement>, rows: map<Key, Placement>, p: Placement)
    requires UniqueKeys(before) && Table(before) == table + rows && KeyOf(p) !in table + rows
    ensures UniqueKeys(before + [p]) && Table(before + [p]) == table + rows[KeyOf(p) := p]
  {
    AppendRow(before, p);
    PutInSum(table, rows, KeyOf(p), p);
  }

  lemma {:induction false} SeedAppended(placements: seq<Placement>, layout: string, seed: seq<Placement>)
    requires UniqueKeys(placements) && Placed(Table(placements), layout) == {} && DistinctNodes(seed)
    ensures UniqueKeys(placements + Seeded(layout, seed))
    ensures Table(placements + Seeded(layout, seed)) == Table(placements) + SeedRows(layout, seed)
  {
    if seed == [] {
      assert placements + Seeded(layout, seed) == placements;
    } else {
      var n := |seed| - 1;
      var before, row := placements + Seeded(layout, seed[..n]), seed[n].(layout := layout);
      SeedAppended(placements, layout, seed[..n]);
      SeedIsFresh(Table(placements), layout, seed, n);
      assert placements + Seeded(layout, seed) == before + [row];
      AppendTo(before, Table(placements), SeedRows(layout, seed[..n]), row);
    }
  }

  function WithSeed(s: Snapshot, made: Layout, seed: seq<Placement>): Snapshot {
    Snapshot(s.layouts + [made], s.placements + Seeded(made.id, seed))
  }

  // An enlarged snapshot passes the check exactly when the new layout and its seed are acceptable.

  lemma AppendedLayout(layouts: seq<Layout>, made: Layout)
    requires UniqueIds(layouts) && made.id !in LayoutMap(layouts)
    ensures UniqueIds(layouts + [made]) && LayoutMap(layouts + [made]) == LayoutMap(layouts)[made.id := made]
  {
    forall i | 0 <= i < |layouts| ensures layouts[i].id != made.id { LayoutAt(layouts, i); }
    AppendToMap(layouts, made);
  }

  lemma NewLayoutDiffers(layouts: seq<Layout>, made: Layout, id: string)
    requires UniqueIds(layouts) && ValidLayouts(layouts + [made]) && id in LayoutMap(layouts)
    ensures id != made.id && LayoutKey(LayoutMap(layouts)[id]) != LayoutKey(made)
  {
    var j := LayoutIndex(layouts, id);
    assert (layouts + [made])[j] == layouts[j] && (layouts + [made])[|layouts|] == made;
    assert LayoutsDiffer((layouts + [made])[j], (layouts + [made])[|layouts|]);
  }

  lemma SeedFits(layouts: seq<Layout>, placements: seq<Placement>, made: Layout, seed: seq<Placement>, i: nat)
    requires UniqueIds(layouts) && made.id !in LayoutMap(layouts) && i < |seed|
    requires ValidPlacements(layouts + [made], placements + Seeded(made.id, seed))
    ensures ValidPlacement(made, seed[i])
  {
    var all := placements + Seeded(made.id, seed);
    assert all[|placements| + i] == seed[i].(layout := made.id);
    AppendedLayout(layouts, made);
    FitsById(layouts + [made], all[|placements| + i]);
    assert Fits(layouts + [made], all[|placements| + i]);
  }

  lemma SeedDiffers(layouts: seq<Layout>, placements: seq<Placement>, layout: string, seed: seq<Placement>)
    requires ValidPlacements(layouts, placements + Seeded(layout, seed))
    ensures DistinctNodes(seed)
  {
    var all, m := placements + Seeded(layout, seed), |placements|;
    forall i, j | 0 <= i < j < |seed| ensures seed[i].node != seed[j].node {
      assert all[m + i] == seed[i].(layout := layout) && all[m + j] == seed[j].(layout := layout);
      assert NodeKey(all[m + i]) != NodeKey(all[m + j]);
    }
  }

  lemma SeededIsAcceptable(s: Snapshot, made: Layout, seed: seq<Placement>)
    requires Stored(s) && 1 <= |seed| <= MAX_PLACEMENTS && ValidSnapshot(WithSeed(s, made, seed))
    ensures AcceptsLayout(AsStore(s), made, seed)
  {
    forall id | id in AsStore(s).layouts
      ensures id != made.id && DefaultKey(AsStore(s).layouts[id]) != DefaultKey(made)
    {
      NewLayoutDiffers(s.layouts, made, id);
    }
    forall i | 0 <= i < |seed| ensures ValidPlacement(made, seed[i]) {
      SeedFits(s.layouts, s.placements, made, seed, i);
    }
    SeedDiffers(s.layouts + [made], s.placements, made.id, seed);
  }

  lemma SeededStore(s: Snapshot, made: Layout, seed: seq<Placement>)
    requires Stored(s) && ValidLayout(made) && AcceptsLayout(AsStore(s), made, seed)
    ensures var next := WithSeed(s, made, seed);
      && UniqueIds(next.layouts) && UniqueKeys(next.placements)
      && AsStore(next) == WithLayout(AsStore(s), made, seed) && ValidStore(AsStore(next))
  {
    AppendedLayout(s.layouts, made);
    EmptyLayoutKeepsValid(AsStore(s), made);
    SeedAppended(s.placements, made.id, seed);
    assert AsStore(WithSeed(s, made, seed)) == WithLayout(AsStore(s), made, seed);
    LayoutKeepsValid(AsStore(s), made, seed);
  }

  lemma SeededSnapshot(s: Snapshot, made: Layout, seed: seq<Placement>)
    requires Stored(s) && ValidLayout(made) && 1 <= |seed| <= MAX_PLACEMENTS
    ensures var next := WithSeed(s, made, seed);
      var accepted := AcceptsLayout(AsStore(s), made, seed) && JoinsApart(WithLayout(AsStore(s), made, seed));
      && (ValidSnapshot(next) <==> accepted)
      && (accepted ==> Stored(next) && AsStore(next) == WithLayout(AsStore(s), made, seed))
  {
    var next := WithSeed(s, made, seed);
    if ValidSnapshot(next) { SeededIsAcceptable(s, made, seed); }
    if AcceptsLayout(AsStore(s), made, seed) {
      SeededStore(s, made, seed);
      SnapshotIsStore(next);
    }
  }

  lemma AcceptedInitialise(s: Store, op: Op, made: Layout, digest: string -> string)
    requires op.Initialise? && !HasDefault(s, op) && NewLayout(op.owner, op.workspace, op.branch, digest).Some?
    requires made == NewLayout(op.owner, op.workspace, op.branch, digest).value
    ensures Accepts(s, op, digest) <==> AcceptsLayout(s, made, op.seed)
    ensures Accepts(s, op, digest) ==> Step(s, op, digest) == WithLayout(s, made, op.seed)
  {
  }

  /** The outcome of a new default layout, checked: the store's step, unless joined keys meet. */
  lemma InitialisedSnapshot(s: Snapshot, op: Op, digest: string -> string)
    requires Stored(s) && op.Initialise? && !HasDefault(AsStore(s), op) && 1 <= |op.seed| <= MAX_PLACEMENTS
    requires NewLayout(op.owner, op.workspace, op.branch, digest).Some?
    ensures var next := WithSeed(s, NewLayout(op.owner, op.workspace, op.branch, digest).value, op.seed);
      && (ValidSnapshot(next) <==> FileAccepts(AsStore(s), op, digest))
      && (ValidSnapshot(next) ==> Stored(next) && AsStore(next) == Step(AsStore(s), op, digest))
  {
    var made := NewLayout(op.owner, op.workspace, op.branch, digest).value;
    NewLayoutIsValid(op.owner, op.workspace, op.branch, digest);
    AcceptedInitialise(AsStore(s), op, made, digest);
    SeededSnapshot(s, made, op.seed);
  }

  lemma PatchedSnapshot(s: Snapshot, op: Op, placements: seq<Placement>, digest: string -> string)
    requires Stored(s) && op.PatchAll? && AcceptsPatches(AsStore(s), op.layout, op.patches)
    requires UniqueKeys(placements) && Table(placements) == WithPatches(AsStore(s), op.layout, op.patches).table
    ensures var next := s.(placements := placements);
      && (ValidSnapshot(next) <==> FileAccepts(AsStore(s), op, digest))
      && (ValidSnapshot(next) ==> Stored(next) && AsStore(next) == Step(AsStore(s), op, digest))
  {
    var next, t := s.(placements := placements), AsStore(s);
    PatchKeepsValid(t, op.layout, op.patches);
    AcceptedStep(t, op.layout, op.patches, digest);
    CheckedStore(next, WithPatches(t, op.layout, op.patches));
  }

  /** Lists that stand for a valid store pass the check if and only if its joined keys are apart. */
  lemma CheckedStore(s: Snapshot, t: Store)
    requires UniqueIds(s.layouts) && UniqueKeys(s.placements)
    requires t == Store(LayoutMap(s.layouts), Table(s.placements)) && ValidStore(t)
    ensures ValidSnapshot(s) <==> JoinsApart(t)
    ensures JoinsApart(t) ==> Stored(s) && AsStore(s) == t
  {
    SnapshotIsStore(s);
  }

  class FileRepository {
    var state: Snapshot
    const digest: string -> string

    ghost predicate Valid()
      reads this
    {
      Stored(state)
    }

    ghost function Abs(): Store
      reads this
      requires Valid()
    {
      AsStore(state)
    }

    constructor (digest: string -> string)
      ensures Valid() && Abs() == Store(map[], map[]) && this.digest == digest
    {
      state := Snapshot([], []);
      this.digest := digest;
    }

    /** A file that was there before; loading it checks it. */
    constructor Load(snapshot: Snapshot, digest: string -> string)
      requires ValidSnapshot(snapshot)
      ensures Valid() && state == snapshot && this.digest == digest
    {
      StoredIsValid(snapshot);
      state := snapshot;
      this.digest := digest;
    }

    method Save(next: Snapshot, healthy: bool) returns (ok: bool)
      modifies this
      ensures ok == (healthy && ValidSnapshot(next))
      ensures state == if ok then next else old(state)
    {
      ok := Validate(next);
      ok := ok && healthy;
      if ok { state := next; }
    }

    method FindLayout(id: string) returns (found: bool, i: nat)
      requires Valid()
      ensures found <==> id in Abs().layouts
      ensures found ==> i < |state.layouts| && state.layouts[i].id == id && Abs().layouts[id] == state.layouts[i]
    {
      found, i := false, 0;
      while i < |state.layouts|
        invariant 0 <= i <= |state.layouts|
        invariant forall j :: 0 <= j < i ==> state.layouts[j].id != id
      {
        if state.layouts[i].id == id {
          LayoutAt(state.layouts, i);
          return true, i;
        }
        i := i + 1;
      }
    }

    method FindPlacement(layout: string, node: string) returns (found: bool, i: nat)
      requires Valid()
      ensures found <==> (layout, node) in Abs().table
      ensures found ==> i < |state.placements| && KeyOf(state.placements[i]) == (layout, node)
                        && Abs().table[(layout, node)] == state.placements[i]
    {
      found, i := false, 0;
      while i < |state.placements|
        invariant 0 <= i <= |state.placements|
        invariant forall j :: 0 <= j < i ==> KeyOf(state.placements[j]) != (layout, node)
      {
        if state.placements[i].layout == layout && state.placements[i].node == node {
          RowAt(state.placements, i);
          return true, i;
        }
        i := i + 1;
      }
    }

    method FindDefault(owner: string, workspace: string, branch: string, seed: seq<Placement>) returns (found: bool)
      requires Valid()
      ensures found == HasDefault(Abs(), Initialise(owner, workspace, branch, seed))
    {
      var i := 0;
      while i < |state.layouts|
        invariant 0 <= i <= |state.layouts|
        invariant forall j :: 0 <= j < i ==> !IsDefault(state.layouts[j], owner, workspace, branch)
      {
        if IsDefault(state.layouts[i], owner, workspace, branch) {
          LayoutAt(state.layouts, i);
          assert IsDefault(Abs().layouts[state.layouts[i].id], owner, workspace, branch);
          return true;
        }
        i := i + 1;
      }
      found := false;
    }

    method InitializeDefault(owner: string, workspace: string, branch: string, seed: seq<Placement>, healthy: bool)
      returns (ok: bool, created: bool)
      requires Valid()
      modifies this
      ensures Valid()
      ensures var op := Initialise(owner, workspace, branch, seed);
        && ok == (HasDefault(old(Abs()), op) || (healthy && FileAccepts(old(Abs()), op, digest)))
        && created == (ok && !HasDefault(old(Abs()), op))
        && Abs() == if ok then Step(old(Abs()), op, digest) else old(Abs())
      ensures created ==>
        var made := NewLayout(owner, workspace, branch, digest);
        made.Some? && CreateDone(old(Abs()), Abs(), made.value, seed)
      ensures !created ==> Abs() == old(Abs())
      ensures ok && !created <==> KnowsDefault(old(Abs()), owner, workspace, branch)
    {
      KnowingIs(Abs(), owner, workspace, branch, seed);
      var found := FindDefault(owner, workspace, branch, seed);
      if found { return true, false; }
      var made := NewLayout(owner, workspace, branch, digest);
      if made.None? || |seed| == 0 || |seed| > MAX_PLACEMENTS { return false, false; }
      InitialisedSnapshot(state, Initialise(owner, workspace, branch, seed), digest);
      NewLayoutIs(owner, workspace, branch, digest);
      if AcceptsLayout(Abs(), made.value, seed) { CreateIsDone(Abs(), made.value, seed); }
      ok := Save(WithSeed(state, made.value, seed), healthy);
      created := ok;
    }

    method PatchPlacements(layout: string, patches: seq<Patch>, healthy: bool) returns (ok: bool)
      requires Valid()
      modifies this
      ensures Valid()
      ensures ok == (healthy && FileAccepts(old(Abs()), PatchAll(layout, patches), digest))
      ensures Abs() == if ok then Step(old(Abs()), PatchAll(layout, patches), digest) else old(Abs())
      ensures ok ==> BatchDone(old(Abs()), Abs(), layout, patches)
      ensures !ok ==> state == old(state)
    {
      if |patches| == 0 || |patches| > MAX_PLACEMENT_BATCH { return false; }
      var found, i := FindLayout(layout);
      if !found { return false; }
      assert ValidEntry(Abs(), layout);
      var placements;
      ok, placements := ApplyPatches(Abs(), state.layouts[i], state.placements, patches);
      if ok {
        PatchedSnapshot(state, PatchAll(layout, patches), placements, digest);
        BatchIsDone(Abs(), layout, patches);
        ok := Save(state.(placements := placements), healthy);
      }
    }

    method RemovePlacement(layout: string, node: string, expected: int, healthy: bool) returns (ok: bool)
      requires Valid()
      modifies this
      ensures Valid()
      ensures ok == (healthy && Accepts(old(Abs()), Remove(layout, node, expected), digest))
      ensures Abs() == if ok then Step(old(Abs()), Remove(layout, node, expected), digest) else old(Abs())
      ensures ok <==> healthy && SeenPlacement(old(Abs()), layout, node, expected)
      ensures ok ==> HideDone(old(Abs()), Abs(), layout, node)
    {
      RemovalIs(Abs(), layout, node, expected, digest);
      var known, _ := FindLayout(layout);
      if !known { return false; }
      var found, i := FindPlacement(layout, node);
      if !found || state.placements[i].revision != expected { return false; }
      HiddenSnapshot(state, i);
      ok := Save(state.(placements := state.placements[i := Hidden(state.placements[i])]), healthy);
    }

    method SaveViewport(layout: string, expected: int, viewport: Viewport, healthy: bool) returns (ok: bool)
      requires Valid()
      modifies this
      ensures Valid()
      ensures ok == (healthy && Accepts(old(Abs()), CanvasStore.SaveViewport(layout, expected, viewport), digest))
      ensures Abs()
        == if ok then Step(old(Abs()), CanvasStore.SaveViewport(layout, expected, viewport), digest) else old(Abs())
      ensures ok <==> healthy && MayBeSeen(viewport) && SeenLayout(old(Abs()), layout, expected)
      ensures ok ==> ViewDone(old(Abs()), Abs(), layout, viewport)
    {
      ViewingIs(Abs(), layout, expected, viewport, digest);
      if !ValidViewport(viewport) { return false; }
      var found, i := FindLayout(layout);
      if !found || state.layouts[i].version != expected { return false; }
      ViewedSnapshot(state, i, viewport);
      ok := Save(state.(layouts := state.layouts[i := Viewed(state.layouts[i], viewport)]), healthy);
    }
  }
}
