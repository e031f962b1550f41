/**
  The canvas kept in two SQL tables. A batch is checked and written one patch at a time inside a
  transaction, which then commits or leaves the tables as they were.
 */
module CanvasSqlRepository {
  import opened Strings
  import opened CanvasStore
  import opened CanvasChanges
  import opened CanvasSnapshots
  import opened CanvasBatches

  /** Validating one placement with its layout, as a snapshot of the two. */
  lemma SnapshotOfTwo(l: Layout, p: Placement)
    requires ValidLayout(l) && p.layout == l.id
    ensures ValidSnapshot(Snapshot([l], [p])) <==> ValidPlacement(l, p)
  {
    var s := Snapshot([l], [p]);
    assert s.layouts[0] == l && s.placements[0] == p;
    assert CountFor([p], p.layout) == 1 by { assert CountFor([p][..0], p.layout) == 0; }
    if ValidPlacement(l, p) { assert Fits(s.layouts, p); }
  }

  /** The first `n` patches are accepted and written to the transaction's table. */
  ghost predicate Progress(s: Store, layout: string, patches: seq<Patch>, n: nat, table: map<Key, Placement>)
    requires n <= |patches| && layout in s.layouts
  {
    && Expected(s, layout, patches[..n])
    && (forall i :: 0 <= i < n ==> ValidPlacement(s.layouts[layout], Patched(s, layout, patches[i])))
    && table == Written(s, layout, patches[..n]) && |Placed(table, layout)| <= MAX_PLACEMENTS
  }

  lemma ExpectedPrefix(s: Store, layout: string, patches: seq<Patch>, n: nat)
    requires n < |patches| && Expected(s, layout, patches[..n])
    ensures Expected(s, layout, patches[..n + 1]) <==>
      && patches[n].node !in Nodes(patches[..n]) && patches[n].node != "" && Matches(s, layout, patches[n])
    ensures Expected(s, layout, patches) ==> Expected(s, layout, patches[..n + 1])
  {
    var before, after := patches[..n], patches[..n + 1];
    assert forall i :: 0 <= i < n ==> after[i] == before[i] == patches[i];
    assert after[n] == patches[n];
    DistinctOneMore(patches, n);
    if Expected(s, layout, patches) { DistinctPrefix(patches, n + 1); }
  }

  lemma ProgressRow(s: Store, layout: string, patches: seq<Patch>, n: nat, table: map<Key, Placement>)
    requires layout in s.layouts && n < |patches| && Progress(s, layout, patches, n, table)
    requires patches[n].node !in Nodes(patches[..n])
    ensures var key := (layout, patches[n].node);
      && (key in table <==> key in s.table) && (key in table ==> table[key] == s.table[key])
  {
    DistinctOneMore(patches, n);
    var prefix := patches[..n + 1];
    assert prefix[..n] == patches[..n] && prefix[n] == patches[n];
    WrittenOneMore(s, layout, prefix, n);
  }

  lemma ProgressMore(s: Store, layout: string, patches: seq<Patch>, n: nat, table: map<Key, Placement>)
    requires layout in s.layouts && n < |patches| && Progress(s, layout, patches, n, table)
    requires patches[n].node !in Nodes(patches[..n]) && patches[n].node != "" && Matches(s, layout, patches[n])
    requires ValidPlacement(s.layouts[layout], Patched(s, layout, patches[n]))
    requires |Placed(table, layout)| + (if (layout, patches[n].node) in table then 0 else 1) <= MAX_PLACEMENTS
    ensures Progress(s, layout, patches, n + 1, table[(layout, patches[n].node) := Patched(s, layout, patches[n])])
  {
    ExpectedPrefix(s, layout, patches, n);
    var prefix := patches[..n + 1];
    assert prefix[..n] == patches[..n] && prefix[n] == patches[n] && prefix[..n + 1] == prefix;
    WrittenOneMore(s, layout, prefix, n);
    PlacedOneMore(table, (layout, patches[n].node), Patched(s, layout, patches[n]));
  }

  /** Whatever the transaction refuses a patch for, the whole batch is one the store does not accept. */
  lemma PatchRefused(s: Store, layout: string, patches: seq<Patch>, n: nat, table: map<Key, Placement>)
    requires layout in s.layouts && n < |patches| <= MAX_PLACEMENT_BATCH && Progress(s, layout, patches, n, table)
    requires
      || IsBlank(patches[n].node) || patches[n].node in Nodes(patches[..n]) || !Matches(s, layout, patches[n])
      || !ValidPlacement(s.layouts[layout], Patched(s, layout, patches[n]))
      || |Placed(table, layout)| + (if (layout, patches[n].node) in table then 0 else 1) > MAX_PLACEMENTS
    ensures !AcceptsPatches(s, layout, patches)
  {
    if AcceptsPatches(s, layout, patches) {
      BatchAccepted(s, layout, patches);
      ExpectedPrefix(s, layout, patches, n);
      ProgressRow(s, layout, patches, n, table);
      AppliedCount(s, layout, patches, n);
      CountBound(s, layout, patches, n + 1);
      assert false;
    }
  }

  lemma NothingYet(s: Store, layout: string, patches: seq<Patch>)
    requires layout in s.layouts && |Placed(s.table, layout)| <= MAX_PLACEMENTS
    ensures Progress(s, layout, patches, 0, s.table) && Nodes(patches[..0]) == {}
  {
    assert Written(s, layout, patches[..0]) == s.table;
  }

  lemma ProgressDone(s: Store, layout: string, patches: seq<Patch>, table: map<Key, Placement>)
    requires layout in s.layouts && 1 <= |patches| <= MAX_PLACEMENT_BATCH
      && Progress(s, layout, patches, |patches|, table)
    ensures AcceptsPatches(s, layout, patches) && Store(s.layouts, table) == WithPatches(s, layout, patches)
  {
    assert patches[..|patches|] == patches;
    BatchAccepted(s, layout, patches);
  }

  class SqlRepository {
    var layouts: map<string, Layout>
    var placements: map<Key, Placement>
    const digest: string -> string

    ghost predicate Valid()
      reads this
    {
      ValidStore(Abs())
    }

    ghost function Abs(): Store
      reads this
    {
      Store(layouts, placements)
    }

    constructor (digest: string -> string)
      ensures Valid() && Abs() == Store(map[], map[]) && this.digest == digest
    {
      layouts, placements := map[], map[];
      this.digest := digest;
    }

    /** Tables that were there before. */
    constructor Load(store: Store, digest: string -> string)
      requires ValidStore(store)
      ensures Valid() && Abs() == store && this.digest == digest
    {
      layouts, placements := store.layouts, store.table;
      this.digest := digest;
    }

    /** One pass of the loop, reading and writing the transaction's own table. */
    method PatchOne(
      ghost s: Store, layout: Layout, patches: seq<Patch>, n: nat, table: map<Key, Placement>, seen: set<string>,
      count: nat)
      returns (ok: bool, next: map<Key, Placement>, total: nat)
      requires layout.id in s.layouts && s.layouts[layout.id] == layout && ValidLayout(layout)
      requires n < |patches| <= MAX_PLACEMENT_BATCH && Progress(s, layout.id, patches, n, table)
      requires seen == Nodes(patches[..n]) && count == |Placed(table, layout.id)|
      ensures ok ==> Progress(s, layout.id, patches, n + 1, next) && total == |Placed(next, layout.id)|
      ensures !ok ==> !AcceptsPatches(s, layout.id, patches)
    {
      var patch := patches[n];
      next, total := table, count;
      if IsBlank(patch.node) || patch.node in seen {
        PatchRefused(s, layout.id, patches, n, table);
        return false, next, total;
      }
      ProgressRow(s, layout.id, patches, n, table);
      var key := (layout.id, patch.node);
      var found := key in table;
      if (found && table[key].revision != patch.expected) || (!found && patch.expected != 0) {
        PatchRefused(s, layout.id, patches, n, table);
        return false, next, total;
      }
      var placement := Fresh(layout.id, patch);
      if found {
        placement := Moved(layout.id, patch, table[key]);
      } else {
        total := total + 1;
        if total > MAX_PLACEMENTS {
          PatchRefused(s, layout.id, patches, n, table);
          return false, next, total;
        }
      }
      SnapshotOfTwo(layout, placement);
      var valid := Validate(Snapshot([layout], [placement]));
      if !valid {
        PatchRefused(s, layout.id, patches, n, table);
        return false, next, total;
      }
      ProgressMore(s, layout.id, patches, n, table);
      PlacedOneMore(table, key, placement);
      next := table[key := placement];
      ok := true;
    }

    /** The loop of the transaction: every patch, or none. */
    method PatchTable(ghost s: Store, layout: Layout, patches: seq<Patch>, was: map<Key, Placement>)
      returns (ok: bool, table: map<Key, Placement>)
      requires ValidStore(s) && layout.id in s.layouts && s.layouts[layout.id] == layout && s.table == was
      requires 1 <= |patches| <= MAX_PLACEMENT_BATCH
      ensures ok <==> AcceptsPatches(s, layout.id, patches)
      ensures ok ==> Store(s.layouts, table) == WithPatches(s, layout.id, patches)
    {
      assert ValidEntry(s, layout.id);
      table := was;
      var seen, n, count := {}, 0, |Placed(table, layout.id)|;
      NothingYet(s, layout.id, patches);
      while n < |patches|
        invariant 0 <= n <= |patches|
        invariant seen == Nodes(patches[..n]) && count == |Placed(table, layout.id)|
        invariant Progress(s, layout.id, patches, n, table)
      {
        ok, table, count := PatchOne(s, layout, patches, n, table, seen, count);
        if !ok { return; }
        NodesOneMore(patches, n);
        seen := seen + {patches[n].node};
        n := n + 1;
      }
      ProgressDone(s, layout.id, patches, table);
      ok := true;
    }

    method PatchPlacements(layout: string, patches: seq<Patch>, healthy: bool) returns (ok: bool)
      requires Valid()
      modifies this
      ensures Valid()
      ensures ok == (healthy && Accepts(old(Abs()), PatchAll(layout, patches), digest))
      ensures Abs() == if ok then Step(old(Abs()), PatchAll(layout, patches), digest) else old(Abs())
      ensures ok ==> BatchDone(old(Abs()), Abs(), layout, patches)
    {
      if |patches| == 0 || |patches| > MAX_PLACEMENT_BATCH || layout !in layouts { return false; }
      ghost var s := Abs();
      BatchIs(s, layout, patches, digest);
      assert ValidEntry(s, layout);
      var accepted, table := PatchTable(s, layouts[layout], patches, placements);
      ok := accepted && healthy;
      if ok { placements := table; }
    }
  }
}
