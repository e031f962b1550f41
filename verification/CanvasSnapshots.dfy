/**
  The canvas file: two lists, layouts and placements, that are checked as a whole, and the store
  they stand for.

  A list stands for a map when its keys are distinct. The lemmas here carry what is known of the
  store over to the lists and back: a row appended or replaced, the rows of a layout counted, a
  checked snapshot being a valid store. The check itself is coded with maps of strings that are
  joined with NUL characters.
 */
module CanvasSnapshots {
  import opened Collections
  import opened NulKeys
  import opened CanvasStore

  datatype Snapshot = Snapshot(layouts: seq<Layout>, placements: seq<Placement>)

  // ------------------------------------------------------------------ snapshots

  function LayoutKey(l: Layout): string {
    Join(l.owner, Join(l.workspace, l.branch))
  }

  function NodeKey(p: Placement): string {
    Join(p.layout, p.node)
  }

  function CountFor(placements: seq<Placement>, layout: string): nat {
    if placements == [] then 0
    else
      var last := placements[|placements| - 1];
      CountFor(placements[..|placements| - 1], layout) + if last.layout == layout then 1 else 0
  }

  predicate LayoutsDiffer(a: Layout, b: Layout) {
    a.id != b.id && LayoutKey(a) != LayoutKey(b)
  }

  predicate Fits(layouts: seq<Layout>, p: Placement) {
    exists j :: 0 <= j < |layouts| && layouts[j].id == p.layout && ValidPlacement(layouts[j], p)
  }

  predicate ValidLayouts(layouts: seq<Layout>) {
    && (forall i :: 0 <= i < |layouts| ==> ValidLayout(layouts[i]))
    && (forall i, j :: 0 <= i < j < |layouts| ==> LayoutsDiffer(layouts[i], layouts[j]))
  }

  predicate ValidPlacements(layouts: seq<Layout>, placements: seq<Placement>) {
    && (forall i :: 0 <= i < |placements| ==> Fits(layouts, placements[i]))
    && (forall i, j :: 0 <= i < j < |placements| ==> NodeKey(placements[i]) != NodeKey(placements[j]))
    && (forall i :: 0 <= i < |placements| ==> CountFor(placements, placements[i].layout) <= MAX_PLACEMENTS)
  }

  /** `ValidateSnapshot`: its keys are strings joined with NUL characters. */
  predicate ValidSnapshot(s: Snapshot) {
    ValidLayouts(s.layouts) && ValidPlacements(s.layouts, s.placements)
  }

  predicate UniqueIds(layouts: seq<Layout>) {
    forall i, j :: 0 <= i < j < |layouts| ==> layouts[i].id != layouts[j].id
  }

  predicate UniqueKeys(placements: seq<Placement>) {
    forall i, j :: 0 <= i < j < |placements| ==> KeyOf(placements[i]) != KeyOf(placements[j])
  }

  function LayoutMap(layouts: seq<Layout>): map<string, Layout>
    requires UniqueIds(layouts)
  {
    map i | 0 <= i < |layouts| :: layouts[i].id := layouts[i]
  }

  function Table(placements: seq<Placement>): map<Key, Placement>
    requires UniqueKeys(placements)
  {
    map i | 0 <= i < |placements| :: KeyOf(placements[i]) := placements[i]
  }

  function AsStore(s: Snapshot): Store
    requires UniqueIds(s.layouts) && UniqueKeys(s.placements)
  {
    Store(LayoutMap(s.layouts), Table(s.placements))
  }

  lemma AppendedKeys(placements: seq<Placement>, p: Placement)
    requires UniqueKeys(placements) && KeyOf(p) !in Table(placements)
    ensures UniqueKeys(placements + [p])
  {
    var all := placements + [p];
    forall i, j | 0 <= i < j < |all| ensures KeyOf(all[i]) != KeyOf(all[j]) {
      RowAt(placements, i);
    }
  }

  lemma AppendRow(placements: seq<Placement>, p: Placement)
    requires UniqueKeys(placements) && KeyOf(p) !in Table(placements)
    ensures UniqueKeys(placements + [p]) && Table(placements + [p]) == Table(placements)[KeyOf(p) := p]
  {
    AppendedKeys(placements, p);
    var all, t := placements + [p], Table(placements)[KeyOf(p) := p];
    RowAt(all, |placements|);
    forall key | key in Table(placements) ensures key in Table(all) && Table(all)[key] == Table(placements)[key] {
      var i := RowIndex(placements, key);
      RowAt(all, i);
    }
    forall key | key in Table(all) ensures key in t {
      var i := RowIndex(all, key);
      if i < |placements| { RowAt(placements, i); }
    }
  }

  lemma ReplacedKeys(placements: seq<Placement>, i: nat, p: Placement)
    requires UniqueKeys(placements) && i < |placements| && KeyOf(placements[i]) == KeyOf(p)
    ensures UniqueKeys(placements[i := p])
  {
    var all := placements[i := p];
    forall a, b | 0 <= a < b < |all| ensures KeyOf(all[a]) != KeyOf(all[b]) {
      assert KeyOf(placements[a]) != KeyOf(placements[b]);
    }
  }

  lemma ReplacedRow(placements: seq<Placement>, i: nat, p: Placement, key: Key)
    requires UniqueKeys(placements) && i < |placements| && KeyOf(placements[i]) == KeyOf(p)
      && UniqueKeys(placements[i := p])
    ensures key in Table(placements[i := p]) <==> key in Table(placements)
    ensures key in Table(placements) ==>
      Table(placements[i := p])[key] == if key == KeyOf(p) then p else Table(placements)[key]
  {
    var all := placements[i := p];
    if key in Table(placements) {
      var k := RowIndex(placements, key);
      RowAt(all, k);
      if key == KeyOf(p) { RowAt(all, i); }
    }
    if key in Table(all) {
      var k := RowIndex(all, key);
      RowAt(placements, k);
    }
  }

  lemma ReplaceRow(placements: seq<Placement>, i: nat, p: Placement)
    requires UniqueKeys(placements) && i < |placements| && KeyOf(placements[i]) == KeyOf(p)
    ensures UniqueKeys(placements[i := p]) && Table(placements[i := p]) == Table(placements)[KeyOf(p) := p]
  {
    ReplacedKeys(placements, i, p);
    RowAt(placements, i);
    var all, t := Table(placements[i := p]), Table(placements)[KeyOf(p) := p];
    forall key ensures (key in all <==> key in t) && (key in t ==> all[key] == t[key]) {
      ReplacedRow(placements, i, p, key);
    }
  }

  lemma PlacedInLonger(table: map<Key, Placement>, p: Placement, layout: string)
    requires KeyOf(p) !in table
    ensures |Placed(table[KeyOf(p) := p], layout)| == |Placed(table, layout)| + if p.layout == layout then 1 else 0
  {
    var longer := table[KeyOf(p) := p];
    if p.layout == layout {
      assert Placed(longer, layout) == Placed(table, layout) + {KeyOf(p)};
    } else {
      assert Placed(longer, layout) == Placed(table, layout);
    }
  }

  lemma {:induction false} CountIsPlaced(placements: seq<Placement>, layout: string)
    requires UniqueKeys(placements)
    ensures CountFor(placements, layout) == |Placed(Table(placements), layout)|
  {
    if placements == [] {
      assert Placed(Table(placements), layout) == {};
    } else {
      var n := |placements| - 1;
      var rest, p := placements[..n], placements[n];
      CountIsPlaced(rest, layout);
      LastIsNew(placements);
      AppendRow(rest, p);
      assert rest + [p] == placements;
      PlacedInLonger(Table(rest), p, layout);
    }
  }

  lemma LastIsNew(placements: seq<Placement>)
    requires placements != [] && UniqueKeys(placements)
    ensures UniqueKeys(placements[..|placements| - 1])
    ensures KeyOf(placements[|placements| - 1]) !in Table(placements[..|placements| - 1])
  {
  }

  lemma LayoutIndex(layouts: seq<Layout>, id: string) returns (i: nat)
    requires UniqueIds(layouts) && id in LayoutMap(layouts)
    ensures i < |layouts| && layouts[i].id == id && LayoutMap(layouts)[id] == layouts[i]
  {
    i :| 0 <= i < |layouts| && layouts[i].id == id;
  }

  lemma RowIndex(placements: seq<Placement>, key: Key) returns (i: nat)
    requires UniqueKeys(placements) && key in Table(placements)
    ensures i < |placements| && KeyOf(placements[i]) == key && Table(placements)[key] == placements[i]
  {
    i :| 0 <= i < |placements| && KeyOf(placements[i]) == key;
  }

  lemma LayoutAt(layouts: seq<Layout>, i: nat)
    requires UniqueIds(layouts) && i < |layouts|
    ensures layouts[i].id in LayoutMap(layouts) && LayoutMap(layouts)[layouts[i].id] == layouts[i]
  {
  }

  lemma RowAt(placements: seq<Placement>, i: nat)
    requires UniqueKeys(placements) && i < |placements|
    ensures KeyOf(placements[i]) in Table(placements) && Table(placements)[KeyOf(placements[i])] == placements[i]
  {
  }

  lemma FitsById(layouts: seq<Layout>, p: Placement)
    requires UniqueIds(layouts)
    ensures Fits(layouts, p) <==> (p.layout in LayoutMap(layouts) && ValidPlacement(LayoutMap(layouts)[p.layout], p))
  {
    if p.layout in LayoutMap(layouts) {
      var i :| 0 <= i < |layouts| && layouts[i].id == p.layout;
      assert LayoutMap(layouts)[p.layout] == layouts[i];
    }
  }

  // ------------------------------------------------------------------ joined keys

  predicate Apart(a: Key, b: Key) {
    Join(a.0, a.1) == Join(b.0, b.1) ==> a == b
  }

  /** The joined keys of these placements are as different as the placements. */
  predicate KeysApart(keys: set<Key>) {
    forall a, b {:trigger Apart(a, b)} :: a in keys && b in keys ==> Apart(a, b)
  }

  predicate LayoutsApart(layouts: map<string, Layout>) {
    forall a, b {:trigger layouts[a], layouts[b]} :: a in layouts && b in layouts && a != b ==>
      LayoutKey(layouts[a]) != LayoutKey(layouts[b])
  }

  /** Without NULs in owners and workspace IDs, two layouts share a joined key only if they are for the
      same branch of the same workspace and the same owner. */
  lemma LayoutKeysTellApart(a: Layout, b: Layout)
    requires NulFree(a.owner) && NulFree(b.owner) && NulFree(a.workspace) && NulFree(b.workspace)
    ensures LayoutKey(a) == LayoutKey(b)
      <==> a.owner == b.owner && a.workspace == b.workspace && a.branch == b.branch
  {
    if LayoutKey(a) == LayoutKey(b) {
      JoinIsInjective(a.owner, Join(a.workspace, a.branch), b.owner, Join(b.workspace, b.branch));
      JoinIsInjective(a.workspace, a.branch, b.workspace, b.branch);
    }
  }

  predicate JoinsApart(s: Store) {
    KeysApart(s.table.Keys) && LayoutsApart(s.layouts)
  }

  /** Layout IDs without NUL characters are enough for placements. */
  lemma NulFreeKeysApart(keys: set<Key>)
    requires forall key :: key in keys ==> NulFree(key.0)
    ensures KeysApart(keys)
  {
    forall a, b | a in keys && b in keys ensures Apart(a, b) {
      if Join(a.0, a.1) == Join(b.0, b.1) { JoinIsInjective(a.0, a.1, b.0, b.1); }
    }
  }

  lemma ValidKeysAreUnique(s: Snapshot)
    requires ValidSnapshot(s)
    ensures UniqueIds(s.layouts) && UniqueKeys(s.placements)
  {
    LayoutsAreUnique(s.layouts);
    PlacementsAreUnique(s.layouts, s.placements);
  }

  lemma LayoutsAreUnique(layouts: seq<Layout>)
    requires ValidLayouts(layouts)
    ensures UniqueIds(layouts)
  {
    forall i, j | 0 <= i < j < |layouts| ensures layouts[i].id != layouts[j].id {
      assert LayoutsDiffer(layouts[i], layouts[j]);
    }
  }

  lemma PlacementsAreUnique(layouts: seq<Layout>, placements: seq<Placement>)
    requires ValidPlacements(layouts, placements)
    ensures UniqueKeys(placements)
  {
    forall i, j | 0 <= i < j < |placements| ensures KeyOf(placements[i]) != KeyOf(placements[j]) {
      assert NodeKey(placements[i]) != NodeKey(placements[j]);
    }
  }

  // A checked snapshot is a valid store with its joined keys apart.

  lemma SnapshotEntry(layouts: seq<Layout>, placements: seq<Placement>, id: string)
    requires ValidLayouts(layouts) && ValidPlacements(layouts, placements) && UniqueIds(layouts)
      && UniqueKeys(placements)
    requires id in LayoutMap(layouts)
    ensures ValidEntry(Store(LayoutMap(layouts), Table(placements)), id)
  {
    var i := LayoutIndex(layouts, id);
    assert ValidLayout(layouts[i]);
    CountIsPlaced(placements, id);
    if Placed(Table(placements), id) != {} {
      var key :| key in Placed(Table(placements), id);
      var k := RowIndex(placements, key);
      assert CountFor(placements, placements[k].layout) <= MAX_PLACEMENTS;
    }
  }

  lemma SnapshotRow(layouts: seq<Layout>, placements: seq<Placement>, key: Key)
    requires ValidPlacements(layouts, placements) && UniqueIds(layouts) && UniqueKeys(placements)
    requires key in Table(placements)
    ensures ValidRow(Store(LayoutMap(layouts), Table(placements)), key)
  {
    var i := RowIndex(placements, key);
    assert Fits(layouts, placements[i]);
    FitsById(layouts, placements[i]);
  }

  lemma KeysDiffer(layouts: seq<Layout>, i: nat, j: nat)
    requires ValidLayouts(layouts) && i < |layouts| && j < |layouts| && i != j
    ensures LayoutKey(layouts[i]) != LayoutKey(layouts[j])
  {
    if i < j {
      assert LayoutsDiffer(layouts[i], layouts[j]);
    } else {
      assert LayoutsDiffer(layouts[j], layouts[i]);
    }
  }

  lemma SnapshotLayoutsApart(layouts: seq<Layout>)
    requires ValidLayouts(layouts) && UniqueIds(layouts)
    ensures LayoutsApart(LayoutMap(layouts))
  {
    forall a, b | a in LayoutMap(layouts) && b in LayoutMap(layouts) && a != b
      ensures LayoutKey(LayoutMap(layouts)[a]) != LayoutKey(LayoutMap(layouts)[b])
    {
      var i := LayoutIndex(layouts, a);
      var j := LayoutIndex(layouts, b);
      KeysDiffer(layouts, i, j);
    }
  }

  lemma SnapshotKeysApart(layouts: seq<Layout>, placements: seq<Placement>)
    requires ValidPlacements(layouts, placements) && UniqueKeys(placements)
    ensures KeysApart(Table(placements).Keys)
  {
    forall a, b | a in Table(placements) && b in Table(placements) ensures Apart(a, b) {
      var i := RowIndex(placements, a);
      var j := RowIndex(placements, b);
      assert NodeKey(placements[i]) == Join(a.0, a.1) && NodeKey(placements[j]) == Join(b.0, b.1);
    }
  }

  lemma ValidSnapshotIsValidStore(s: Snapshot)
    requires ValidSnapshot(s) && UniqueIds(s.layouts) && UniqueKeys(s.placements)
    ensures ValidStore(AsStore(s)) && JoinsApart(AsStore(s))
  {
    var t := AsStore(s);
    forall id | id in t.layouts ensures ValidEntry(t, id) { SnapshotEntry(s.layouts, s.placements, id); }
    forall key | key in t.table ensures ValidRow(t, key) { SnapshotRow(s.layouts, s.placements, key); }
    SnapshotLayoutsApart(s.layouts);
    SnapshotKeysApart(s.layouts, s.placements);
    forall a, b | a in t.layouts && b in t.layouts && a != b
      ensures DefaultKey(t.layouts[a]) != DefaultKey(t.layouts[b])
    {
      assert LayoutKey(t.layouts[a]) != LayoutKey(t.layouts[b]);
    }
  }

  lemma StoredLayouts(s: Snapshot)
    requires UniqueIds(s.layouts) && UniqueKeys(s.placements) && ValidStore(AsStore(s))
      && LayoutsApart(LayoutMap(s.layouts))
    ensures ValidLayouts(s.layouts)
  {
    forall i | 0 <= i < |s.layouts| ensures ValidLayout(s.layouts[i]) {
      LayoutAt(s.layouts, i);
      assert ValidEntry(AsStore(s), s.layouts[i].id);
    }
    forall i, j | 0 <= i < j < |s.layouts| ensures LayoutsDiffer(s.layouts[i], s.layouts[j]) {
      LayoutAt(s.layouts, i);
      LayoutAt(s.layouts, j);
    }
  }

  lemma StoredRow(s: Snapshot, i: nat)
    requires UniqueIds(s.layouts) && UniqueKeys(s.placements) && ValidStore(AsStore(s)) && i < |s.placements|
    ensures Fits(s.layouts, s.placements[i])
    ensures CountFor(s.placements, s.placements[i].layout) <= MAX_PLACEMENTS
  {
    var t, p := AsStore(s), s.placements[i];
    RowAt(s.placements, i);
    assert ValidRow(t, KeyOf(p)) && ValidEntry(t, p.layout);
    FitsById(s.layouts, p);
    CountIsPlaced(s.placements, p.layout);
  }

  lemma StoredKeysDiffer(placements: seq<Placement>, i: nat, j: nat)
    requires UniqueKeys(placements) && KeysApart(Table(placements).Keys) && i < j < |placements|
    ensures NodeKey(placements[i]) != NodeKey(placements[j])
  {
    RowAt(placements, i);
    RowAt(placements, j);
    assert Apart(KeyOf(placements[i]), KeyOf(placements[j]));
  }

  lemma ValidStoreIsValidSnapshot(s: Snapshot)
    requires UniqueIds(s.layouts) && UniqueKeys(s.placements) && ValidStore(AsStore(s)) && JoinsApart(AsStore(s))
    ensures ValidSnapshot(s)
  {
    StoredLayouts(s);
    forall i | 0 <= i < |s.placements|
      ensures Fits(s.layouts, s.placements[i]) && CountFor(s.placements, s.placements[i].layout) <= MAX_PLACEMENTS
    {
      StoredRow(s, i);
    }
    forall i, j | 0 <= i < j < |s.placements| ensures NodeKey(s.placements[i]) != NodeKey(s.placements[j]) {
      StoredKeysDiffer(s.placements, i, j);
    }
  }

  /** Lists pass the check if and only if they stand for a valid store whose joined keys are apart. */
  lemma SnapshotIsStore(s: Snapshot)
    requires UniqueIds(s.layouts) && UniqueKeys(s.placements)
    ensures ValidSnapshot(s) <==> ValidStore(AsStore(s)) && JoinsApart(AsStore(s))
  {
    if ValidSnapshot(s) { ValidSnapshotIsValidStore(s); }
    if ValidStore(AsStore(s)) && JoinsApart(AsStore(s)) { ValidStoreIsValidSnapshot(s); }
  }

  // ------------------------------------------------------------------ the check, as it is coded

  lemma CountPrefix(placements: seq<Placement>, n: nat, layout: string)
    requires n < |placements|
    ensures CountFor(placements[..n + 1], layout)
      == CountFor(placements[..n], layout) + if placements[n].layout == layout then 1 else 0
  {
    assert placements[..n + 1][..n] == placements[..n];
  }

  lemma {:induction false} CountGrows(placements: seq<Placement>, n: nat, layout: string)
    requires n <= |placements|
    ensures CountFor(placements[..n], layout) <= CountFor(placements, layout)
    decreases |placements| - n
  {
    if n < |placements| {
      CountPrefix(placements, n, layout);
      CountGrows(placements, n + 1, layout);
    } else {
      assert placements[..n] == placements;
    }
  }

  function LayoutKeys(layouts: seq<Layout>): set<string> {
    set i | 0 <= i < |layouts| :: LayoutKey(layouts[i])
  }

  lemma LayoutKeysStep(layouts: seq<Layout>, n: nat)
    requires n < |layouts|
    ensures LayoutKeys(layouts[..n + 1]) == LayoutKeys(layouts[..n]) + {LayoutKey(layouts[n])}
  {
    var before, after := layouts[..n], layouts[..n + 1];
    assert forall i :: 0 <= i < n ==> after[i] == before[i];
    forall i | 0 <= i < n
      ensures LayoutKey(before[i]) in LayoutKeys(after)
    {
      assert LayoutKey(after[i]) in LayoutKeys(after);
    }
    assert LayoutKey(after[n]) in LayoutKeys(after);
  }

  lemma SameIdRefuses(layouts: seq<Layout>, n: nat)
    requires n < |layouts| && UniqueIds(layouts[..n]) && layouts[n].id in LayoutMap(layouts[..n])
    ensures !ValidLayouts(layouts)
  {
    var i :| 0 <= i < n && layouts[..n][i].id == layouts[n].id;
    assert !LayoutsDiffer(layouts[i], layouts[n]);
  }

  lemma SameKeyRefuses(layouts: seq<Layout>, n: nat)
    requires n < |layouts| && LayoutKey(layouts[n]) in LayoutKeys(layouts[..n])
    ensures !ValidLayouts(layouts)
  {
    var i :| 0 <= i < n && LayoutKey(layouts[..n][i]) == LayoutKey(layouts[n]);
    assert !LayoutsDiffer(layouts[i], layouts[n]);
  }

  lemma NewKey(layouts: seq<Layout>, l: Layout)
    requires LayoutKey(l) !in LayoutKeys(layouts)
    ensures forall i :: 0 <= i < |layouts| ==> LayoutKey(layouts[i]) != LayoutKey(l)
  {
    forall i | 0 <= i < |layouts| ensures LayoutKey(layouts[i]) != LayoutKey(l) {
      assert LayoutKey(layouts[i]) in LayoutKeys(layouts);
    }
  }

  /** The layout after a valid prefix is valid and unlike those before it, or the whole list is not. */
  lemma LayoutStep(layouts: seq<Layout>, n: nat)
    requires n < |layouts| && ValidLayouts(layouts[..n]) && UniqueIds(layouts[..n])
    ensures var l, before := layouts[n], layouts[..n];
      if ValidLayout(l) && l.id !in LayoutMap(before) && LayoutKey(l) !in LayoutKeys(before) then
        && ValidLayouts(layouts[..n + 1]) && UniqueIds(layouts[..n + 1])
        && LayoutMap(layouts[..n + 1]) == LayoutMap(before)[l.id := l]
      else !ValidLayouts(layouts)
  {
    var l, before := layouts[n], layouts[..n];
    if !ValidLayout(l) {
    } else if l.id in LayoutMap(before) {
      SameIdRefuses(layouts, n);
    } else if LayoutKey(l) in LayoutKeys(before) {
      SameKeyRefuses(layouts, n);
    } else {
      NewKey(before, l);
      AppendLayout(before, l);
      assert layouts[..n + 1] == before + [l];
    }
  }

  method ValidateLayouts(layouts: seq<Layout>) returns (ok: bool, byId: map<string, Layout>)
    ensures ok == ValidLayouts(layouts)
    ensures ok ==> UniqueIds(layouts) && byId == LayoutMap(layouts)
  {
    byId := map[];
    var unique: set<string> := {};
    var n := 0;
    while n < |layouts|
      invariant 0 <= n <= |layouts|
      invariant ValidLayouts(layouts[..n]) && UniqueIds(layouts[..n]) && byId == LayoutMap(layouts[..n])
      invariant unique == LayoutKeys(layouts[..n])
    {
      var l := layouts[n];
      LayoutStep(layouts, n);
      LayoutKeysStep(layouts, n);
      if !ValidLayout(l) || l.id in byId || LayoutKey(l) in unique { return false, byId; }
      byId := byId[l.id := l];
      unique := unique + {LayoutKey(l)};
      n := n + 1;
    }
    assert layouts[..n] == layouts;
    ok := true;
  }

  lemma AppendLayout(layouts: seq<Layout>, l: Layout)
    requires ValidLayouts(layouts) && UniqueIds(layouts) && ValidLayout(l) && l.id !in LayoutMap(layouts)
    requires forall i :: 0 <= i < |layouts| ==> LayoutKey(layouts[i]) != LayoutKey(l)
    ensures ValidLayouts(layouts + [l]) && UniqueIds(layouts + [l])
    ensures LayoutMap(layouts + [l]) == LayoutMap(layouts)[l.id := l]
  {
    var all := layouts + [l];
    forall i, j | 0 <= i < j < |all| ensures LayoutsDiffer(all[i], all[j]) {
      assert layouts[i].id in LayoutMap(layouts);
      if j < |layouts| { assert LayoutsDiffer(layouts[i], layouts[j]); }
    }
    assert UniqueIds(all) by {
      forall i, j | 0 <= i < j < |all| ensures all[i].id != all[j].id { assert LayoutsDiffer(all[i], all[j]); }
    }
    AppendToMap(layouts, l);
  }

  lemma AppendToMap(layouts: seq<Layout>, l: Layout)
    requires UniqueIds(layouts) && UniqueIds(layouts + [l]) && l.id !in LayoutMap(layouts)
    ensures LayoutMap(layouts + [l]) == LayoutMap(layouts)[l.id := l]
  {
    var all := layouts + [l];
    forall id ensures id in LayoutMap(all) <==> id in LayoutMap(layouts)[l.id := l] {
      if id in LayoutMap(layouts) {
        var i :| 0 <= i < |layouts| && layouts[i].id == id;
        assert all[i].id == id;
      }
      assert all[|layouts|] == l;
    }
  }

  /** What the placement after a prefix must be for the longer prefix to pass. */
  predicate FitsAfter(layouts: seq<Layout>, placements: seq<Placement>, n: nat)
    requires n < |placements|
  {
    && Fits(layouts, placements[n])
    && (forall i :: 0 <= i < n ==> NodeKey(placements[i]) != NodeKey(placements[n]))
    && CountFor(placements[..n + 1], placements[n].layout) <= MAX_PLACEMENTS
  }

  /** Counting as it goes finds an overfull layout no later than counting at the end. */
  lemma PrefixGrows(layouts: seq<Layout>, placements: seq<Placement>, n: nat)
    requires n < |placements| && ValidPlacements(layouts, placements[..n]) && FitsAfter(layouts, placements, n)
    ensures ValidPlacements(layouts, placements[..n + 1])
  {
    var before, after := placements[..n], placements[..n + 1];
    assert after == before + [placements[n]];
    forall i | 0 <= i <= n ensures CountFor(after, after[i].layout) <= MAX_PLACEMENTS {
      if after[i].layout != placements[n].layout {
        assert CountFor(before, before[i].layout) <= MAX_PLACEMENTS;
        CountPrefix(placements, n, placements[i].layout);
      }
    }
    forall i, j | 0 <= i < j < |after| ensures NodeKey(after[i]) != NodeKey(after[j]) {
      if j < n { assert NodeKey(before[i]) != NodeKey(before[j]); }
    }
    forall i | 0 <= i < |after| ensures Fits(layouts, after[i]) {
      if i < n { assert Fits(layouts, before[i]); }
    }
  }

  lemma PrefixNeeds(layouts: seq<Layout>, placements: seq<Placement>, n: nat)
    requires n < |placements| && ValidPlacements(layouts, placements[..n + 1])
    ensures FitsAfter(layouts, placements, n)
  {
    var after := placements[..n + 1];
    assert after[n] == placements[n] && Fits(layouts, after[n]);
    assert CountFor(after, after[n].layout) <= MAX_PLACEMENTS;
    forall i | 0 <= i < n ensures NodeKey(placements[i]) != NodeKey(placements[n]) {
      assert NodeKey(after[i]) != NodeKey(after[n]);
    }
  }

  lemma {:induction false} BadPrefix(layouts: seq<Layout>, placements: seq<Placement>, n: nat)
    requires n <= |placements| && ValidPlacements(layouts, placements)
    ensures ValidPlacements(layouts, placements[..n])
  {
    forall i | 0 <= i < n ensures CountFor(placements[..n], placements[i].layout) <= MAX_PLACEMENTS {
      CountGrows(placements, n, placements[i].layout);
      assert CountFor(placements, placements[i].layout) <= MAX_PLACEMENTS;
    }
  }

  ghost predicate Tallies(counts: map<string, nat>, placements: seq<Placement>) {
    forall id :: Tally(counts, id) == CountFor(placements, id)
  }

  function NodeKeys(placements: seq<Placement>): set<string> {
    set i | 0 <= i < |placements| :: NodeKey(placements[i])
  }

  lemma TalliesStep(placements: seq<Placement>, n: nat, counts: map<string, nat>)
    requires n < |placements| && Tallies(counts, placements[..n])
    ensures Tallies(counts[placements[n].layout := Tally(counts, placements[n].layout) + 1], placements[..n + 1])
  {
    var next := counts[placements[n].layout := Tally(counts, placements[n].layout) + 1];
    forall id ensures Tally(next, id) == CountFor(placements[..n + 1], id) { CountPrefix(placements, n, id); }
  }

  lemma NodeKeysStep(placements: seq<Placement>, n: nat)
    requires n < |placements|
    ensures NodeKeys(placements[..n + 1]) == NodeKeys(placements[..n]) + {NodeKey(placements[n])}
    ensures NodeKey(placements[n]) in NodeKeys(placements[..n]) <==>
      exists i :: 0 <= i < n && NodeKey(placements[i]) == NodeKey(placements[n])
  {
    var before, after := placements[..n], placements[..n + 1];
    assert forall i :: 0 <= i < n ==> after[i] == before[i] == placements[i];
    assert after[n] == placements[n];
    forall i | 0 <= i < n ensures NodeKey(placements[i]) in NodeKeys(before) {
      assert NodeKey(before[i]) in NodeKeys(before);
    }
    forall i | 0 <= i < n ensures NodeKey(after[i]) in NodeKeys(after) {}
    assert NodeKey(after[n]) in NodeKeys(after);
  }

  /** The loop has checked the first `n` placements, and its maps say what it has seen. */
  ghost predicate Checked(
    layouts: seq<Layout>, placements: seq<Placement>, n: nat, counts: map<string, nat>, nodes: set<string>)
    requires n <= |placements|
  {
    && ValidPlacements(layouts, placements[..n])
    && nodes == NodeKeys(placements[..n]) && Tallies(counts, placements[..n])
  }

  /** The tests of one pass. */
  predicate Passes(byId: map<string, Layout>, p: Placement, counts: map<string, nat>, nodes: set<string>) {
    && p.layout in byId && ValidPlacement(byId[p.layout], p) && NodeKey(p) !in nodes
    && Tally(counts, p.layout) + 1 <= MAX_PLACEMENTS
  }

  lemma PassesIsFits(
    layouts: seq<Layout>, placements: seq<Placement>, n: nat, counts: map<string, nat>, nodes: set<string>)
    requires UniqueIds(layouts) && n < |placements| && Checked(layouts, placements, n, counts, nodes)
    ensures Passes(LayoutMap(layouts), placements[n], counts, nodes) <==> FitsAfter(layouts, placements, n)
  {
    FitsById(layouts, placements[n]);
    NodeKeysStep(placements, n);
    CountPrefix(placements, n, placements[n].layout);
  }

  lemma CheckStep(
    layouts: seq<Layout>, placements: seq<Placement>, n: nat, counts: map<string, nat>, nodes: set<string>)
    requires UniqueIds(layouts) && n < |placements| && Checked(layouts, placements, n, counts, nodes)
    ensures var p := placements[n];
      if Passes(LayoutMap(layouts), p, counts, nodes) then
        Checked(layouts, placements, n + 1, counts[p.layout := Tally(counts, p.layout) + 1], nodes + {NodeKey(p)})
      else !ValidPlacements(layouts, placements)
  {
    PassesIsFits(layouts, placements, n, counts, nodes);
    if FitsAfter(layouts, placements, n) {
      PrefixGrows(layouts, placements, n);
      NodeKeysStep(placements, n);
      TalliesStep(placements, n, counts);
    } else if ValidPlacements(layouts, placements) {
      BadPrefix(layouts, placements, n + 1);
      PrefixNeeds(layouts, placements, n);
    }
  }

  lemma AllChecked(layouts: seq<Layout>, placements: seq<Placement>, counts: map<string, nat>, nodes: set<string>)
    requires Checked(layouts, placements, |placements|, counts, nodes)
    ensures ValidPlacements(layouts, placements)
  {
    assert placements[..|placements|] == placements;
  }

  method ValidatePlacements(layouts: seq<Layout>, byId: map<string, Layout>, placements: seq<Placement>)
    returns (ok: bool)
    requires UniqueIds(layouts) && byId == LayoutMap(layouts)
    ensures ok == ValidPlacements(layouts, placements)
  {
    var counts: map<string, nat> := map[];
    var nodes: set<string> := {};
    var n := 0;
    while n < |placements|
      invariant 0 <= n <= |placements| && Checked(layouts, placements, n, counts, nodes)
    {
      var p := placements[n];
      CheckStep(layouts, placements, n, counts, nodes);
      if p.layout !in byId || !ValidPlacement(byId[p.layout], p) { return false; }
      if NodeKey(p) in nodes { return false; }
      nodes := nodes + {NodeKey(p)};
      counts := counts[p.layout := Tally(counts, p.layout) + 1];
      if counts[p.layout] > MAX_PLACEMENTS { return false; }
      n := n + 1;
    }
    AllChecked(layouts, placements, counts, nodes);
    ok := true;
  }

  method Validate(s: Snapshot) returns (ok: bool)
    ensures ok == ValidSnapshot(s)
  {
    var byId;
    ok, byId := ValidateLayouts(s.layouts);
    if ok { ok := ValidatePlacements(s.layouts, byId, s.placements); }
  }
}
