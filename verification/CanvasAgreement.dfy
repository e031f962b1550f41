/** When the two canvas repositories agree on a batch, and a batch on which they do not. */
module CanvasAgreement {
  import opened NulKeys
  import opened Strings
  import opened CanvasStore
  import opened CanvasChanges
  import opened CanvasSnapshots
  import opened CanvasFileRepository
  import opened CanvasSqlRepository

  /** The joined keys of the placements there are and of those the batch names are as different as
      the placements. */
  predicate BatchApart(s: Store, layout: string, patches: seq<Patch>) {
    KeysApart(s.table.Keys + PatchedKeys(layout, patches))
  }

  /** Both repositories, holding the same canvas: the tables take what the store accepts, the file takes
      that if the joined keys are apart, and unless a batch falls between the two they go on agreeing. */
  method PatchBoth(file: FileRepository, sql: SqlRepository, layout: string, patches: seq<Patch>, healthy: bool)
    returns (fileOk: bool, sqlOk: bool)
    requires file.Valid() && sql.Valid() && file.Abs() == sql.Abs() && file.digest == sql.digest
    modifies file, sql
    ensures file.Valid() && sql.Valid()
    ensures sqlOk <==> healthy && AcceptsPatches(old(sql.Abs()), layout, patches)
    ensures sqlOk ==> BatchDone(old(sql.Abs()), sql.Abs(), layout, patches)
    ensures fileOk <==> sqlOk && BatchApart(old(sql.Abs()), layout, patches)
    ensures fileOk == sqlOk ==> file.Abs() == sql.Abs()
    ensures !fileOk ==> file.state == old(file.state)
    ensures !sqlOk ==> sql.Abs() == old(sql.Abs())
  {
    BatchJoins(file.Abs(), layout, patches, file.digest);
    fileOk := file.PatchPlacements(layout, patches, healthy);
    sqlOk := sql.PatchPlacements(layout, patches, healthy);
  }

  // ------------------------------------------------------------------ where they agree

  ghost predicate NulFreeIds(s: Store) {
    forall id :: id in s.layouts ==> NulFree(id)
  }

  /** With NUL-free layout IDs no batch falls between the two. */
  lemma NulFreeIdsAgree(s: Store, layout: string, patches: seq<Patch>)
    requires ValidStore(s) && NulFreeIds(s) && layout in s.layouts
    ensures BatchApart(s, layout, patches)
  {
    var keys := s.table.Keys + PatchedKeys(layout, patches);
    forall key | key in keys ensures NulFree(key.0) {
      if key in s.table { assert ValidRow(s, key); }
    }
    NulFreeKeysApart(keys);
  }

  /** Layout IDs are made of a hexadecimal digest. */
  ghost predicate HexDigest(digest: string -> string) {
    forall key :: NulFree(digest(key))
  }

  lemma StepKeepsNulFree(s: Store, op: Op, digest: string -> string)
    requires NulFreeIds(s) && HexDigest(digest)
    ensures NulFreeIds(Step(s, op, digest))
  {
  }

  lemma {:induction false} RunKeepsNulFree(s: Store, ops: seq<Op>, digest: string -> string)
    requires NulFreeIds(s) && HexDigest(digest)
    ensures NulFreeIds(Run(s, ops, digest))
    decreases |ops|
  {
    if ops != [] {
      StepKeepsNulFree(s, ops[0], digest);
      RunKeepsNulFree(Step(s, ops[0], digest), ops[1..], digest);
    }
  }

  /** On everything the service makes itself the repositories agree about every batch. */
  lemma RepositoriesAgree(ops: seq<Op>, digest: string -> string, layout: string, patches: seq<Patch>)
    requires HexDigest(digest)
    ensures var s := Run(Store(map[], map[]), ops, digest);
      AcceptsPatches(s, layout, patches) ==> BatchApart(s, layout, patches)
  {
    var s := Run(Store(map[], map[]), ops, digest);
    RunKeepsNulFree(Store(map[], map[]), ops, digest);
    RunEvolves(Store(map[], map[]), ops, digest);
    if layout in s.layouts { NulFreeIdsAgree(s, layout, patches); }
  }

  // ------------------------------------------------------------------ where they do not

  const HOME := Viewport(Finite(0.0), Finite(0.0), Finite(1.0))

  const REF := EntityRef(Workspace, "w", "", "", "", "")

  function TwoLayouts(): Snapshot {
    Snapshot([Layout("a", "", "w", "x", HOME, 1), Layout("a\0b", "", "w", "y", HOME, 1)],
             [Placement("a", "b\0c", REF, Finite(0.0), Finite(0.0), false, false, 1)])
  }

  function PatchC(): seq<Patch> {
    [Patch("c", REF, Finite(0.0), Finite(0.0), false, 0)]
  }

  lemma NotBlank(s: string)
    requires s != "" && !IsSpace(s[0])
    ensures !IsBlank(s)
  {
  }

  lemma NamesAreThere()
    ensures !IsBlank("a") && !IsBlank("a\0b") && !IsBlank("b\0c") && !IsBlank("c")
    ensures !IsBlank("w") && !IsBlank("x") && !IsBlank("y")
  {
    NotBlank("a");
    NotBlank("a\0b");
    NotBlank("b\0c");
    NotBlank("c");
    NotBlank("w");
    NotBlank("x");
    NotBlank("y");
  }

  lemma NamesDiffer()
    ensures "a" != "a\0b" && "c" != "b\0c" && Join("a", "b\0c") == Join("a\0b", "c")
    ensures Join("", Join("w", "x")) != Join("", Join("w", "y"))
  {
    assert |"a"| != |"a\0b"| && |"c"| != |"b\0c"|;
    JoinConfusesNul();
    assert Join("", Join("w", "x"))[3] == 'x' && Join("", Join("w", "y"))[3] == 'y';
  }

  /** The file passes its check with a NUL in a layout ID. */
  lemma TwoLayoutsAreValid()
    ensures ValidSnapshot(TwoLayouts())
  {
    var s := TwoLayouts();
    NamesAreThere();
    NamesDiffer();
    assert ValidLayout(s.layouts[0]) && ValidLayout(s.layouts[1]) && LayoutsDiffer(s.layouts[0], s.layouts[1]);
    assert ValidPlacement(s.layouts[0], s.placements[0]) && Fits(s.layouts, s.placements[0]);
    assert s.placements[..0] == [] && CountFor(s.placements, "a") == 1;
  }

  lemma OneRow(p: Placement)
    ensures UniqueKeys([p]) && Table([p]).Keys == {KeyOf(p)}
  {
    RowAt([p], 0);
    forall key | key in Table([p]) ensures key == KeyOf(p) { var i := RowIndex([p], key); }
  }

  lemma StoreOfTwo()
    ensures ValidSnapshot(TwoLayouts()) && UniqueIds(TwoLayouts().layouts) && UniqueKeys(TwoLayouts().placements)
    ensures var t := AsStore(TwoLayouts());
      "a\0b" in t.layouts && t.layouts["a\0b"] == TwoLayouts().layouts[1] && t.table.Keys == {("a", "b\0c")}
  {
    TwoLayoutsAreValid();
    ValidKeysAreUnique(TwoLayouts());
    LayoutAt(TwoLayouts().layouts, 1);
    OneRow(TwoLayouts().placements[0]);
  }

  /** A single patch for a layout that has nothing placed. */
  lemma OnePatchAccepted(s: Store, layout: string, p: Patch)
    requires layout in s.layouts && Placed(s.table, layout) == {} && p.expected == 0
    requires ValidPlacement(s.layouts[layout], Fresh(layout, p))
    ensures AcceptsPatches(s, layout, [p])
  {
    assert (layout, p.node) !in s.table by { assert (layout, p.node) !in Placed(s.table, layout); }
    assert PatchedKeys(layout, [p]) == {(layout, p.node)} by { assert [p][0] == p; }
    assert Placed(s.table, layout) + PatchedKeys(layout, [p]) == {(layout, p.node)};
  }

  lemma BatchIsAccepted()
    ensures ValidSnapshot(TwoLayouts()) && UniqueIds(TwoLayouts().layouts) && UniqueKeys(TwoLayouts().placements)
    ensures AcceptsPatches(AsStore(TwoLayouts()), "a\0b", PatchC())
  {
    StoreOfTwo();
    NamesAreThere();
    NamesDiffer();
    assert Placed(AsStore(TwoLayouts()).table, "a\0b") == {};
    OnePatchAccepted(AsStore(TwoLayouts()), "a\0b", PatchC()[0]);
  }

  lemma BatchIsNotApart()
    ensures ValidSnapshot(TwoLayouts()) && UniqueIds(TwoLayouts().layouts) && UniqueKeys(TwoLayouts().placements)
    ensures !BatchApart(AsStore(TwoLayouts()), "a\0b", PatchC())
  {
    StoreOfTwo();
    NamesDiffer();
    assert ("a\0b", "c") in PatchedKeys("a\0b", PatchC()) by { assert PatchC()[0].node == "c"; }
    assert !Apart(("a", "b\0c"), ("a\0b", "c"));
  }

  /** The tables take this batch and the file refuses it. */
  method Disagree(digest: string -> string) returns (fileOk: bool, sqlOk: bool)
    ensures sqlOk && !fileOk
  {
    BatchIsAccepted();
    BatchIsNotApart();
    ValidSnapshotIsValidStore(TwoLayouts());
    var file := new FileRepository.Load(TwoLayouts(), digest);
    var sql := new SqlRepository.Load(AsStore(TwoLayouts()), digest);
    fileOk, sqlOk := PatchBoth(file, sql, "a\0b", PatchC(), true);
  }
}
