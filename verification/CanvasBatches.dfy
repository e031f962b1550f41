/**
  A batch of placement patches, checked and then written into the list of placements.

  The first loop looks at every patch and collects conflicts; the second moves or appends one row
  after the other and may still refuse. The lemmas follow the second loop: what is written after a
  prefix of the batch, how many rows the layout then has, and why stopping early is right.
 */
module CanvasBatches {
  import opened Collections
  import opened CanvasStore
  import opened CanvasSnapshots

  // ------------------------------------------------------------------ one patch more

  function Written(s: Store, layout: string, patches: seq<Patch>): map<Key, Placement> {
    s.table + PatchRows(s, layout, patches)
  }

  /** A key that the batch does not name is as it was. */
  lemma WrittenElsewhere(s: Store, layout: string, patches: seq<Patch>, key: Key)
    requires DistinctPatches(patches) && key !in PatchedKeys(layout, patches)
    ensures var w := Written(s, layout, patches);
      && (key in w <==> key in s.table) && (key in s.table ==> w[key] == s.table[key])
  {
    RowsOfPatches(s, layout, patches);
  }

  lemma NotAmongThoseBefore(layout: string, patches: seq<Patch>, n: nat)
    requires n < |patches| && DistinctPatches(patches)
    ensures DistinctPatches(patches[..n]) && (layout, patches[n].node) !in PatchedKeys(layout, patches[..n])
  {
    assert forall i :: 0 <= i < n ==> patches[..n][i].node == patches[i].node != patches[n].node;
  }

  lemma WrittenOneMore(s: Store, layout: string, patches: seq<Patch>, n: nat)
    requires n < |patches| && DistinctPatches(patches)
    ensures DistinctPatches(patches[..n])
    ensures var key, before := (layout, patches[n].node), Written(s, layout, patches[..n]);
      && Written(s, layout, patches[..n + 1]) == before[key := Patched(s, layout, patches[n])]
      && (key in before <==> key in s.table) && (key in s.table ==> before[key] == s.table[key])
  {
    assert patches[..n + 1][..n] == patches[..n];
    NotAmongThoseBefore(layout, patches, n);
    WrittenElsewhere(s, layout, patches[..n], (layout, patches[n].node));
  }

  lemma RowsPlaced(s: Store, layout: string, patches: seq<Patch>)
    requires DistinctPatches(patches)
    ensures Placed(Written(s, layout, patches), layout) == Placed(s.table, layout) + PatchedKeys(layout, patches)
  {
    RowsOfPatches(s, layout, patches);
    PlacedAfter(s.table, PatchRows(s, layout, patches), layout, layout);
  }

  lemma PlacedOneMore(table: map<Key, Placement>, key: Key, p: Placement)
    ensures Placed(table[key := p], key.0) == Placed(table, key.0) + {key}
    ensures |Placed(table[key := p], key.0)| == |Placed(table, key.0)| + if key in table then 0 else 1
  {
    assert Placed(table[key := p], key.0) == Placed(table, key.0) + {key};
    if key in table { assert Placed(table, key.0) + {key} == Placed(table, key.0); }
  }

  lemma KeysOfPrefix(layout: string, patches: seq<Patch>, n: nat)
    requires n <= |patches|
    ensures PatchedKeys(layout, patches[..n]) <= PatchedKeys(layout, patches)
  {
    forall key | key in PatchedKeys(layout, patches[..n]) ensures key in PatchedKeys(layout, patches) {
      var i :| 0 <= i < n && key == (layout, patches[..n][i].node);
      assert key == (layout, patches[i].node);
    }
  }

  /** The placements counted after a prefix of the batch are among those counted at its end. */
  lemma CountBound(s: Store, layout: string, patches: seq<Patch>, n: nat)
    requires n <= |patches| && DistinctPatches(patches)
    ensures |Placed(Written(s, layout, patches[..n]), layout)| <= |Placed(Written(s, layout, patches), layout)|
  {
    RowsPlaced(s, layout, patches[..n]);
    RowsPlaced(s, layout, patches);
    KeysOfPrefix(layout, patches, n);
    SubsetSize(Placed(Written(s, layout, patches[..n]), layout), Placed(Written(s, layout, patches), layout));
  }

  // ------------------------------------------------------------------ the batch on two lists

  /** `existing` gives the place of every node the layout has. */
  ghost predicate Indexes(existing: map<string, nat>, placements: seq<Placement>, layout: string) {
    && (forall i :: 0 <= i < |placements| && placements[i].layout == layout ==> placements[i].node in existing)
    && (forall node :: node in existing ==>
          existing[node] < |placements| && KeyOf(placements[existing[node]]) == (layout, node))
  }

  lemma IndexedRow(existing: map<string, nat>, placements: seq<Placement>, layout: string, node: string)
    requires UniqueKeys(placements) && Indexes(existing, placements, layout)
    ensures node in existing <==> (layout, node) in Table(placements)
    ensures node in existing ==> Table(placements)[(layout, node)] == placements[existing[node]]
  {
    if (layout, node) in Table(placements) {
      var i :| 0 <= i < |placements| && KeyOf(placements[i]) == (layout, node);
    }
  }

  method IndexNodes(placements: seq<Placement>, layout: string) returns (existing: map<string, nat>, count: nat)
    requires UniqueKeys(placements)
    ensures Indexes(existing, placements, layout)
    ensures count == |Placed(Table(placements), layout)|
  {
    existing, count := map[], 0;
    var i := 0;
    while i < |placements|
      invariant 0 <= i <= |placements|
      invariant Indexes(existing, placements[..i], layout)
      invariant count == CountFor(placements[..i], layout)
    {
      CountPrefix(placements, i, layout);
      if placements[i].layout == layout {
        existing := existing[placements[i].node := i];
        count := count + 1;
      }
      i := i + 1;
    }
    assert placements[..i] == placements;
    CountIsPlaced(placements, layout);
  }

  /** What the first loop checks of every patch: a node ID of its own and the revision it expects. */
  predicate Expected(s: Store, layout: string, patches: seq<Patch>) {
    DistinctPatches(patches) && forall i :: 0 <= i < |patches| ==>
      patches[i].node != "" && Matches(s, layout, patches[i])
  }

  function Nodes(patches: seq<Patch>): set<string> {
    set i | 0 <= i < |patches| :: patches[i].node
  }

  lemma NodesOneMore(patches: seq<Patch>, n: nat)
    requires n < |patches|
    ensures Nodes(patches[..n + 1]) == Nodes(patches[..n]) + {patches[n].node}
  {
    var before, after := patches[..n], patches[..n + 1];
    assert after == before + [patches[n]];
    forall node ensures node in Nodes(after) <==> node in Nodes(before) + {patches[n].node} {
      if node in Nodes(before) {
        var i :| 0 <= i < n && before[i].node == node;
        assert after[i].node == node;
      }
      assert after[n].node == patches[n].node;
    }
  }

  lemma DistinctOneMore(patches: seq<Patch>, n: nat)
    requires n < |patches|
    ensures DistinctPatches(patches[..n + 1])
      <==> (DistinctPatches(patches[..n]) && patches[n].node !in Nodes(patches[..n]))
  {
    var before, after := patches[..n], patches[..n + 1];
    assert forall i :: 0 <= i < n ==> after[i] == before[i];
    assert forall i :: 0 <= i < n ==> before[i].node in Nodes(before);
    assert after[n] == patches[n];
  }

  lemma DistinctPrefix(patches: seq<Patch>, n: nat)
    requires n <= |patches| && DistinctPatches(patches)
    ensures DistinctPatches(patches[..n])
  {
  }

  /** The first loop has looked at the first `n` patches. */
  ghost predicate Looked(
    s: Store, layout: string, patches: seq<Patch>, n: nat, seen: set<string>, conflicts: seq<string>)
    requires n <= |patches|
  {
    && seen == Nodes(patches[..n]) && DistinctPatches(patches[..n])
    && (forall i :: 0 <= i < n ==> patches[i].node != "")
    && (conflicts == [] <==> forall i :: 0 <= i < n ==> Matches(s, layout, patches[i]))
  }

  lemma LookedMore(
    s: Store, layout: string, patches: seq<Patch>, n: nat, seen: set<string>, conflicts: seq<string>, conflict: bool)
    requires n < |patches| && Looked(s, layout, patches, n, seen, conflicts)
    requires conflict <==> !Matches(s, layout, patches[n])
    ensures if patches[n].node in seen || patches[n].node == "" then !Expected(s, layout, patches)
      else Looked(s, layout, patches, n + 1, seen + {patches[n].node},
                  if conflict then conflicts + [patches[n].node] else conflicts)
  {
    NodesOneMore(patches, n);
    DistinctOneMore(patches, n);
    if DistinctPatches(patches) { DistinctPrefix(patches, n + 1); }
  }

  lemma AllLooked(s: Store, layout: string, patches: seq<Patch>, seen: set<string>, conflicts: seq<string>)
    requires Looked(s, layout, patches, |patches|, seen, conflicts)
    ensures conflicts == [] <==> Expected(s, layout, patches)
  {
    assert patches[..|patches|] == patches;
  }

  method CheckBatch(
    placements: seq<Placement>, existing: map<string, nat>, ghost s: Store, layout: string, patches: seq<Patch>)
    returns (ok: bool)
    requires UniqueKeys(placements) && Indexes(existing, placements, layout) && s.table == Table(placements)
    ensures ok == Expected(s, layout, patches)
  {
    var seen: set<string>, conflicts: seq<string> := {}, [];
    var n := 0;
    while n < |patches|
      invariant 0 <= n <= |patches| && Looked(s, layout, patches, n, seen, conflicts)
    {
      var p := patches[n];
      IndexedRow(existing, placements, layout, p.node);
      LookedMore(s, layout, patches, n, seen, conflicts, !Matches(s, layout, p));
      if p.node in seen || p.node == "" { return false; }
      seen := seen + {p.node};
      if p.node in existing {
        if placements[existing[p.node]].revision != p.expected { conflicts := conflicts + [p.node]; }
      } else if p.expected != 0 {
        conflicts := conflicts + [p.node];
      }
      n := n + 1;
    }
    AllLooked(s, layout, patches, seen, conflicts);
    ok := conflicts == [];
  }

  /** The second loop has made the first `n` patches: the rows are written, nothing has moved. */
  ghost predicate Applied(
    s: Store, layout: Layout, patches: seq<Patch>, n: nat, was: seq<Placement>, now: seq<Placement>)
    requires n <= |patches|
  {
    && UniqueKeys(now) && Table(now) == Written(s, layout.id, patches[..n])
    && |was| <= |now| && (forall i :: 0 <= i < |was| ==> KeyOf(now[i]) == KeyOf(was[i]))
    && (forall i :: 0 <= i < n ==> ValidPlacement(layout, Patched(s, layout.id, patches[i])))
  }

  lemma AppliedRow(
    s: Store, layout: Layout, patches: seq<Patch>, n: nat, was: seq<Placement>, now: seq<Placement>,
    existing: map<string, nat>)
    requires DistinctPatches(patches) && n < |patches|
    requires UniqueKeys(was) && s.table == Table(was) && Indexes(existing, was, layout.id)
    requires Applied(s, layout, patches, n, was, now)
    ensures var key, node := (layout.id, patches[n].node), patches[n].node;
      && (node in existing <==> key in s.table) && (key in Table(now) <==> key in s.table)
      && (node in existing ==> existing[node] < |now| && KeyOf(now[existing[node]]) == key
                               && now[existing[node]] == s.table[key])
  {
    var node := patches[n].node;
    WrittenOneMore(s, layout.id, patches, n);
    IndexedRow(existing, was, layout.id, node);
    if node in existing { RowAt(now, existing[node]); }
  }

  lemma AppliedCount(s: Store, layout: string, patches: seq<Patch>, n: nat)
    requires DistinctPatches(patches) && n < |patches|
    ensures |Placed(Written(s, layout, patches[..n + 1]), layout)|
      == |Placed(Written(s, layout, patches[..n]), layout)| + if (layout, patches[n].node) in s.table then 0 else 1
  {
    WrittenOneMore(s, layout, patches, n);
    PlacedOneMore(Written(s, layout, patches[..n]), (layout, patches[n].node), Patched(s, layout, patches[n]));
  }

  lemma AppliedMore(
    s: Store, layout: Layout, patches: seq<Patch>, n: nat, was: seq<Placement>, now: seq<Placement>,
    next: seq<Placement>)
    requires DistinctPatches(patches) && n < |patches| && Applied(s, layout, patches, n, was, now)
    requires var p := Patched(s, layout.id, patches[n]);
      UniqueKeys(next) && Table(next) == Table(now)[KeyOf(p) := p] && ValidPlacement(layout, p)
    requires |now| <= |next| && forall i :: 0 <= i < |now| ==> KeyOf(next[i]) == KeyOf(now[i])
    ensures Applied(s, layout, patches, n + 1, was, next)
  {
    WrittenOneMore(s, layout.id, patches, n);
  }

  /** The row goes where the index says, or to the end of the list. */
  method PutRow(
    layout: Layout, patch: Patch, now: seq<Placement>, existing: map<string, nat>, count: nat, ghost made: Placement)
    returns (ok: bool, next: seq<Placement>, total: nat)
    requires UniqueKeys(now) && KeyOf(made) == (layout.id, patch.node)
    requires if patch.node in existing
      then existing[patch.node] < |now| && KeyOf(now[existing[patch.node]]) == KeyOf(made)
        && made == Moved(layout.id, patch, now[existing[patch.node]])
      else KeyOf(made) !in Table(now) && made == Fresh(layout.id, patch)
    ensures total == if patch.node in existing then count else count + 1
    ensures ok <==> ValidPlacement(layout, made) && (patch.node in existing || total <= MAX_PLACEMENTS)
    ensures ok ==> UniqueKeys(next) && Table(next) == Table(now)[KeyOf(made) := made]
    ensures ok ==> |now| <= |next| && forall i :: 0 <= i < |now| ==> KeyOf(next[i]) == KeyOf(now[i])
  {
    next, total := now, count;
    var placement := Fresh(layout.id, patch);
    if patch.node in existing {
      var index := existing[patch.node];
      placement := Moved(layout.id, patch, now[index]);
      if !ValidPlacement(layout, placement) { return false, next, total; }
      ReplaceRow(now, index, placement);
      next := now[index := placement];
    } else {
      total := total + 1;
      if total > MAX_PLACEMENTS || !ValidPlacement(layout, placement) { return false, next, total; }
      AppendRow(now, placement);
      next := now + [placement];
    }
    ok := true;
  }

  lemma AcceptedCount(s: Store, layout: string, patches: seq<Patch>)
    requires AcceptsPatches(s, layout, patches)
    ensures |Placed(Written(s, layout, patches), layout)| <= MAX_PLACEMENTS
  {
    RowsPlaced(s, layout, patches);
  }

  lemma AcceptedPrefix(s: Store, layout: string, patches: seq<Patch>, n: nat)
    requires AcceptsPatches(s, layout, patches) && n <= |patches|
    ensures |Placed(Written(s, layout, patches[..n]), layout)| <= MAX_PLACEMENTS
  {
    AcceptedCount(s, layout, patches);
    CountBound(s, layout, patches, n);
  }

  ghost predicate AllFit(s: Store, layout: string, patches: seq<Patch>)
    requires layout in s.layouts
  {
    forall i :: 0 <= i < |patches| ==> ValidPlacement(s.layouts[layout], Patched(s, layout, patches[i]))
  }

  lemma AcceptedBatch(s: Store, layout: string, patches: seq<Patch>)
    requires AcceptsPatches(s, layout, patches)
    ensures Expected(s, layout, patches) && AllFit(s, layout, patches)
  {
    forall i | 0 <= i < |patches|
      ensures patches[i].node != "" && Matches(s, layout, patches[i])
      ensures ValidPlacement(s.layouts[layout], Patched(s, layout, patches[i]))
    {
      AcceptedPatch(s, layout, patches, i);
    }
  }

  /** The batch is as the writer expects it and every placement it makes is valid, up to the limit. */
  lemma BatchAccepted(s: Store, layout: string, patches: seq<Patch>)
    requires layout in s.layouts && 1 <= |patches| <= MAX_PLACEMENT_BATCH
    ensures AcceptsPatches(s, layout, patches) <==>
      && Expected(s, layout, patches) && AllFit(s, layout, patches)
      && |Placed(Written(s, layout, patches), layout)| <= MAX_PLACEMENTS
  {
    if AcceptsPatches(s, layout, patches) {
      AcceptedBatch(s, layout, patches);
      AcceptedCount(s, layout, patches);
    } else if DistinctPatches(patches) {
      RowsPlaced(s, layout, patches);
    }
  }

  lemma RefusedForOne(s: Store, layout: string, patches: seq<Patch>, n: nat)
    requires layout in s.layouts && n < |patches| && !ValidPlacement(s.layouts[layout], Patched(s, layout, patches[n]))
    ensures !AcceptsPatches(s, layout, patches)
  {
  }

  lemma RefusedForCount(s: Store, layout: string, patches: seq<Patch>, n: nat)
    requires n <= |patches| && |Placed(Written(s, layout, patches[..n]), layout)| > MAX_PLACEMENTS
    ensures !AcceptsPatches(s, layout, patches)
  {
    if AcceptsPatches(s, layout, patches) { AcceptedPrefix(s, layout, patches, n); }
  }

  /** A placement that is not valid, or one too many, refuses the whole batch. */
  lemma Refused(s: Store, layout: string, patches: seq<Patch>, n: nat)
    requires layout in s.layouts && n < |patches|
    requires !ValidPlacement(s.layouts[layout], Patched(s, layout, patches[n]))
      || |Placed(Written(s, layout, patches[..n + 1]), layout)| > MAX_PLACEMENTS
    ensures !AcceptsPatches(s, layout, patches)
  {
    if !ValidPlacement(s.layouts[layout], Patched(s, layout, patches[n])) {
      RefusedForOne(s, layout, patches, n);
    } else {
      RefusedForCount(s, layout, patches, n + 1);
    }
  }

  /** One pass of the second loop: the row is moved or appended, or the batch is refused. */
  method ApplyOne(
    ghost s: Store, layout: Layout, patches: seq<Patch>, n: nat, ghost was: seq<Placement>, now: seq<Placement>,
    existing: map<string, nat>, count: nat)
    returns (ok: bool, next: seq<Placement>, total: nat)
    requires DistinctPatches(patches) && n < |patches| <= MAX_PLACEMENT_BATCH
    requires layout.id in s.layouts && s.layouts[layout.id] == layout
    requires UniqueKeys(was) && s.table == Table(was) && Indexes(existing, was, layout.id)
    requires Applied(s, layout, patches, n, was, now) && count == |Placed(Table(now), layout.id)| <= MAX_PLACEMENTS
    ensures ok ==>
      Applied(s, layout, patches, n + 1, was, next) && total == |Placed(Table(next), layout.id)| <= MAX_PLACEMENTS
    ensures !ok ==> !AcceptsPatches(s, layout.id, patches)
  {
    AppliedRow(s, layout, patches, n, was, now, existing);
    AppliedCount(s, layout.id, patches, n);
    ok, next, total := PutRow(layout, patches[n], now, existing, count, Patched(s, layout.id, patches[n]));
    if ok {
      AppliedMore(s, layout, patches, n, was, now, next);
    } else {
      Refused(s, layout.id, patches, n);
    }
  }

  lemma NothingApplied(s: Store, layout: Layout, patches: seq<Patch>, placements: seq<Placement>)
    requires UniqueKeys(placements) && s.table == Table(placements)
    ensures Applied(s, layout, patches, 0, placements, placements)
  {
    assert Written(s, layout.id, patches[..0]) == s.table;
  }

  method ApplyAll(
    ghost s: Store, layout: Layout, placements: seq<Placement>, patches: seq<Patch>, existing: map<string, nat>,
    nodes: nat)
    returns (ok: bool, next: seq<Placement>)
    requires UniqueKeys(placements) && s.table == Table(placements) && Indexes(existing, placements, layout.id)
    requires layout.id in s.layouts && s.layouts[layout.id] == layout && 1 <= |patches| <= MAX_PLACEMENT_BATCH
    requires nodes == |Placed(s.table, layout.id)| <= MAX_PLACEMENTS && DistinctPatches(patches)
    ensures ok ==>
      Applied(s, layout, patches, |patches|, placements, next) && |Placed(Table(next), layout.id)| <= MAX_PLACEMENTS
    ensures !ok ==> !AcceptsPatches(s, layout.id, patches)
  {
    next := placements;
    var n, count := 0, nodes;
    NothingApplied(s, layout, patches, placements);
    while n < |patches|
      invariant 0 <= n <= |patches|
      invariant Applied(s, layout, patches, n, placements, next)
      invariant count == |Placed(Table(next), layout.id)| <= MAX_PLACEMENTS
    {
      ok, next, count := ApplyOne(s, layout, patches, n, placements, next, existing, count);
      if !ok {
        return;
      }
      n := n + 1;
    }
    ok := true;
  }

  /** `applyPlacementPatches`. */
  method ApplyPatches(ghost s: Store, layout: Layout, placements: seq<Placement>, patches: seq<Patch>)
    returns (ok: bool, next: seq<Placement>)
    requires UniqueKeys(placements) && s.table == Table(placements) && |Placed(s.table, layout.id)| <= MAX_PLACEMENTS
    requires layout.id in s.layouts && s.layouts[layout.id] == layout && 1 <= |patches| <= MAX_PLACEMENT_BATCH
    ensures ok == AcceptsPatches(s, layout.id, patches)
    ensures ok ==> UniqueKeys(next) && Table(next) == WithPatches(s, layout.id, patches).table
  {
    BatchAccepted(s, layout.id, patches);
    next := placements;
    var existing, count := IndexNodes(placements, layout.id);
    ok := CheckBatch(placements, existing, s, layout.id, patches);
    if ok { ok, next := ApplyAll(s, layout, placements, patches, existing, count); }
    assert patches[..|patches|] == patches;
  }
}
