/** The durable list of embedded-session records and the rules by which it is changed. */
module SessionRecords {
  import opened Options
  import opened NulKeys

  datatype SessionState = Starting | Running | Exited | Cancelled | Failed | Interrupted

  /** The fields the protocol acts on. An empty `key` is no idempotency key. */
  datatype Record = Record(id: string, workspace: string, key: string, state: SessionState)

  predicate SameKey(a: Record, b: Record) {
    a.key != "" && a.workspace == b.workspace && a.key == b.key
  }

  function Get(records: seq<Record>, id: string): Option<Record> {
    if records == [] then None
    else if records[0].id == id then Some(records[0])
    else Get(records[1..], id)
  }

  /** What the stored list becomes, or `None` when an earlier record holds the key. */
  function Upsert(records: seq<Record>, r: Record): Option<seq<Record>> {
    if records == [] then Some([r])
    else if records[0].id == r.id then Some([r] + records[1..])
    else if SameKey(r, records[0]) then None
    else
      var rest := Upsert(records[1..], r);
      if rest.None? then None else Some([records[0]] + rest.value)
  }

  predicate Distinct(a: Record, b: Record) {
    a.id != b.id && !SameKey(a, b)
  }

  /** No ID occurs twice, and no two records of a workspace share an idempotency key. */
  predicate ValidRecords(records: seq<Record>) {
    forall i, j {:trigger Distinct(records[i], records[j])} :: 0 <= i < j < |records| ==>
      Distinct(records[i], records[j])
  }

  lemma DifferentPlaces(records: seq<Record>, i: nat, j: nat)
    requires ValidRecords(records) && i < |records| && j < |records| && i != j
    ensures records[i].id != records[j].id && !SameKey(records[i], records[j])
  {
    assert if i < j then Distinct(records[i], records[j]) else Distinct(records[j], records[i]);
  }

  predicate KeyFreeFor(records: seq<Record>, r: Record) {
    forall i :: 0 <= i < |records| && records[i].id != r.id ==> !SameKey(r, records[i])
  }

  lemma {:induction false} GetFinds(records: seq<Record>, id: string)
    ensures Get(records, id).Some? ==> exists i :: 0 <= i < |records| && records[i] == Get(records, id).value
    ensures Get(records, id).Some? ==> Get(records, id).value.id == id
    ensures Get(records, id).None? <==> forall i :: 0 <= i < |records| ==> records[i].id != id
  {
    if records != [] {
      GetFinds(records[1..], id);
      assert forall i :: 0 <= i < |records[1..]| ==> records[1..][i] == records[i + 1];
      assert forall i :: 1 <= i < |records| ==> records[i] == records[1..][i - 1];
    }
  }

  /** Upsert replaces the record of that ID, or appends, and touches no other. */
  lemma {:induction false} UpsertWrites(records: seq<Record>, r: Record, id: string)
    requires Upsert(records, r).Some?
    ensures Get(Upsert(records, r).value, id) == if id == r.id then Some(r) else Get(records, id)
  {
    if records != [] && records[0].id != r.id {
      UpsertWrites(records[1..], r, id);
      assert ([records[0]] + Upsert(records[1..], r).value)[1..] == Upsert(records[1..], r).value;
    } else if records != [] {
      assert ([r] + records[1..])[1..] == records[1..];
    }
  }

  /** Where the record of that ID is, or the end of the list. */
  function Place(records: seq<Record>, id: string): (k: nat)
    ensures k <= |records| && (k < |records| ==> records[k].id == id)
    ensures forall i :: 0 <= i < k ==> records[i].id != id
  {
    if records == [] || records[0].id == id then 0 else 1 + Place(records[1..], id)
  }

  function Replaced(records: seq<Record>, k: nat, r: Record): seq<Record>
    requires k <= |records|
  {
    records[..k] + [r] + (if k < |records| then records[k + 1..] else [])
  }

  /** Upsert checks the keys before that place, and writes there. */
  lemma UpsertForm(records: seq<Record>, r: Record)
    ensures Upsert(records, r).Some? <==> forall i :: 0 <= i < Place(records, r.id) ==> !SameKey(r, records[i])
    ensures Upsert(records, r).Some? ==> Upsert(records, r).value == Replaced(records, Place(records, r.id), r)
  {
    UpsertChecks(records, r);
    UpsertPlaces(records, r);
  }

  lemma {:induction false} UpsertChecks(records: seq<Record>, r: Record)
    ensures Upsert(records, r).Some? <==> forall i :: 0 <= i < Place(records, r.id) ==> !SameKey(r, records[i])
  {
    if records != [] && records[0].id != r.id {
      UpsertChecks(records[1..], r);
      assert forall i :: 1 <= i < Place(records, r.id) ==> records[i] == records[1..][i - 1];
    }
  }

  lemma {:induction false} UpsertPlaces(records: seq<Record>, r: Record)
    ensures Upsert(records, r).Some? ==> Upsert(records, r).value == Replaced(records, Place(records, r.id), r)
  {
    if records != [] && records[0].id != r.id {
      UpsertPlaces(records[1..], r);
      var k := Place(records[1..], r.id);
      assert [records[0]] + Replaced(records[1..], k, r) == Replaced(records, k + 1, r);
    }
  }

  /** The stored list stays valid exactly when no other record holds the key: Upsert itself looks
      only at the records before the one it replaces. */
  lemma UpsertKeepsValid(records: seq<Record>, r: Record)
    requires ValidRecords(records) && Upsert(records, r).Some?
    ensures ValidRecords(Upsert(records, r).value) <==> KeyFreeFor(records, r)
  {
    var k := Place(records, r.id);
    var out := Replaced(records, k, r);
    UpsertForm(records, r);
    if KeyFreeFor(records, r) {
      forall i, j | 0 <= i < j < |out| ensures Distinct(out[i], out[j]) {
        if k == |records| || (i != k && j != k) {
          assert j < |records| ==> Distinct(records[i], records[j]);
        } else {
          assert Distinct(records[i], records[j]);
        }
      }
    } else {
      var i :| 0 <= i < |records| && records[i].id != r.id && SameKey(r, records[i]);
      assert k < i;
      assert !Distinct(out[k], out[i]);
    }
  }

  /** So writing back a stale copy of an earlier record can make it share the key of a later one. */
  lemma UpsertMayShareALaterKey(a: string, b: string, workspace: string, key: string)
    requires a != b && key != ""
    ensures var first, second, stale :=
      Record(a, workspace, "", Failed), Record(b, workspace, key, Running), Record(a, workspace, key, Interrupted);
      && ValidRecords([first, second])
      && Upsert([first, second], stale) == Some([stale, second]) && !ValidRecords([stale, second])
  {
    var first, second, stale :=
      Record(a, workspace, "", Failed), Record(b, workspace, key, Running), Record(a, workspace, key, Interrupted);
    assert [stale] + [first, second][1..] == [stale, second];
    assert !Distinct([stale, second][0], [stale, second][1]);
  }

  /** A record whose key its own ID already holds, or that has no key, always fits. */
  lemma KeptKeyFits(records: seq<Record>, r: Record)
    requires ValidRecords(records)
    requires r.key == "" || (Get(records, r.id).Some? &&
      Get(records, r.id).value.key == r.key && Get(records, r.id).value.workspace == r.workspace)
    ensures KeyFreeFor(records, r) && Upsert(records, r).Some?
  {
    if r.key != "" {
      GetFinds(records, r.id);
      var k :| 0 <= k < |records| && records[k] == Get(records, r.id).value;
      forall i | 0 <= i < |records| && records[i].id != r.id ensures !SameKey(r, records[i]) {
        DifferentPlaces(records, i, k);
      }
    }
    UpsertForm(records, r);
  }

  /** A record with a new ID is accepted only if nobody holds its key. */
  lemma NewRecordNeedsFreeKey(records: seq<Record>, r: Record)
    requires Get(records, r.id).None?
    ensures Upsert(records, r).Some? <==> KeyFreeFor(records, r)
    ensures KeyFreeFor(records, r) <==>
      r.key == "" || forall i :: 0 <= i < |records| ==> records[i].workspace != r.workspace || records[i].key != r.key
  {
    UpsertForm(records, r);
    GetFinds(records, r.id);
  }

  // ------------------------------------------------------------------ repository

  /** How writing the file ends: done, undone, or failed with the new contents left in place. */
  datatype Write = Saved | Lost | SavedWithError

  function Stored(records: seq<Record>, out: Option<seq<Record>>, write: Write): seq<Record> {
    if out.None? || write.Lost? then records else out.value
  }

  /** The first record of the workspace with the key; keys and workspace IDs arrive trimmed. */
  function FindByIdempotency(records: seq<Record>, workspace: string, key: string): Option<Record> {
    if workspace == "" || key == "" || records == [] then None
    else if records[0].workspace == workspace && records[0].key == key then Some(records[0])
    else FindByIdempotency(records[1..], workspace, key)
  }

  lemma {:induction false} FindMissesOnlyFreeKeys(records: seq<Record>, r: Record)
    requires r.workspace != "" && FindByIdempotency(records, r.workspace, r.key).None?
    ensures KeyFreeFor(records, r)
  {
    if records != [] && r.key != "" {
      FindMissesOnlyFreeKeys(records[1..], r);
      assert forall i :: 1 <= i < |records| ==> records[i] == records[1..][i - 1];
    }
  }

  class FileSessionRecordRepository {
    var records: seq<Record>

    constructor (records: seq<Record>)
      ensures this.records == records
    {
      this.records := records;
    }

    method UpsertRecord(r: Record, write: Write) returns (ok: bool)
      modifies this
      ensures records == Stored(old(records), Upsert(old(records), r), write)
      ensures ok <==> Upsert(old(records), r).Some? && write.Saved?
    {
      UpsertForm(records, r);
      for i := 0 to |records|
        invariant records == old(records)
        invariant forall k :: 0 <= k < i ==> records[k].id != r.id && !SameKey(r, records[k])
      {
        if records[i].id == r.id {
          ok := Publish(records[i := r], write);
          return;
        }
        if r.key != "" && records[i].workspace == r.workspace && records[i].key == r.key {
          return false;
        }
      }
      ok := Publish(records + [r], write);
    }

    method Publish(next: seq<Record>, write: Write) returns (ok: bool)
      modifies this
      ensures records == (if write.Lost? then old(records) else next) && (ok <==> write.Saved?)
    {
      if !write.Lost? {
        records := next;
      }
      ok := write.Saved?;
    }

    /** `validateSessionRecords`, which every load runs: it joins workspace and key with a NUL. */
    method Validate() returns (ok: bool)
      ensures ok == Passes(records)
    {
      var seen: set<string> := {};
      var keys: set<string> := {};
      for i := 0 to |records|
        invariant seen == set k | 0 <= k < i :: records[k].id
        invariant keys == set k | 0 <= k < i && records[k].key != "" :: JoinedKey(records[k])
        invariant forall k, l :: 0 <= k < l < i ==> ToldApart(records[k], records[l])
      {
        var r := records[i];
        if r.id in seen {
          return false;
        }
        seen := seen + {r.id};
        if r.key != "" {
          if JoinedKey(r) in keys {
            return false;
          }
          keys := keys + {JoinedKey(r)};
        }
      }
      ok := true;
    }
  }

  // ------------------------------------------------------------------ the check on loading

  function JoinedKey(r: Record): string {
    Join(r.workspace, r.key)
  }

  predicate ToldApart(a: Record, b: Record) {
    a.id != b.id && !(a.key != "" && b.key != "" && JoinedKey(a) == JoinedKey(b))
  }

  predicate Passes(records: seq<Record>) {
    forall i, j :: 0 <= i < j < |records| ==> ToldApart(records[i], records[j])
  }

  /** Two records with keys share a joined key only if they share workspace and key. */
  predicate JoinsTruly(a: Record, b: Record) {
    a.key != "" && b.key != "" && JoinedKey(a) == JoinedKey(b) ==> a.workspace == b.workspace && a.key == b.key
  }

  /** The check accepts exactly the valid lists whose joined keys are as different as their keys. */
  lemma ValidationDecidesValidity(records: seq<Record>)
    ensures Passes(records)
      <==> ValidRecords(records) && forall i, j :: 0 <= i < j < |records| ==> JoinsTruly(records[i], records[j])
  {
    if Passes(records) {
      forall i, j | 0 <= i < j < |records|
        ensures Distinct(records[i], records[j]) && JoinsTruly(records[i], records[j])
      {
        assert ToldApart(records[i], records[j]);
      }
    } else {
      var i, j :| 0 <= i < j < |records| && !ToldApart(records[i], records[j]);
      assert !Distinct(records[i], records[j]) || !JoinsTruly(records[i], records[j]);
    }
  }

  /** Workspace IDs without NUL characters are enough. */
  lemma NulFreeWorkspacesPass(records: seq<Record>)
    requires forall i :: 0 <= i < |records| ==> NulFree(records[i].workspace)
    ensures Passes(records) <==> ValidRecords(records)
  {
    ValidationDecidesValidity(records);
    forall i, j | 0 <= i < j < |records| ensures JoinsTruly(records[i], records[j]) {
      if JoinedKey(records[i]) == JoinedKey(records[j]) {
        JoinIsInjective(records[i].workspace, records[i].key, records[j].workspace, records[j].key);
      }
    }
  }

  /** Otherwise a valid list can be refused. */
  lemma ValidListRefused(a: string, b: string)
    requires a != b
    ensures var records := [Record(a, "a", "b\0c", Running), Record(b, "a\0b", "c", Running)];
      ValidRecords(records) && !Passes(records)
  {
    var records := [Record(a, "a", "b\0c", Running), Record(b, "a\0b", "c", Running)];
    JoinConfusesNul();
    assert |"a"| != |"a\0b"|;
    assert !ToldApart(records[0], records[1]);
  }
}
