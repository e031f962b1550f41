/** Launching embedded AI sessions. */
module SessionLaunch {
  // A record is reserved under an idempotency key, a process is started, "running" is published, and
  // a failure at any point is compensated, while process exits, cancellations and observer callbacks
  // arrive from other goroutines.

  import opened Options
  import opened SessionRecords

  datatype Session = Session(state: SessionState, alive: bool)

  /** Where the launch that holds the launch mutex has got to; `r` is the record it reserved. */
  datatype Phase =
    | Idle
    | Checked(r: Record)
    | Reserved(r: Record)
    | Registered(r: Record)
    | Spawned(r: Record)
    | ReadBack(r: Record, copy: Record)
    | Failing(r: Record, mustStop: bool)

  /** `pending` is what an observer callback has read and is about to write; it holds the record mutex
      in between, which other callbacks and compensations wait for. `launched` (workspace and key a
      session was launched with) and `compensated` are history. */
  datatype State = State(
    records: seq<Record>, sessions: map<string, Session>, phase: Phase, pending: Option<Record>,
    launched: map<string, (string, string)>, compensated: set<string>)

  datatype Event =
    | Check(id: string, workspace: string, key: string)
    | GiveUp
    | Reserve(write: Write)
    | Register(ok: bool)
    | Spawn(ok: bool)
    | ReadRecord(ok: bool, seen: SessionState)
    | PublishRunning(write: Write)
    | StopProcess
    | Compensate(write: Write)
    | Observe(id: string, seen: SessionState)
    | Sync(write: Write)
    | Exit(id: string)
    | Cancel(id: string)

  predicate Active(state: SessionState) {
    state.Starting? || state.Running?
  }

  /** `stop`: an active session becomes cancelled and its process is killed. */
  function Stopped(sessions: map<string, Session>, id: string): map<string, Session> {
    if id in sessions && Active(sessions[id].state) then sessions[id := Session(Cancelled, false)] else sessions
  }

  /** What `syncSessionRecord` will write: the record follows the session unless its launch was compensated. */
  function ToSync(records: seq<Record>, id: string, seen: SessionState): Option<Record> {
    var found := Get(records, id);
    if found.None? || (found.value.state.Failed? && found.value.key == "" && !seen.Failed?) then None
    else Some(found.value.(state := seen))
  }

  /** A compensated record follows no callback but another failure. */
  predicate Ignores(r: Record, seen: SessionState) {
    r.state == Failed && r.key == "" && seen != Failed
  }

  predicate Saves(records: seq<Record>, r: Record, write: Write) {
    Upsert(records, r).Some? && write.Saved?
  }

  predicate Enabled(s: State, e: Event) {
    match e
    // The ID is drawn at random and taken to be new.
    case Check(id, workspace, _) =>
      && s.phase.Idle? && id !in s.sessions && Get(s.records, id).None?
      && id !in s.launched && id !in s.compensated && workspace != ""
    case GiveUp => s.phase.Checked?
    case Reserve(_) => s.phase.Checked?
    case Register(_) => s.phase.Reserved?
    case Spawn(_) => s.phase.Registered?
    case ReadRecord(_, _) => s.phase.Spawned?
    case PublishRunning(_) => s.phase.ReadBack?
    case StopProcess => s.phase.Failing? && s.phase.mustStop
    case Compensate(_) => s.phase.Failing? && !s.phase.mustStop && s.pending.None?
    case Observe(id, _) => id in s.sessions && s.pending.None?
    case Sync(_) => s.pending.Some?
    case Exit(id) => id in s.sessions && s.sessions[id].alive
    case Cancel(id) => id in s.sessions
  }

  function Step(s: State, e: Event): State
    requires Enabled(s, e)
  {
    match e
    case Check(id, workspace, key) =>
      if FindByIdempotency(s.records, workspace, key).Some? then s
      else s.(phase := Checked(Record(id, workspace, key, Starting)))
    case GiveUp => s.(phase := Idle)
    case Reserve(write) =>
      var r := s.phase.r;
      s.(records := Stored(s.records, Upsert(s.records, r), write),
         phase := if Saves(s.records, r, write) then Reserved(r) else Idle)
    case Register(ok) =>
      var r := s.phase.r;
      if !ok then s.(phase := Failing(r, false))
      else s.(sessions := s.sessions[r.id := Session(Starting, false)],
              launched := s.launched[r.id := (r.workspace, r.key)], phase := Registered(r))
    case Spawn(ok) =>
      var r := s.phase.r;
      if ok then s.(sessions := s.sessions[r.id := Session(Running, true)], phase := Spawned(r))
      else s.(sessions := s.sessions[r.id := Session(Failed, false)], phase := Failing(r, false))
    case ReadRecord(ok, seen) =>
      var r := s.phase.r;
      var found := Get(s.records, r.id);
      if ok && found.Some? then s.(phase := ReadBack(r, found.value.(state := seen)))
      else s.(phase := Failing(r, true))
    case PublishRunning(write) =>
      var copy := s.phase.copy;
      s.(records := Stored(s.records, Upsert(s.records, copy), write),
         phase := if Saves(s.records, copy, write) then Idle else Failing(s.phase.r, true))
    case StopProcess =>
      s.(sessions := Stopped(s.sessions, s.phase.r.id), phase := Failing(s.phase.r, false))
    case Compensate(write) =>
      var failed := s.phase.r.(state := Failed, key := "");
      s.(records := Stored(s.records, Upsert(s.records, failed), write),
         compensated := if write.Lost? then s.compensated else s.compensated + {failed.id}, phase := Idle)
    case Observe(id, seen) => s.(pending := ToSync(s.records, id, seen))
    case Sync(write) => s.(records := Stored(s.records, Upsert(s.records, s.pending.value), write), pending := None)
    case Exit(id) =>
      var now := if s.sessions[id].state.Running? then Exited else s.sessions[id].state;
      s.(sessions := s.sessions[id := Session(now, false)])
    case Cancel(id) => s.(sessions := Stopped(s.sessions, id))
  }

  predicate IsRun(s: State, events: seq<Event>)
    decreases |events|
  {
    events == [] || (Enabled(s, events[0]) && IsRun(Step(s, events[0]), events[1..]))
  }

  function Run(s: State, events: seq<Event>): State
    requires IsRun(s, events)
    decreases |events|
  {
    if events == [] then s else Run(Step(s, events[0]), events[1..])
  }

  /** The service as it starts: any valid list of records from earlier processes, no session. */
  function Initial(records: seq<Record>): State {
    State(records, map[], Idle, None, map[], {})
  }

  // ------------------------------------------------------------------ invariant

  /** The record of that ID carries that workspace and key. */
  ghost predicate Holds(records: seq<Record>, id: string, workspace: string, key: string) {
    && Get(records, id).Some?
    && Get(records, id).value.workspace == workspace && Get(records, id).value.key == key
  }

  ghost predicate CompensatedStays(records: seq<Record>, id: string) {
    Get(records, id).Some? && Get(records, id).value.state.Failed? && Get(records, id).value.key == ""
  }

  ghost predicate Alive(s: State, id: string) {
    id in s.sessions && s.sessions[id].alive
  }

  /** A live process runs under a launch whose workspace and key its record still carries. */
  ghost predicate AliveInv(s: State, id: string) {
    Alive(s, id) ==>
      && s.sessions[id].state.Running? && id in s.launched && id !in s.compensated
      && Holds(s.records, id, s.launched[id].0, s.launched[id].1)
  }

  ghost predicate CompensatedInv(s: State, id: string) {
    id in s.compensated ==> CompensatedStays(s.records, id)
  }

  ghost predicate ReservedInv(s: State, r: Record) {
    Holds(s.records, r.id, r.workspace, r.key) && r.id !in s.compensated
  }

  ghost predicate LaunchedInv(s: State, r: Record) {
    r.id in s.sessions && r.id in s.launched && s.launched[r.id] == (r.workspace, r.key)
  }

  ghost predicate PhaseInv(s: State) {
    match s.phase
    case Idle => true
    case Checked(r) =>
      && r.id !in s.sessions && Get(s.records, r.id).None? && r.id !in s.compensated && r.id !in s.launched
    case Reserved(r) => ReservedInv(s, r) && r.id !in s.sessions
    case Registered(r) => ReservedInv(s, r) && LaunchedInv(s, r) && !Alive(s, r.id)
    case Spawned(r) => ReservedInv(s, r) && LaunchedInv(s, r)
    case ReadBack(r, copy) =>
      && ReservedInv(s, r) && LaunchedInv(s, r)
      && copy.id == r.id && copy.workspace == r.workspace && copy.key == r.key
    case Failing(r, mustStop) => ReservedInv(s, r) && (!mustStop ==> !Alive(s, r.id))
  }

  /** The pending copy keeps the workspace and key of its record, and does not bring back a compensated one. */
  ghost predicate PendingInv(s: State) {
    s.pending.Some? ==>
      var c := s.pending.value;
      Holds(s.records, c.id, c.workspace, c.key) && (c.id in s.compensated ==> c.state.Failed? && c.key == "")
  }

  ghost predicate Inv(s: State) {
    && ValidRecords(s.records) && PhaseInv(s) && PendingInv(s)
    && (forall id {:trigger AliveInv(s, id)} :: AliveInv(s, id))
    && (forall id {:trigger CompensatedInv(s, id)} :: CompensatedInv(s, id))
  }

  /** The record keeps its workspace and key, or gives its key up. */
  ghost predicate Rewrites(records: seq<Record>, r: Record) {
    r.key == "" || Holds(records, r.id, r.workspace, r.key)
  }

  lemma RewriteKeepsValid(records: seq<Record>, r: Record, write: Write)
    requires ValidRecords(records) && Rewrites(records, r)
    ensures Upsert(records, r).Some? && ValidRecords(Stored(records, Upsert(records, r), write))
    ensures forall id :: Get(Stored(records, Upsert(records, r), write), id) ==
              (if id == r.id && !write.Lost? then Some(r) else Get(records, id))
  {
    KeptKeyFits(records, r);
    UpsertKeepsValid(records, r);
    forall id ensures Get(Upsert(records, r).value, id) == if id == r.id then Some(r) else Get(records, id) {
      UpsertWrites(records, r, id);
    }
  }

  function Rewritten(records: seq<Record>, r: Record, write: Write): seq<Record> {
    Stored(records, Upsert(records, r), write)
  }

  lemma HoldingStays(
    records: seq<Record>, r: Record, write: Write, id: string, workspace: string, key: string)
    requires ValidRecords(records) && Holds(records, r.id, r.workspace, r.key) && Holds(records, id, workspace, key)
    ensures Holds(Rewritten(records, r, write), id, workspace, key)
  {
    RewriteKeepsValid(records, r, write);
  }

  lemma RewriteKeepsEach(s: State, r: Record, write: Write, id: string)
    requires ValidRecords(s.records) && Holds(s.records, r.id, r.workspace, r.key)
    requires r.id in s.compensated ==> r.state.Failed? && r.key == ""
    requires AliveInv(s, id) && CompensatedInv(s, id)
    ensures var t := s.(records := Rewritten(s.records, r, write)); AliveInv(t, id) && CompensatedInv(t, id)
  {
    RewriteKeepsValid(s.records, r, write);
    if Alive(s, id) { HoldingStays(s.records, r, write, id, s.launched[id].0, s.launched[id].1); }
  }

  lemma RewriteKeepsPhase(s: State, r: Record, write: Write)
    requires ValidRecords(s.records) && Holds(s.records, r.id, r.workspace, r.key) && PhaseInv(s)
    ensures PhaseInv(s.(records := Rewritten(s.records, r, write)))
  {
    match s.phase
    case Idle =>
    case Checked(own) => RewriteKeepsValid(s.records, r, write);
    case _ => HoldingStays(s.records, r, write, s.phase.r.id, s.phase.r.workspace, s.phase.r.key);
  }

  lemma RewriteKeepsPending(s: State, r: Record, write: Write)
    requires ValidRecords(s.records) && Holds(s.records, r.id, r.workspace, r.key) && PendingInv(s)
    ensures PendingInv(s.(records := Rewritten(s.records, r, write)))
  {
    if s.pending.Some? {
      HoldingStays(s.records, r, write, s.pending.value.id, s.pending.value.workspace, s.pending.value.key);
    }
  }

  /** Rewriting the record of a launch with its own workspace and key disturbs nothing. */
  lemma RewriteKeepsInv(s: State, r: Record, write: Write)
    requires Inv(s) && Holds(s.records, r.id, r.workspace, r.key)
    requires r.id in s.compensated ==> r.state.Failed? && r.key == ""
    ensures Inv(s.(records := Rewritten(s.records, r, write)))
  {
    var t := s.(records := Rewritten(s.records, r, write));
    RewriteKeepsPhase(s, r, write);
    RewriteKeepsPending(s, r, write);
    assert ValidRecords(t.records) by { RewriteKeepsValid(s.records, r, write); }
    forall id ensures AliveInv(t, id) && CompensatedInv(t, id) {
      assert AliveInv(s, id) && CompensatedInv(s, id);
      RewriteKeepsEach(s, r, write, id);
    }
  }

  lemma ObserveKeepsInv(s: State, id: string, seen: SessionState)
    requires Inv(s)
    ensures Inv(s.(pending := ToSync(s.records, id, seen)))
  {
    var t := s.(pending := ToSync(s.records, id, seen));
    GetFinds(s.records, id);
    assert CompensatedInv(s, id);
    forall i ensures AliveInv(t, i) { assert AliveInv(s, i); }
    forall i ensures CompensatedInv(t, i) { assert CompensatedInv(s, i); }
  }

  /** Whatever was written since the copy was read, writing it keeps the record's workspace and key. */
  lemma SyncKeepsInv(s: State, write: Write)
    requires Inv(s) && s.pending.Some?
    ensures Inv(Step(s, Sync(write)))
  {
    RewriteKeepsInv(s, s.pending.value, write);
    var t := Step(s, Sync(write));
    var u := s.(records := t.records);
    forall id ensures AliveInv(t, id) { assert AliveInv(u, id); }
    forall id ensures CompensatedInv(t, id) { assert CompensatedInv(u, id); }
  }

  lemma ReserveKeepsInv(s: State, write: Write)
    requires Inv(s) && s.phase.Checked?
    ensures Inv(Step(s, Reserve(write)))
  {
    var r := s.phase.r;
    var t := Step(s, Reserve(write));
    if Upsert(s.records, r).Some? {
      NewRecordNeedsFreeKey(s.records, r);
      UpsertKeepsValid(s.records, r);
      forall id ensures Get(t.records, id) == if id == r.id && !write.Lost? then Some(r) else Get(s.records, id) {
        UpsertWrites(s.records, r, id);
      }
    }
    forall id ensures AliveInv(t, id) { assert AliveInv(s, id); }
    forall id ensures CompensatedInv(t, id) { assert CompensatedInv(s, id); }
  }

  lemma CompensateKeepsInv(s: State, write: Write)
    requires Inv(s) && Enabled(s, Compensate(write))
    ensures Inv(Step(s, Compensate(write)))
  {
    var failed := s.phase.r.(state := Failed, key := "");
    var t := Step(s, Compensate(write));
    RewriteKeepsValid(s.records, failed, write);
    forall id ensures AliveInv(t, id) { assert AliveInv(s, id); }
    forall id ensures CompensatedInv(t, id) { assert CompensatedInv(s, id); }
  }

  predicate LeavesRecords(e: Event) {
    e.Check? || e.GiveUp? || e.Register? || e.Spawn? || e.ReadRecord? || e.StopProcess? || e.Exit? || e.Cancel?
  }

  lemma SessionStepKeepsEach(s: State, e: Event, id: string)
    requires Enabled(s, e) && LeavesRecords(e) && PhaseInv(s) && AliveInv(s, id) && CompensatedInv(s, id)
    ensures AliveInv(Step(s, e), id) && CompensatedInv(Step(s, e), id)
  {
  }

  lemma SessionStepKeepsPhase(s: State, e: Event)
    requires Enabled(s, e) && LeavesRecords(e) && PhaseInv(s)
    requires e.StopProcess? ==> AliveInv(s, s.phase.r.id)
    ensures PhaseInv(Step(s, e))
  {
    if e.ReadRecord? { GetFinds(s.records, s.phase.r.id); }
  }

  /** Steps that leave the records and the compensated launches alone. */
  lemma SessionStepKeepsInv(s: State, e: Event)
    requires Inv(s) && Enabled(s, e) && LeavesRecords(e)
    ensures Inv(Step(s, e))
  {
    var t := Step(s, e);
    if e.StopProcess? { assert AliveInv(s, s.phase.r.id); }
    SessionStepKeepsPhase(s, e);
    assert t.records == s.records && t.pending == s.pending && t.compensated == s.compensated;
    forall id ensures AliveInv(t, id) && CompensatedInv(t, id) {
      assert AliveInv(s, id) && CompensatedInv(s, id);
      SessionStepKeepsEach(s, e, id);
    }
  }

  lemma PublishKeepsInv(s: State, write: Write)
    requires Inv(s) && s.phase.ReadBack?
    ensures Inv(Step(s, PublishRunning(write)))
  {
    RewriteKeepsInv(s, s.phase.copy, write);
    var t := Step(s, PublishRunning(write));
    var u := s.(records := t.records);
    forall id ensures AliveInv(t, id) { assert AliveInv(u, id); }
    forall id ensures CompensatedInv(t, id) { assert CompensatedInv(u, id); }
  }

  lemma StepKeepsInv(s: State, e: Event)
    requires Inv(s) && Enabled(s, e)
    ensures Inv(Step(s, e))
  {
    match e
    case Reserve(write) => ReserveKeepsInv(s, write);
    case PublishRunning(write) => PublishKeepsInv(s, write);
    case Compensate(write) => CompensateKeepsInv(s, write);
    case Observe(id, seen) => ObserveKeepsInv(s, id, seen);
    case Sync(write) => SyncKeepsInv(s, write);
    case _ => SessionStepKeepsInv(s, e);
  }

  lemma {:induction false} RunKeepsInv(s: State, events: seq<Event>)
    requires Inv(s) && IsRun(s, events)
    ensures Inv(Run(s, events))
    decreases |events|
  {
    if events != [] {
      StepKeepsInv(s, events[0]);
      RunKeepsInv(Step(s, events[0]), events[1..]);
    }
  }

  // ------------------------------------------------------------------ results

  ghost predicate Safe(s: State) {
    // No two records of a workspace share an idempotency key, and none an ID.
    && ValidRecords(s.records)
    // At most one launch under a key keeps a running process.
    && (forall a, b :: Alive(s, a) && Alive(s, b) && a in s.launched && b in s.launched
          && s.launched[a] == s.launched[b] && s.launched[a].1 != ""
          ==> a == b)
    && (forall a :: Alive(s, a) ==> a in s.launched)
    // A compensated launch stays failed, without a key and without a process.
    && (forall id :: id in s.compensated ==> CompensatedStays(s.records, id) && !Alive(s, id))
  }

  lemma SameHolder(records: seq<Record>, a: string, b: string, workspace: string, key: string)
    requires ValidRecords(records) && key != ""
    requires Holds(records, a, workspace, key) && Holds(records, b, workspace, key)
    ensures a == b
  {
    GetFinds(records, a);
    GetFinds(records, b);
    var i :| 0 <= i < |records| && records[i] == Get(records, a).value;
    var j :| 0 <= j < |records| && records[j] == Get(records, b).value;
    if i != j { DifferentPlaces(records, i, j); }
  }

  lemma InvIsSafe(s: State)
    requires Inv(s)
    ensures Safe(s)
  {
    forall a, b | Alive(s, a) && Alive(s, b) && a in s.launched && b in s.launched
      && s.launched[a] == s.launched[b] && s.launched[a].1 != "" ensures a == b
    {
      assert AliveInv(s, a) && AliveInv(s, b);
      SameHolder(s.records, a, b, s.launched[a].0, s.launched[a].1);
    }
    forall a | Alive(s, a) ensures a in s.launched { assert AliveInv(s, a); }
    forall id | id in s.compensated ensures CompensatedStays(s.records, id) && !Alive(s, id) {
      assert CompensatedInv(s, id) && AliveInv(s, id);
    }
  }

  lemma EveryRunIsSafe(records: seq<Record>, events: seq<Event>)
    requires ValidRecords(records) && IsRun(Initial(records), events)
    ensures Safe(Run(Initial(records), events))
  {
    assert Inv(Initial(records));
    RunKeepsInv(Initial(records), events);
    InvIsSafe(Run(Initial(records), events));
  }

  /** Once compensated, for ever compensated. */
  lemma {:induction false} CompensationIsFinal(s: State, events: seq<Event>, id: string)
    requires Inv(s) && IsRun(s, events) && id in s.compensated
    ensures id in Run(s, events).compensated && CompensatedStays(Run(s, events).records, id)
    decreases |events|
  {
    if events == [] {
      assert CompensatedInv(s, id);
    } else {
      StepKeepsInv(s, events[0]);
      CompensationIsFinal(Step(s, events[0]), events[1..], id);
    }
  }

  /** A record without a key meets no other, so a compensation is never refused. */
  lemma CompensationIsWritten(records: seq<Record>, r: Record)
    ensures var out := Upsert(records, r.(state := Failed, key := ""));
      && out.Some? && Get(out.value, r.id) == Some(Record(r.id, r.workspace, "", Failed))
      && forall other :: other != r.id ==> Get(out.value, other) == Get(records, other)
  {
    var failed := r.(state := Failed, key := "");
    UpsertForm(records, failed);
    forall id ensures Get(Upsert(records, failed).value, id) == if id == r.id then Some(failed) else Get(records, id) {
      UpsertWrites(records, failed, id);
    }
  }

  /** A process that ends by itself leaves its session exited; one that was stopped stays cancelled. */
  lemma ExitEnds(s: State, id: string)
    requires Enabled(s, Exit(id))
    ensures var t := Step(s, Exit(id));
      && id in t.sessions && !t.sessions[id].alive
      && t.sessions[id].state == (if s.sessions[id].state == Running then Exited else s.sessions[id].state)
      && t.records == s.records && forall other :: other in s.sessions && other != id ==>
           other in t.sessions && t.sessions[other] == s.sessions[other]
  {
  }

  /** Cancelling an active session ends it as cancelled; any other stays as it was. */
  lemma CancelEnds(s: State, id: string)
    requires Enabled(s, Cancel(id))
    ensures var t := Step(s, Cancel(id));
      && t.records == s.records && id in t.sessions
      && (s.sessions[id].state == Starting || s.sessions[id].state == Running ==>
            t.sessions[id] == Session(Cancelled, false))
      && (s.sessions[id].state != Starting && s.sessions[id].state != Running ==> t == s)
  {
  }

  /** The exit of a running session, observed and written, leaves its record exited. */
  lemma ExitIsRecorded(s: State, id: string, write: Write)
    requires Inv(s) && Alive(s, id) && s.pending.None? && !write.Lost?
    requires Get(s.records, id).Some? && !Ignores(Get(s.records, id).value, Exited)
    ensures var t := Step(s, Exit(id));
      var u := Step(t, Observe(id, t.sessions[id].state));
      && u.pending.Some? && Get(Step(u, Sync(write)).records, id) == Some(Get(s.records, id).value.(state := Exited))
  {
    assert AliveInv(s, id);
    var t := Step(s, Exit(id));
    GetFinds(s.records, id);
    StepKeepsInv(s, Exit(id));
    StepKeepsInv(t, Observe(id, Exited));
    var u := Step(t, Observe(id, Exited));
    RewriteKeepsValid(u.records, u.pending.value, write);
  }

  /** After a compensation that reached the file, the key is free again for a retry. */
  lemma CompensationFreesTheKey(s: State, write: Write)
    requires Inv(s) && Enabled(s, Compensate(write)) && !write.Lost?
    ensures FindByIdempotency(Step(s, Compensate(write)).records, s.phase.r.workspace, s.phase.r.key).None?
  {
    var r := s.phase.r;
    var t := Step(s, Compensate(write));
    CompensateKeepsInv(s, write);
    RewriteKeepsValid(s.records, r.(state := Failed, key := ""), write);
    var found := FindByIdempotency(t.records, r.workspace, r.key);
    if found.Some? {
      FindIsHolder(t.records, r.workspace, r.key);
      assert found.value.id != r.id;
      SameHolder(s.records, r.id, found.value.id, r.workspace, r.key);
    }
  }

  lemma {:induction false} HolderIsFound(records: seq<Record>, id: string, workspace: string, key: string)
    requires Holds(records, id, workspace, key) && workspace != "" && key != ""
    ensures FindByIdempotency(records, workspace, key).Some?
  {
    if records[0].id != id { HolderIsFound(records[1..], id, workspace, key); }
  }

  /** A reservation that reached the file although writing it reported an error is not compensated: the
      record stays "starting" without a session, and every later request for its key finds it. */
  lemma UnreportedReservationHoldsTheKey(s: State, id: string)
    requires Inv(s) && s.phase.Checked? && Upsert(s.records, s.phase.r).Some?
    requires s.phase.r.workspace != "" && s.phase.r.key != ""
    ensures var t, r := Step(s, Reserve(SavedWithError)), s.phase.r;
      && t.phase.Idle? && Get(t.records, r.id) == Some(r) && r.id !in t.sessions
      && FindByIdempotency(t.records, r.workspace, r.key).Some?
      && (Enabled(t, Check(id, r.workspace, r.key)) ==> Step(t, Check(id, r.workspace, r.key)) == t)
  {
    var t, r := Step(s, Reserve(SavedWithError)), s.phase.r;
    UpsertWrites(s.records, r, r.id);
    HolderIsFound(t.records, r.id, r.workspace, r.key);
  }

  /** After a launch succeeded, a second request with its key finds its record and starts nothing. */
  lemma SuccessIsFoundAgain(s: State, id: string)
    requires Inv(s) && s.phase.ReadBack? && s.phase.r.key != "" && s.phase.r.workspace != ""
    requires Saves(s.records, s.phase.copy, Saved)
    ensures var t := Step(s, PublishRunning(Saved));
      && FindByIdempotency(t.records, s.phase.r.workspace, s.phase.r.key) == Some(s.phase.copy)
      && (Enabled(t, Check(id, s.phase.r.workspace, s.phase.r.key)) ==>
            Step(t, Check(id, s.phase.r.workspace, s.phase.r.key)) == t)
  {
    var r, copy := s.phase.r, s.phase.copy;
    var t := Step(s, PublishRunning(Saved));
    PublishKeepsInv(s, Saved);
    RewriteKeepsValid(s.records, copy, Saved);
    HolderIsFound(t.records, copy.id, r.workspace, r.key);
    FindIsHolder(t.records, r.workspace, r.key);
    SameHolder(t.records, copy.id, FindByIdempotency(t.records, r.workspace, r.key).value.id, r.workspace, r.key);
  }

  lemma {:induction false} FindIsMember(records: seq<Record>, workspace: string, key: string)
    requires FindByIdempotency(records, workspace, key).Some?
    ensures var found := FindByIdempotency(records, workspace, key).value;
      found.workspace == workspace && found.key == key && key != "" && found in records
  {
    if !(records[0].workspace == workspace && records[0].key == key) {
      FindIsMember(records[1..], workspace, key);
    }
  }

  lemma FindIsHolder(records: seq<Record>, workspace: string, key: string)
    requires ValidRecords(records) && FindByIdempotency(records, workspace, key).Some?
    ensures var found := FindByIdempotency(records, workspace, key).value;
      key != "" && Get(records, found.id) == Some(found) && Holds(records, found.id, workspace, key)
  {
    FindIsMember(records, workspace, key);
    var found := FindByIdempotency(records, workspace, key).value;
    GetFinds(records, found.id);
    var i :| 0 <= i < |records| && records[i] == found;
    var j :| 0 <= j < |records| && records[j] == Get(records, found.id).value;
    if i != j { DifferentPlaces(records, i, j); }
  }

  // ------------------------------------------------------------------ service

  datatype Outcome = Launched | Reused | Refused

  /** How the steps of one launch go: writing the reservation, admitting the session, starting its
      process, reading the record back, publishing "running", and compensating. */
  datatype Steps = Steps(reserve: Write, admitted: bool, started: bool, readable: bool, publish: Write, undo: Write)

  /** The reservation never reached the file, or it was reported as written and then compensated. */
  predicate KeyReleased(steps: Steps) {
    steps.reserve.Lost? || (steps.reserve.Saved? && !steps.undo.Lost?)
  }

  predicate AllGo(steps: Steps) {
    steps.reserve.Saved? && steps.admitted && steps.started && steps.readable && steps.publish.Saved?
  }

  /** The service and the manager it drives. Up to `MarkLaunchFailed` each method is one step of the
      machine; how a write or a process start ends is an argument. */
  class EmbeddedSessions {
    var records: seq<Record>
    var sessions: map<string, Session>
    var pending: Option<Record> // the observer callback's own variable
    ghost var phase: Phase
    ghost var launched: map<string, (string, string)>
    ghost var compensated: set<string>

    ghost function Abs(): State
      reads this
    {
      State(records, sessions, phase, pending, launched, compensated)
    }

    method Save(r: Record, write: Write) returns (ok: bool)
      modifies `records
      ensures records == Stored(old(records), Upsert(old(records), r), write)
      ensures ok <==> Saves(old(records), r, write)
    {
      var repository := new FileSessionRecordRepository(records);
      ok := repository.UpsertRecord(r, write);
      records := repository.records;
    }

    /** The two halves of `syncSessionRecord`, which holds the record mutex in between. */
    method ReadForSync(id: string, seen: SessionState)
      requires id in sessions && pending.None?
      modifies `pending
      ensures Abs() == Step(old(Abs()), Observe(id, seen))
      ensures pending.Some? <==> Get(records, id).Some? && !Ignores(Get(records, id).value, seen)
      ensures pending.Some? ==> pending.value == Get(records, id).value.(state := seen)
    {
      var found := Get(records, id);
      if found.None? || (found.value.state.Failed? && found.value.key == "" && !seen.Failed?) {
        return;
      }
      pending := Some(found.value.(state := seen));
    }

    method WriteSynced(write: Write)
      requires pending.Some?
      modifies `records, `pending
      ensures Abs() == Step(old(Abs()), Sync(write))
    {
      var _ := Save(pending.value, write);
      pending := None;
    }

    /** The callback when nothing else writes meanwhile: the record takes the session's state unless it
        is compensated, and keeps everything else. */
    method SyncSessionRecord(id: string, seen: SessionState, write: Write)
      requires Inv(Abs()) && id in sessions && pending.None?
      modifies `records, `pending
      ensures Inv(Abs()) && pending.None?
      ensures Get(records, id) ==
        var was := Get(old(records), id);
        if was.Some? && !Ignores(was.value, seen) && !write.Lost? then Some(was.value.(state := seen)) else was
      ensures forall other :: other != id ==> Get(records, other) == Get(old(records), other)
    {
      StepKeepsInv(Abs(), Observe(id, seen));
      GetFinds(records, id);
      ReadForSync(id, seen);
      if pending.Some? {
        StepKeepsInv(Abs(), Sync(write));
        RewriteKeepsValid(records, pending.value, write);
        WriteSynced(write);
      }
    }

    method PersistStarting(r: Record, write: Write) returns (ok: bool)
      requires phase == Checked(r)
      modifies `records, `phase
      ensures Abs() == Step(old(Abs()), Reserve(write))
      ensures ok <==> phase == Reserved(r)
    {
      ok := Save(r, write);
      phase := if ok then Reserved(r) else Idle;
    }

    method RegisterSession(r: Record, admitted: bool)
      requires phase == Reserved(r)
      modifies `sessions, `launched, `phase
      ensures Abs() == Step(old(Abs()), Register(admitted))
      ensures sessions == if admitted then old(sessions)[r.id := Session(Starting, false)] else old(sessions)
    {
      if admitted {
        sessions := sessions[r.id := Session(Starting, false)];
        launched := launched[r.id := (r.workspace, r.key)];
        phase := Registered(r);
      } else {
        phase := Failing(r, false);
      }
    }

    method SpawnProcess(r: Record, started: bool)
      requires phase == Registered(r)
      modifies `sessions, `phase
      ensures Abs() == Step(old(Abs()), Spawn(started))
      ensures sessions == old(sessions)[r.id := if started then Session(Running, true) else Session(Failed, false)]
    {
      if started {
        sessions := sessions[r.id := Session(Running, true)];
        phase := Spawned(r);
      } else {
        sessions := sessions[r.id := Session(Failed, false)];
        phase := Failing(r, false);
      }
    }

    /** The two halves of `persistRunningSession`: nothing locks the record between them. */
    method ReadReservation(r: Record, readable: bool, seen: SessionState) returns (copy: Option<Record>)
      requires phase == Spawned(r)
      modifies `phase
      ensures Abs() == Step(old(Abs()), ReadRecord(readable, seen))
      ensures if copy.Some? then phase == ReadBack(r, copy.value) else phase == Failing(r, true)
      ensures copy.Some? <==> readable && Get(records, r.id).Some?
      ensures copy.Some? ==> copy.value == Get(records, r.id).value.(state := seen)
    {
      var found := Get(records, r.id);
      if readable && found.Some? {
        copy := Some(found.value.(state := seen));
        phase := ReadBack(r, copy.value);
      } else {
        copy := None;
        phase := Failing(r, true);
      }
    }

    method WriteReservation(r: Record, copy: Record, write: Write) returns (ok: bool)
      requires phase == ReadBack(r, copy)
      modifies `records, `phase
      ensures Abs() == Step(old(Abs()), PublishRunning(write))
      ensures ok <==> phase == Idle
    {
      ok := Save(copy, write);
      phase := if ok then Idle else Failing(r, true);
    }

    method StopSession(r: Record)
      requires phase == Failing(r, true)
      modifies `sessions, `phase
      ensures Abs() == Step(old(Abs()), StopProcess)
      ensures r.id in old(sessions) && old(sessions)[r.id].state in {Starting, Running} ==>
        sessions == old(sessions)[r.id := Session(Cancelled, false)]
      ensures !(r.id in old(sessions) && old(sessions)[r.id].state in {Starting, Running}) ==> sessions == old(sessions)
    {
      if r.id in sessions && (sessions[r.id].state.Starting? || sessions[r.id].state.Running?) {
        sessions := sessions[r.id := Session(Cancelled, false)];
      }
      phase := Failing(r, false);
    }

    method MarkLaunchFailed(r: Record, write: Write)
      requires phase == Failing(r, false) && pending.None?
      modifies `records, `phase, `compensated
      ensures Abs() == Step(old(Abs()), Compensate(write))
      ensures write.Lost? ==> records == old(records)
      ensures !write.Lost? ==> Get(records, r.id) == Some(Record(r.id, r.workspace, "", Failed))
      ensures forall other :: other != r.id ==> Get(records, other) == Get(old(records), other)
    {
      CompensationIsWritten(records, r);
      var _ := Save(r.(state := Failed, key := ""), write);
      compensated := if write.Lost? then compensated else compensated + {r.id};
      phase := Idle;
    }

    /** What a launch does about a start that failed. */
    method Fail(r: Record, write: Write)
      requires phase == Failing(r, false) && pending.None? && Inv(Abs()) && r.workspace != ""
      modifies this
      ensures phase.Idle? && Inv(Abs()) && !Alive(Abs(), r.id)
      ensures !write.Lost? ==> CompensatedStays(records, r.id)
      ensures r.key != "" ==> (KeyIsFree(r) <==> !write.Lost?)
    {
      StepKeepsInv(Abs(), Compensate(write));
      if write.Lost? {
        if r.key != "" { HolderIsFound(records, r.id, r.workspace, r.key); }
      } else {
        CompensationFreesTheKey(Abs(), write);
      }
      MarkLaunchFailed(r, write);
      assert CompensatedInv(Abs(), r.id);
    }

    predicate KeyIsFree(r: Record)
      reads this
    {
      FindByIdempotency(records, r.workspace, r.key).None?
    }

    /** A whole launch, for a registered workspace, that nothing interrupts: it reuses the session that
        holds the key, or, when every step goes well, leaves a running process with its record; otherwise
        it leaves no process. The key is free again exactly if the reservation never reached the file, or
        was reported as written and then compensated; a reservation that was written but reported as an
        error is not compensated and keeps the key. */
    method StartEmbedded(id: string, workspace: string, key: string, steps: Steps) returns (outcome: Outcome)
      requires Inv(Abs()) && Enabled(Abs(), Check(id, workspace, key)) && pending.None?
      modifies this
      ensures Inv(Abs()) && phase.Idle?
      ensures outcome.Reused? <==> FindByIdempotency(old(records), workspace, key).Some?
      ensures outcome.Reused? ==> Abs() == old(Abs())
      ensures !outcome.Reused? ==> (outcome.Launched? <==> AllGo(steps))
      ensures outcome.Launched? ==> Alive(Abs(), id) && Get(records, id) == Some(Record(id, workspace, key, Running))
      ensures outcome.Refused? ==> !Alive(Abs(), id)
      ensures outcome.Refused? && steps.reserve.Saved? && !steps.undo.Lost? ==> CompensatedStays(records, id)
      ensures outcome.Refused? && steps.reserve.SavedWithError? ==>
        Get(records, id) == Some(Record(id, workspace, key, Starting)) && id !in sessions
      ensures outcome.Refused? && key != "" ==>
        (FindByIdempotency(records, workspace, key).None? <==> KeyReleased(steps))
    {
      StepKeepsInv(Abs(), Check(id, workspace, key));
      var existing := FindByIdempotency(records, workspace, key);
      if existing.Some? {
        return Reused;
      }
      var r := Record(id, workspace, key, Starting);
      FindMissesOnlyFreeKeys(records, r);
      NewRecordNeedsFreeKey(records, r);
      phase := Checked(r);
      outcome := Launch(r, steps);
    }

    method Launch(r: Record, steps: Steps) returns (outcome: Outcome)
      requires Inv(Abs()) && phase == Checked(r) && r.state.Starting? && Upsert(records, r).Some?
      requires pending.None? && r.workspace != "" && KeyIsFree(r)
      modifies this
      ensures Inv(Abs()) && phase.Idle? && !outcome.Reused? && (outcome.Launched? <==> AllGo(steps))
      ensures outcome.Launched? ==> Alive(Abs(), r.id) && Get(records, r.id) == Some(r.(state := Running))
      ensures outcome.Refused? ==> !Alive(Abs(), r.id)
      ensures outcome.Refused? && steps.reserve.Saved? && !steps.undo.Lost? ==> CompensatedStays(records, r.id)
      ensures outcome.Refused? && steps.reserve.SavedWithError? ==> Get(records, r.id) == Some(r) && r.id !in sessions
      ensures outcome.Refused? && r.key != "" ==> (KeyIsFree(r) <==> KeyReleased(steps))
    {
      StepKeepsInv(Abs(), Reserve(steps.reserve));
      if r.key != "" { UnreportedReservationHoldsTheKey(Abs(), r.id); }
      UpsertWrites(records, r, r.id);
      var reserved := PersistStarting(r, steps.reserve);
      if !reserved {
        return Refused;
      }
      outcome := StartReserved(r, steps);
    }

    /** The manager's `Start`, once the record is reserved. */
    method StartReserved(r: Record, steps: Steps) returns (outcome: Outcome)
      requires Inv(Abs()) && phase == Reserved(r) && r.state.Starting? && pending.None? && r.workspace != ""
      modifies this
      ensures Inv(Abs()) && phase.Idle? && !outcome.Reused?
      ensures outcome.Launched? <==> steps.admitted && steps.started && steps.readable && steps.publish.Saved?
      ensures outcome.Launched? ==> Alive(Abs(), r.id) && Get(records, r.id) == Some(r.(state := Running))
      ensures outcome.Refused? ==> !Alive(Abs(), r.id)
      ensures outcome.Refused? && !steps.undo.Lost? ==> CompensatedStays(records, r.id)
      ensures outcome.Refused? && r.key != "" ==> (KeyIsFree(r) <==> !steps.undo.Lost?)
    {
      StepKeepsInv(Abs(), Register(steps.admitted));
      RegisterSession(r, steps.admitted);
      if steps.admitted {
        StepKeepsInv(Abs(), Spawn(steps.started));
        SpawnProcess(r, steps.started);
        if steps.started {
          outcome := AnnounceRunning(r, steps);
          return;
        }
      }
      Fail(r, steps.undo);
      outcome := Refused;
    }

    method AnnounceRunning(r: Record, steps: Steps) returns (outcome: Outcome)
      requires Inv(Abs()) && phase == Spawned(r) && Alive(Abs(), r.id) && pending.None? && r.workspace != ""
      modifies this
      ensures Inv(Abs()) && phase.Idle? && !outcome.Reused?
      ensures outcome.Launched? <==> steps.readable && steps.publish.Saved?
      ensures outcome.Launched? ==> Alive(Abs(), r.id) && Get(records, r.id) == Some(r.(state := Running))
      ensures outcome.Refused? ==> !Alive(Abs(), r.id)
      ensures outcome.Refused? && !steps.undo.Lost? ==> CompensatedStays(records, r.id)
      ensures outcome.Refused? && r.key != "" ==> (KeyIsFree(r) <==> !steps.undo.Lost?)
    {
      StepKeepsInv(Abs(), ReadRecord(steps.readable, Running));
      GetFinds(records, r.id);
      var copy := ReadReservation(r, steps.readable, Running);
      if copy.Some? {
        StepKeepsInv(Abs(), PublishRunning(steps.publish));
        RewriteKeepsValid(records, copy.value, steps.publish);
        KeptKeyFits(records, copy.value);
        var ok := WriteReservation(r, copy.value, steps.publish);
        if ok {
          return Launched;
        }
      }
      StepKeepsInv(Abs(), StopProcess);
      StopSession(r);
      Fail(r, steps.undo);
      outcome := Refused;
    }
  }
}
