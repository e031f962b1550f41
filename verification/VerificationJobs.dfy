/** Verification jobs: a bounded number of runs at a time, and a history that is pruned. */
module VerificationJobs {
  // A run is a fixed sequence of runtime calls. Artifacts, logs and fingerprints are not modelled.

  import opened Collections
  import opened VerificationRetention

  // ------------------------------------------------------------------ runs

  /** Where a run has got to; a run that failed carries why. */
  datatype Position =
    | Spawned
    | Opening
    | Calling(call: CallName)
    | Cleaning(cause: Failure)
    | Failing(cause: Failure)
    | Finishing(result: Status)
    | Pruning
    | Releasing
    | Over

  datatype Run = Run(at: Position, calls: seq<Call>)

  /** `tokens` is what the slot channel holds; `starting` are the starts that took a slot and have
      not recorded their job yet. */
  datatype State = State(
    jobs: map<Id, Job>, tokens: nat, capacity: nat, last: nat, starting: set<Id>, runs: map<Id, Run>)

  datatype Event =
    | TakeSlot
    | Record(id: Id, workspace: string)
    | Begin(id: Id, now: nat)
    | Open(id: Id, ok: bool)
    | Make(id: Id, ok: bool)
    | CleanUp(id: Id, ok: bool)
    | Fail(id: Id)
    | Finish(id: Id, now: nat)
    | Prune(id: Id, kept: set<Id>, latest: set<Id>, policy: Policy, now: nat)
    | Release(id: Id)

  function Initial(capacity: nat): State {
    State(map[], 0, capacity, 0, {}, map[])
  }

  predicate At(s: State, id: Id, at: Position) {
    id in s.runs && s.runs[id].at == at
  }

  function Move(s: State, id: Id, at: Position): State
    requires id in s.runs
  {
    s.(runs := s.runs[id := s.runs[id].(at := at)])
  }

  /** A change to a job that has been pruned is lost. */
  function Mutate(s: State, id: Id, change: Job -> Job): State {
    if id in s.jobs then s.(jobs := s.jobs[id := change(s.jobs[id])]) else s
  }

  function FailureAfter(call: CallName): Failure {
    match call
    case Prepare => Infra
    case Up => Boot
    case Health => Boot
    case Verify => Test
    case Down => NoFailure
  }

  function ExitCode(cause: Failure): int {
    match cause
    case Infra => 30
    case Boot => 10
    case Test => 20
    case NoFailure => 0
  }

  /** Where a run goes once a runtime call has returned. */
  function After(call: CallName, ok: bool): Position {
    if call == Down then Finishing(Passed)
    else if ok then Calling(match call case Prepare => Up case Up => Health case Health => Verify case _ => Down)
    else if call == Prepare then Failing(Infra)
    else Cleaning(FailureAfter(call))
  }

  function Logged(s: State, id: Id, call: Call): State
    requires id in s.runs
  {
    s.(runs := s.runs[id := s.runs[id].(calls := s.runs[id].calls + [call])])
  }

  ghost predicate Enabled(s: State, e: Event) {
    match e
    case TakeSlot => s.tokens < s.capacity
    case Record(id, _) => id in s.starting
    case Begin(id, now) => At(s, id, Spawned) && now > 0
    case Open(id, _) => At(s, id, Opening)
    case Make(id, _) => id in s.runs && s.runs[id].at.Calling?
    case CleanUp(id, _) => id in s.runs && s.runs[id].at.Cleaning?
    case Fail(id) => id in s.runs && s.runs[id].at.Failing?
    case Finish(id, now) => id in s.runs && s.runs[id].at.Finishing? && now > 0
    case Prune(id, kept, latest, policy, now) => At(s, id, Pruning) && Pruned(s.jobs, kept, latest, policy, now)
    case Release(id) => At(s, id, Releasing) && s.tokens > 0
  }

  function NewJob(workspace: string): Job {
    Job(workspace, Queued, NoFailure, 0, [], 0, 0)
  }

  function Step(s: State, e: Event): State
    requires Enabled(s, e)
  {
    match e
    case TakeSlot => s.(tokens := s.tokens + 1, last := s.last + 1, starting := s.starting + {s.last + 1})
    case Record(id, workspace) =>
      s.(starting := s.starting - {id}, jobs := s.jobs[id := NewJob(workspace)], runs := s.runs[id := Run(Spawned, [])])
    case Begin(id, now) =>
      if id in s.jobs then Move(Mutate(s, id, (j: Job) => j.(status := Running, started := now)), id, Opening)
      else Move(s, id, Releasing)
    case Open(id, ok) => Move(s, id, if ok then Calling(Prepare) else Failing(Infra))
    case Make(id, ok) =>
      var call := s.runs[id].at.call;
      var made := Mutate(Logged(s, id, Call(call, ok)), id, (j: Job) => j.(steps := j.steps + [Ran(call, ok)]));
      Move(if call == Down then Mutate(made, id, (j: Job) => j.(exit := 0)) else made, id, After(call, ok))
    case CleanUp(id, ok) => Move(Logged(s, id, Call(Down, ok)), id, Failing(s.runs[id].at.cause))
    case Fail(id) =>
      var cause := s.runs[id].at.cause;
      Move(Mutate(s, id, (j: Job) => j.(failure := cause, exit := ExitCode(cause), steps := j.steps + [FailureNoted])),
           id, Finishing(Failed))
    case Finish(id, now) =>
      var result := s.runs[id].at.result;
      Move(Mutate(s, id, (j: Job) => j.(status := result, finished := now)), id, Pruning)
    case Prune(id, kept, _, _, _) => Move(s.(jobs := Restrict(s.jobs, kept)), id, Releasing)
    case Release(id) => Move(s.(tokens := s.tokens - 1), id, Over)
  }

  ghost predicate IsRun(s: State, events: seq<Event>)
    decreases |events|
  {
    events == [] || (Enabled(s, events[0]) && IsRun(Step(s, events[0]), events[1..]))
  }

  function Reach(s: State, events: seq<Event>): State
    requires IsRun(s, events)
    decreases |events|
  {
    if events == [] then s else Reach(Step(s, events[0]), events[1..])
  }

  // ------------------------------------------------------------------ what every run keeps

  function Nth(n: nat): CallName {
    if n == 0 then Prepare else if n == 1 then Up else if n == 2 then Health else Verify
  }

  function Number(call: CallName): (n: nat)
    ensures n <= 4 && (n < 4 ==> Nth(n) == call)
  {
    match call case Prepare => 0 case Up => 1 case Health => 2 case Verify => 3 case Down => 4
  }

  const SUCCESSES := [Call(Prepare, true), Call(Up, true), Call(Health, true), Call(Verify, true)]

  /** The first calls of a run, all successful. */
  function Passing(n: nat): (calls: seq<Call>)
    requires n <= 4
  {
    SUCCESSES[..n]
  }

  lemma PassingMore(n: nat)
    requires n < 4
    ensures Passing(n + 1) == Passing(n) + [Call(Nth(n), true)]
  {
  }

  predicate PassedCalls(calls: seq<Call>) {
    |calls| == 5 && calls[..4] == Passing(4) && calls[4].name == Down
  }

  /** The call after `n` successful ones failed. */
  predicate FailedAt(calls: seq<Call>, n: nat, cause: Failure) {
    n <= 3 && |calls| == n + 1 && calls[..n] == Passing(n) && calls[n] == Call(Nth(n), false)
      && cause == FailureAfter(Nth(n))
  }

  predicate CleanedUp(calls: seq<Call>, n: nat, cause: Failure) {
    1 <= n && |calls| == n + 2 && FailedAt(calls[..n + 1], n, cause) && calls[n + 1].name == Down
  }

  /** What a failed run has called: nothing, only a failing preparation, or a start and one `Down`. */
  predicate FailedCalls(calls: seq<Call>, cause: Failure) {
    || (cause == Infra && calls == [])
    || FailedAt(calls, 0, cause)
    || CleanedUp(calls, 1, cause) || CleanedUp(calls, 2, cause) || CleanedUp(calls, 3, cause)
  }

  predicate Shape(r: Run) {
    match r.at
    case Spawned => r.calls == []
    case Opening => r.calls == []
    case Calling(call) =>
      r.calls == Passing(Number(call))
    case Cleaning(cause) => FailedAt(r.calls, 1, cause) || FailedAt(r.calls, 2, cause) || FailedAt(r.calls, 3, cause)
    case Failing(cause) => FailedCalls(r.calls, cause)
    case Finishing(result) =>
      (result == Passed && PassedCalls(r.calls)) || (result == Failed && exists cause :: FailedCalls(r.calls, cause))
    case _ => r.calls == [] || PassedCalls(r.calls) || exists cause :: FailedCalls(r.calls, cause)
  }

  predicate Settled(j: Job, r: Run) {
    && Terminal(j) && j.finished > 0
    && (j.status == Passed ==> PassedCalls(r.calls) && j.failure == NoFailure && j.exit == 0)
    && (j.status == Failed ==> FailedCalls(r.calls, j.failure) && j.exit == ExitCode(j.failure))
  }

  predicate InProgress(at: Position) {
    !at.Pruning? && !at.Releasing? && !at.Over?
  }

  predicate JobMatches(j: Job, r: Run) {
    match r.at
    case Spawned => j.status == Queued && j.failure == NoFailure && j.exit == 0
    case Finishing(result) =>
      && j.status == Running
      && (if result == Passed then j.failure == NoFailure && j.exit == 0
          else FailedCalls(r.calls, j.failure) && j.exit == ExitCode(j.failure))
    case Pruning => Settled(j, r)
    case Releasing => Settled(j, r)
    case Over => Settled(j, r)
    case _ => j.status == Running && j.failure == NoFailure && j.exit == 0
  }

  /** The starts and the runs that hold a slot. */
  function Holders(s: State): set<Id> {
    s.starting + set id | id in s.runs && s.runs[id].at != Over
  }

  function Active(jobs: map<Id, Job>): set<Id> {
    set id | id in jobs && !Terminal(jobs[id])
  }

  ghost predicate RunInv(s: State, id: Id)
    requires id in s.runs
  {
    && Shape(s.runs[id])
    && (InProgress(s.runs[id].at) ==> id in s.jobs)
    && (id in s.jobs ==> JobMatches(s.jobs[id], s.runs[id]))
  }

  ghost predicate IdsInv(s: State) {
    && (forall id :: id in s.starting ==> id <= s.last && id !in s.runs)
    && (forall id :: id in s.runs ==> id <= s.last)
    && (forall id :: id in s.jobs ==> id in s.runs)
  }

  ghost predicate RunsInv(s: State) {
    forall id {:trigger RunInv(s, id)} :: id in s.runs ==> RunInv(s, id)
  }

  ghost predicate Inv(s: State) {
    IdsInv(s) && RunsInv(s) && TokensInv(s)
  }

  // Each run's own step keeps its own part of the invariant.

  lemma MakeKeepsRun(s: State, id: Id, ok: bool)
    requires Enabled(s, Make(id, ok)) && RunInv(s, id)
    ensures RunInv(Step(s, Make(id, ok)), id)
  {
    var r := s.runs[id];
    ShapeAfterCall(r, ok);
    assert Step(s, Make(id, ok)).runs[id] == Run(After(r.at.call, ok), r.calls + [Call(r.at.call, ok)]);
  }

  lemma ShapeAfterCall(r: Run, ok: bool)
    requires r.at.Calling? && Shape(r)
    ensures Shape(Run(After(r.at.call, ok), r.calls + [Call(r.at.call, ok)]))
  {
    var call := r.at.call;
    var calls, n := r.calls + [Call(call, ok)], Number(call);
    assert calls[..n] == r.calls && calls[n] == Call(call, ok);
    if call == Down {
      assert PassedCalls(calls);
    } else if ok {
      PassingMore(n);
    } else {
      assert FailedAt(calls, n, FailureAfter(call));
    }
  }

  lemma CleanUpKeepsRun(s: State, id: Id, ok: bool)
    requires Enabled(s, CleanUp(id, ok)) && RunInv(s, id)
    ensures RunInv(Step(s, CleanUp(id, ok)), id)
  {
    var r, t := s.runs[id], Step(s, CleanUp(id, ok));
    var calls, cause := t.runs[id].calls, r.at.cause;
    assert calls == r.calls + [Call(Down, ok)];
    assert calls[..|r.calls|] == r.calls;
    var n := |r.calls| - 1;
    assert CleanedUp(calls, n, cause);
  }

  predicate ActsOn(e: Event, id: Id) {
    match e
    case TakeSlot => false
    case Record(i, _) => i == id
    case Begin(i, _) => i == id
    case Open(i, _) => i == id
    case Make(i, _) => i == id
    case CleanUp(i, _) => i == id
    case Fail(i) => i == id
    case Finish(i, _) => i == id
    case Prune(i, _, _, _, _) => i == id
    case Release(i) => i == id
  }

  lemma OwnStepKeepsRun(s: State, e: Event, id: Id)
    requires Enabled(s, e) && ActsOn(e, id) && (id in s.runs ==> RunInv(s, id))
    ensures id in Step(s, e).runs && RunInv(Step(s, e), id)
  {
    match e
    case Make(_, ok) => MakeKeepsRun(s, id, ok);
    case CleanUp(_, ok) => CleanUpKeepsRun(s, id, ok);
    case _ =>
  }

  lemma OtherStepKeepsRun(s: State, e: Event, id: Id)
    requires Enabled(s, e) && !ActsOn(e, id) && id in s.runs && RunInv(s, id)
    ensures id in Step(s, e).runs && RunInv(Step(s, e), id)
  {
    var t := Step(s, e);
    assert t.runs[id] == s.runs[id];
    if e.Prune? {
      assert id in s.jobs && !Terminal(s.jobs[id]) ==> id in e.kept;
    }
  }

  lemma StepKeepsRuns(s: State, e: Event)
    requires Enabled(s, e) && RunsInv(s)
    ensures RunsInv(Step(s, e))
  {
    var t := Step(s, e);
    forall id | id in t.runs ensures RunInv(t, id) {
      assert id in s.runs ==> RunInv(s, id);
      if ActsOn(e, id) { OwnStepKeepsRun(s, e, id); } else { OtherStepKeepsRun(s, e, id); }
    }
  }

  lemma StepKeepsIds(s: State, e: Event)
    requires Enabled(s, e) && IdsInv(s)
    ensures IdsInv(Step(s, e))
  {
  }

  /** A slot is taken by a start, handed to its run, and given back when the run is over. */
  lemma SlotTaken(s: State)
    requires Enabled(s, TakeSlot) && IdsInv(s)
    ensures |Holders(Step(s, TakeSlot))| == |Holders(s)| + 1
  {
    assert s.last + 1 !in Holders(s);
    assert Holders(Step(s, TakeSlot)) == Holders(s) + {s.last + 1};
  }

  lemma SlotReleased(s: State, id: Id)
    requires Enabled(s, Release(id)) && IdsInv(s)
    ensures |Holders(Step(s, Release(id)))| == |Holders(s)| - 1
  {
    assert id in Holders(s);
    assert Holders(Step(s, Release(id))) == Holders(s) - {id};
  }

  lemma SlotsKept(s: State, e: Event)
    requires Enabled(s, e) && IdsInv(s) && !e.TakeSlot? && !e.Release?
    ensures Holders(Step(s, e)) == Holders(s) && Step(s, e).tokens == s.tokens && Step(s, e).capacity == s.capacity
  {
    match e
    case Record(id, workspace) => RecordedHolds(s, id, workspace);
    case Begin(id, _) => MovedHolds(s, Step(s, e), id);
    case Open(id, _) => MovedHolds(s, Step(s, e), id);
    case Make(id, ok) => MadeHolds(s, id, ok);
    case CleanUp(id, _) => MovedHolds(s, Step(s, e), id);
    case Fail(id) => MovedHolds(s, Step(s, e), id);
    case Finish(id, _) => MovedHolds(s, Step(s, e), id);
    case Prune(id, _, _, _, _) => MovedHolds(s, Step(s, e), id);
  }

  lemma MadeHolds(s: State, id: Id, ok: bool)
    requires Enabled(s, Make(id, ok))
    ensures var t := Step(s, Make(id, ok)); Holders(t) == Holders(s) && t.tokens == s.tokens && t.capacity == s.capacity
  {
    MovedHolds(s, Step(s, Make(id, ok)), id);
  }

  lemma RecordedHolds(s: State, id: Id, workspace: string)
    requires Enabled(s, Record(id, workspace)) && IdsInv(s)
    ensures Holders(Step(s, Record(id, workspace))) == Holders(s)
  {
    var t := Step(s, Record(id, workspace));
    assert t.runs[id].at == Spawned;
    forall x ensures x in Holders(t) <==> x in Holders(s) {
      if x != id { assert x in t.runs <==> x in s.runs; }
    }
  }

  lemma MovedHolds(s: State, t: State, id: Id)
    requires id in s.runs && s.runs[id].at != Over && t.starting == s.starting
    requires t.runs.Keys == s.runs.Keys && t.runs[id].at != Over
    requires forall x :: x in s.runs && x != id ==> t.runs[x] == s.runs[x]
    ensures Holders(t) == Holders(s)
  {
  }

  ghost predicate TokensInv(s: State) {
    s.tokens == |Holders(s)| <= s.capacity
  }

  lemma TokensStep(s: State, e: Event)
    requires Enabled(s, e) && IdsInv(s) && TokensInv(s)
    ensures TokensInv(Step(s, e)) && Step(s, e).capacity == s.capacity
  {
    match e
    case TakeSlot => SlotTaken(s);
    case Release(id) => SlotReleased(s, id);
    case _ => SlotsKept(s, e);
  }

  lemma StepKeepsInv(s: State, e: Event)
    requires Enabled(s, e) && Inv(s)
    ensures Inv(Step(s, e)) && Step(s, e).capacity == s.capacity
  {
    StepKeepsIds(s, e);
    StepKeepsRuns(s, e);
    TokensStep(s, e);
  }

  lemma {:induction false} RunKeepsInv(s: State, events: seq<Event>)
    requires Inv(s) && IsRun(s, events)
    ensures Inv(Reach(s, events)) && Reach(s, events).capacity == s.capacity
    decreases |events|
  {
    if events != [] {
      StepKeepsInv(s, events[0]);
      RunKeepsInv(Step(s, events[0]), events[1..]);
    }
  }

  // ------------------------------------------------------------------ results

  function Count(calls: seq<Call>, name: CallName): nat {
    if calls == [] then 0
    else Count(calls[..|calls| - 1], name) + if calls[|calls| - 1].name == name then 1 else 0
  }

  predicate Succeeded(calls: seq<Call>, name: CallName) {
    Call(name, true) in calls
  }

  lemma CountOf(calls: seq<Call>, call: Call, name: CallName)
    ensures Count(calls + [call], name) == Count(calls, name) + if call.name == name then 1 else 0
  {
    assert (calls + [call])[..|calls|] == calls;
  }

  /** The first calls of a run contain those that come before. */
  lemma PassingHas(n: nat, name: CallName)
    requires n <= 4 && name != Down
    ensures Succeeded(Passing(n), name) <==> Number(name) < n
  {
    if Number(name) < n { assert Passing(n)[Number(name)] == Call(name, true); }
  }

  lemma {:induction false} PassingCounts(n: nat)
    requires n <= 4
    ensures Count(Passing(n), Down) == 0 && Count(Passing(n), Up) == if n >= 2 then 1 else 0
  {
    if n > 0 {
      PassingCounts(n - 1);
      PassingMore(n - 1);
      CountOf(Passing(n - 1), Call(Nth(n - 1), true), Up);
      CountOf(Passing(n - 1), Call(Nth(n - 1), true), Down);
    }
  }

  predicate AllSucceeded(calls: seq<Call>) {
    Succeeded(calls, Prepare) && Succeeded(calls, Up) && Succeeded(calls, Health) && Succeeded(calls, Verify)
  }

  /** `Down` is called once if `Up` was, after it and last of all, and otherwise not at all. */
  predicate DownOnce(calls: seq<Call>) {
    && Count(calls, Up) <= 1 && Count(calls, Down) == Count(calls, Up)
    && (Count(calls, Down) == 1 ==> calls[|calls| - 1].name == Down)
  }

  lemma PassedFacts(calls: seq<Call>)
    requires PassedCalls(calls)
    ensures DownOnce(calls) && AllSucceeded(calls)
  {
    PassingCounts(4);
    forall name | name != Down ensures Succeeded(calls, name) {
      PassingHas(4, name);
      assert calls[Number(name)] == Call(name, true);
    }
    assert calls == Passing(4) + [calls[4]];
    CountOf(Passing(4), calls[4], Up);
    CountOf(Passing(4), calls[4], Down);
  }

  lemma FailedLacks(n: nat, calls: seq<Call>)
    requires n <= 3 && calls == Passing(n) + [Call(Nth(n), false)]
    ensures !Succeeded(calls, Nth(n)) && !AllSucceeded(calls)
  {
    PassingHas(n, Nth(n));
  }

  lemma FailedCounts(n: nat, calls: seq<Call>)
    requires n <= 3 && calls == Passing(n) + [Call(Nth(n), false)]
    ensures Count(calls, Down) == 0 && Count(calls, Up) == if n >= 1 then 1 else 0
  {
    PassingCounts(n);
    CountOf(Passing(n), Call(Nth(n), false), Up);
    CountOf(Passing(n), Call(Nth(n), false), Down);
  }

  lemma FailedAtFacts(calls: seq<Call>, n: nat, cause: Failure)
    requires FailedAt(calls, n, cause)
    ensures Count(calls, Down) == 0 && Count(calls, Up) == if n >= 1 then 1 else 0
    ensures !AllSucceeded(calls) && cause != NoFailure && !Succeeded(calls, Nth(n))
  {
    assert calls == Passing(n) + [Call(Nth(n), false)];
    FailedCounts(n, calls);
    FailedLacks(n, calls);
  }

  lemma CleanedUpFacts(calls: seq<Call>, n: nat, cause: Failure)
    requires CleanedUp(calls, n, cause)
    ensures DownOnce(calls) && !AllSucceeded(calls) && cause != NoFailure
  {
    var before := calls[..n + 1];
    FailedAtFacts(before, n, cause);
    assert calls == before + [calls[n + 1]];
    CountOf(before, calls[n + 1], Up);
    CountOf(before, calls[n + 1], Down);
    assert Nth(n) != Down && !Succeeded(calls, Nth(n));
  }

  lemma FailedFacts(calls: seq<Call>, cause: Failure)
    requires FailedCalls(calls, cause)
    ensures DownOnce(calls) && !AllSucceeded(calls) && cause != NoFailure
  {
    if calls == [] {
    } else if FailedAt(calls, 0, cause) {
      FailedAtFacts(calls, 0, cause);
    } else {
      var n := |calls| - 2;
      CleanedUpFacts(calls, n, cause);
    }
  }

  /** Nobody who is not running has called the runtime without cleaning up after it. */
  lemma EndedRunIsClean(s: State, id: Id)
    requires Inv(s) && id in s.runs && !InProgress(s.runs[id].at)
    ensures DownOnce(s.runs[id].calls)
  {
    assert RunInv(s, id);
    var calls := s.runs[id].calls;
    if PassedCalls(calls) {
      PassedFacts(calls);
    } else if calls != [] {
      var cause :| FailedCalls(calls, cause);
      FailedFacts(calls, cause);
    }
  }

  /** What a finished job must say about the calls of its run: it passed if and only if all four
      succeeded, and otherwise names the kind of call that failed. */
  predicate Verdict(j: Job, calls: seq<Call>) {
    && (j.status == Passed <==> AllSucceeded(calls))
    && (j.status == Passed ==> j.failure == NoFailure && j.exit == 0)
    && (j.status == Failed ==> FailureFits(calls, j.failure, j.exit))
  }

  predicate FailureFits(calls: seq<Call>, failure: Failure, exit: int) {
    if Call(Verify, false) in calls then failure == Test && exit == 20
    else if Call(Up, false) in calls || Call(Health, false) in calls then failure == Boot && exit == 10
    else failure == Infra && exit == 30 && (calls == [] || calls == [Call(Prepare, false)])
  }

  lemma OnlyFailure(calls: seq<Call>, n: nat, cause: Failure, name: CallName)
    requires FailedAt(calls, n, cause)
    ensures Call(name, false) in calls <==> name == Nth(n)
  {
    assert calls == Passing(n) + [Call(Nth(n), false)];
    assert calls[n] == Call(Nth(n), false);
  }

  lemma OnlyFailureCleanedUp(calls: seq<Call>, n: nat, cause: Failure, name: CallName)
    requires CleanedUp(calls, n, cause) && name != Down
    ensures Call(name, false) in calls <==> name == Nth(n)
  {
    OnlyFailure(calls[..n + 1], n, cause, name);
    assert calls == calls[..n + 1] + [calls[n + 1]];
  }

  lemma FailureTold(calls: seq<Call>, cause: Failure)
    requires FailedCalls(calls, cause)
    ensures FailureFits(calls, cause, ExitCode(cause))
  {
    if FailedAt(calls, 0, cause) {
      forall name ensures Call(name, false) in calls <==> name == Prepare { OnlyFailure(calls, 0, cause, name); }
    } else if calls != [] {
      var n := |calls| - 2;
      forall name | name != Down ensures Call(name, false) in calls <==> name == Nth(n) {
        OnlyFailureCleanedUp(calls, n, cause, name);
      }
    }
  }

  /** A finished job says what became of its run. */
  lemma FinishedJobTellsTheTruth(s: State, id: Id)
    requires Inv(s) && id in s.jobs && Terminal(s.jobs[id])
    ensures id in s.runs && s.jobs[id].finished > 0 && Verdict(s.jobs[id], s.runs[id].calls)
  {
    assert RunInv(s, id);
    var calls := s.runs[id].calls;
    if s.jobs[id].status == Passed {
      PassedFacts(calls);
    } else {
      FailedFacts(calls, s.jobs[id].failure);
      FailureTold(calls, s.jobs[id].failure);
    }
  }

  lemma SlotsBoundJobs(s: State)
    requires Inv(s)
    ensures |Active(s.jobs)| <= s.tokens <= s.capacity
  {
    forall id | id in Active(s.jobs) ensures id in Holders(s) { assert RunInv(s, id); }
    SubsetSize(Active(s.jobs), Holders(s));
  }

  /** In every interleaving of starts, runs and pruning, whatever the outcome of each call. */
  lemma EveryRunIsSafe(capacity: nat, events: seq<Event>)
    requires IsRun(Initial(capacity), events)
    ensures var s := Reach(Initial(capacity), events);
      && |Active(s.jobs)| <= s.tokens <= capacity
      && (forall id :: id in s.runs && !InProgress(s.runs[id].at) ==> DownOnce(s.runs[id].calls))
      && (forall id :: id in s.jobs && Terminal(s.jobs[id]) ==>
            id in s.runs && s.jobs[id].finished > 0 && Verdict(s.jobs[id], s.runs[id].calls))
  {
    var s := Reach(Initial(capacity), events);
    RunKeepsInv(Initial(capacity), events);
    SlotsBoundJobs(s);
    forall id | id in s.runs && !InProgress(s.runs[id].at)
      ensures DownOnce(s.runs[id].calls)
    {
      EndedRunIsClean(s, id);
    }
    forall id | id in s.jobs && Terminal(s.jobs[id])
      ensures id in s.runs && s.jobs[id].finished > 0 && Verdict(s.jobs[id], s.runs[id].calls)
    {
      FinishedJobTellsTheTruth(s, id);
    }
  }

  /** Pruning in a run: finished jobs have a finish time, so the bound and the order hold outright. */
  lemma PruningInARun(s: State, e: Event, k: Id, gone: Id)
    requires Inv(s) && e.Prune? && Enabled(s, e)
    requires k in Step(s, e).jobs && Terminal(s.jobs[k]) && gone in s.jobs && gone !in Step(s, e).jobs
    ensures Terminal(s.jobs[gone])
    ensures s.jobs[k].finished < s.jobs[gone].finished ==> k in e.latest && Newest(s.jobs, k)
    ensures |Terminals(Step(s, e).jobs)| <= Max(e.policy.maxTerminal, |Workspaces(s.jobs)|)
  {
    assert RunInv(s, k);
    PruningBounds(s.jobs, e.kept, e.latest, e.policy, e.now);
    if s.jobs[k].finished < s.jobs[gone].finished {
      OldestGoFirst(s.jobs, e.kept, e.latest, e.policy, e.now, k, gone);
    }
  }

  /** Giving a slot back never blocks. */
  lemma ReleaseNeverWaits(s: State, id: Id)
    requires Inv(s) && At(s, id, Releasing)
    ensures Enabled(s, Release(id))
  {
    assert id in Holders(s);
  }

  /** How much of a run is left. */
  function Rank(at: Position): nat {
    match at
    case Spawned => 12
    case Opening => 11
    case Calling(call) => (match call case Prepare => 10 case Up => 9 case Health => 8 case Verify => 7 case Down => 6)
    case Cleaning(_) => 5
    case Failing(_) => 4
    case Finishing(_) => 3
    case Pruning => 2
    case Releasing => 1
    case Over => 0
  }

  // ------------------------------------------------------------------ the service

  lemma RankDrops(s: State, e: Event, id: Id)
    requires Enabled(s, e) && ActsOn(e, id) && !e.Record?
    ensures id in s.runs && id in Step(s, e).runs && Rank(Step(s, e).runs[id].at) < Rank(s.runs[id].at)
  {
  }

  /** The run `id` is now `r`; no slot and no other run is touched. */
  predicate IsMoved(s: State, t: State, id: Id, r: Run) {
    && t.runs == s.runs[id := r]
    && t.tokens == s.tokens && t.starting == s.starting && t.last == s.last && t.capacity == s.capacity
  }

  /** The order of the calls, and what a failed one leads to. */
  predicate Follows(call: CallName, ok: bool, next: Position) {
    match call
    case Prepare => next == if ok then Calling(Up) else Failing(Infra)
    case Up => next == if ok then Calling(Health) else Cleaning(Boot)
    case Health => next == if ok then Calling(Verify) else Cleaning(Boot)
    case Verify => next == if ok then Calling(Down) else Cleaning(Test)
    case Down => next == Finishing(Passed)
  }

  predicate IsExit(cause: Failure, exit: int) {
    match cause
    case Infra => exit == 30
    case Boot => exit == 10
    case Test => exit == 20
    case NoFailure => exit == 0
  }

  /** One method for each part of the code between two points where other runs may act. */
  class Service {
    var jobs: map<Id, Job>
    var tokens: nat
    var last: nat
    // The starts under way, and where every run is.
    var starting: set<Id>
    var runs: map<Id, Run>
    const capacity: nat
    const policy: Policy

    function Abs(): State
      reads this
    {
      State(jobs, tokens, capacity, last, starting, runs)
    }

    ghost predicate Valid()
      reads this
    {
      Inv(Abs())
    }

    constructor (maxRunning: int, policy: Policy)
      ensures Valid() && Abs() == Initial(if maxRunning <= 0 then 1 else maxRunning)
      ensures this.policy == policy
    {
      jobs, tokens, last, starting, runs := map[], 0, 0, {}, map[];
      capacity := if maxRunning <= 0 then 1 else maxRunning;
      this.policy := policy;
    }

    /** The sending of a token, refused when the channel is full. */
    method TakeSlotFor() returns (ok: bool, id: Id)
      modifies this
      ensures ok == Enabled(old(Abs()), TakeSlot)
      ensures ok <==> old(tokens) < capacity
      ensures if ok then Abs() == Step(old(Abs()), TakeSlot) && id == last else Abs() == old(Abs())
      ensures ok ==> id == old(last) + 1 && tokens == old(tokens) + 1 && starting == old(starting) + {id}
    {
      if tokens >= capacity { return false, 0; }
      last := last + 1;
      ok, id := true, last;
      starting := starting + {id};
      tokens := tokens + 1;
    }

    method RecordJob(id: Id, workspace: string)
      requires Enabled(Abs(), Record(id, workspace))
      modifies this
      ensures Abs() == Step(old(Abs()), Record(id, workspace))
      ensures jobs == old(jobs)[id := Job(workspace, Queued, NoFailure, 0, [], 0, 0)]
      ensures runs == old(runs)[id := Run(Spawned, [])]
      ensures starting == old(starting) - {id} && tokens == old(tokens)
    {
      starting := starting - {id};
      jobs := jobs[id := NewJob(workspace)];
      runs := runs[id := Run(Spawned, [])];
    }

    method Goto(id: Id, at: Position)
      requires id in runs
      modifies this`runs
      ensures runs == old(runs)[id := old(runs)[id].(at := at)]
    {
      runs := runs[id := runs[id].(at := at)];
    }

    method BeginRun(id: Id, now: nat)
      requires Enabled(Abs(), Begin(id, now))
      modifies this
      ensures Abs() == Step(old(Abs()), Begin(id, now))
      ensures IsMoved(old(Abs()), Abs(), id, Run(if id in old(jobs) then Opening else Releasing, old(runs[id].calls)))
      ensures id in old(jobs) ==>
        jobs == old(jobs)[id := old(jobs)[id].(status := Running, started := now)]
      ensures id !in old(jobs) ==> jobs == old(jobs)
    {
      if id !in jobs {
        Goto(id, Releasing);
      } else {
        jobs := jobs[id := jobs[id].(status := Running, started := now)];
        Goto(id, Opening);
      }
    }

    method OpenLogs(id: Id, ok: bool)
      requires Enabled(Abs(), Open(id, ok))
      modifies this
      ensures Abs() == Step(old(Abs()), Open(id, ok))
      ensures IsMoved(old(Abs()), Abs(), id, Run(if ok then Calling(Prepare) else Failing(Infra), old(runs[id].calls)))
      ensures jobs == old(jobs)
    {
      Goto(id, if ok then Calling(Prepare) else Failing(Infra));
    }

    /** The call itself and the note of its result in the job. */
    method NoteCall(id: Id, ok: bool)
      requires Enabled(Abs(), Make(id, ok))
      modifies this`runs, this`jobs
      ensures var call, run := old(runs[id].at.call), old(runs[id]);
        runs == old(runs)[id := Run(run.at, run.calls + [Call(call, ok)])]
      ensures id !in old(jobs) ==> jobs == old(jobs)
      ensures id in old(jobs) ==> var call, job := old(runs[id].at.call), old(jobs[id]);
        jobs == old(jobs)[id := job.(steps := job.steps + [Ran(call, ok)])]
    {
      var call := runs[id].at.call;
      runs := runs[id := runs[id].(calls := runs[id].calls + [Call(call, ok)])];
      if id in jobs { jobs := jobs[id := jobs[id].(steps := jobs[id].steps + [Ran(call, ok)])]; }
    }

    /** `runStep` and the branch that follows it. */
    method RunStep(id: Id, ok: bool)
      requires Enabled(Abs(), Make(id, ok))
      modifies this
      ensures Abs() == Step(old(Abs()), Make(id, ok))
      ensures id in runs && Follows(old(runs[id].at.call), ok, runs[id].at)
      ensures IsMoved(old(Abs()), Abs(), id, Run(runs[id].at, old(runs[id].calls) + [Call(old(runs[id].at.call), ok)]))
      ensures id !in old(jobs) ==> jobs == old(jobs)
      ensures id in old(jobs) ==> var call, job := old(runs[id].at.call), old(jobs[id]);
        jobs == old(jobs)[id := job.(steps := job.steps + [Ran(call, ok)],
                                     exit := if call == Down then 0 else job.exit)]
    {
      var call := runs[id].at.call;
      NoteCall(id, ok);
      if call == Down {
        if id in jobs { jobs := jobs[id := jobs[id].(exit := 0)]; }
        Goto(id, Finishing(Passed));
      } else if ok {
        var next :=
          if call == Prepare then Up else if call == Up then Health else if call == Health then Verify else Down;
        Goto(id, Calling(next));
      } else if call == Prepare {
        Goto(id, Failing(Infra));
      } else {
        Goto(id, Cleaning(if call == Verify then Test else Boot));
      }
    }

    method CallDown(id: Id, ok: bool)
      requires Enabled(Abs(), CleanUp(id, ok))
      modifies this
      ensures Abs() == Step(old(Abs()), CleanUp(id, ok))
      ensures IsMoved(old(Abs()), Abs(), id,
        Run(Failing(old(runs[id].at.cause)), old(runs[id].calls) + [Call(Down, ok)]))
      ensures jobs == old(jobs)
    {
      runs := runs[id := Run(Failing(runs[id].at.cause), runs[id].calls + [Call(Down, ok)])];
    }

    method FailJob(id: Id)
      requires Enabled(Abs(), Fail(id))
      modifies this
      ensures Abs() == Step(old(Abs()), Fail(id))
      ensures IsMoved(old(Abs()), Abs(), id, Run(Finishing(Failed), old(runs[id].calls)))
      ensures id !in old(jobs) ==> jobs == old(jobs)
      ensures id in old(jobs) ==> var cause, job := old(runs[id].at.cause), old(jobs[id]);
        && id in jobs && IsExit(cause, jobs[id].exit)
        && jobs == old(jobs)[id := job.(failure := cause, exit := jobs[id].exit, steps := job.steps + [FailureNoted])]
    {
      var cause := runs[id].at.cause;
      if id in jobs {
        jobs := jobs[id := jobs[id].(failure := cause, exit := ExitCode(cause),
          steps := jobs[id].steps + [FailureNoted])];
      }
      Goto(id, Finishing(Failed));
    }

    method FinishJob(id: Id, now: nat)
      requires Enabled(Abs(), Finish(id, now))
      modifies this
      ensures Abs() == Step(old(Abs()), Finish(id, now))
      ensures IsMoved(old(Abs()), Abs(), id, Run(Pruning, old(runs[id].calls)))
      ensures id !in old(jobs) ==> jobs == old(jobs)
      ensures id in old(jobs) ==>
        jobs == old(jobs)[id := old(jobs)[id].(status := old(runs[id].at.result), finished := now)]
    {
      if id in jobs { jobs := jobs[id := jobs[id].(status := runs[id].at.result, finished := now)]; }
      Goto(id, Pruning);
    }

    method PruneJobs(id: Id, now: nat) returns (ghost kept: set<Id>, ghost latest: set<Id>)
      requires At(Abs(), id, Pruning)
      modifies this
      ensures Enabled(old(Abs()), Prune(id, kept, latest, policy, now))
      ensures Abs() == Step(old(Abs()), Prune(id, kept, latest, policy, now))
      ensures IsMoved(old(Abs()), Abs(), id, Run(Releasing, old(runs[id].calls)))
      ensures jobs.Keys == kept && forall k :: k in jobs ==> k in old(jobs) && jobs[k] == old(jobs)[k]
      ensures forall k :: k in old(jobs) ==> FateIsFair(old(jobs), kept, latest, policy, now, k)
    {
      var left;
      left, latest := PruneTerminalJobs(jobs, policy, now);
      kept := left.Keys;
      jobs := left;
      Goto(id, Releasing);
    }

    method ReleaseSlot(id: Id)
      requires Enabled(Abs(), Release(id))
      modifies this
      ensures Abs() == Step(old(Abs()), Release(id))
      ensures tokens == old(tokens) - 1 && jobs == old(jobs) && starting == old(starting)
      ensures runs == old(runs)[id := Run(Over, old(runs[id].calls))]
    {
      tokens := tokens - 1;
      Goto(id, Over);
    }

    /** `Start`: no token, no job. */
    method Start(workspace: string) returns (ok: bool, id: Id)
      requires Valid()
      modifies this
      ensures Valid()
      ensures ok <==> |Holders(old(Abs()))| < capacity
      ensures if ok then At(Abs(), id, Spawned) && id in jobs && id !in old(jobs) else Abs() == old(Abs())
      ensures ok ==> jobs == old(jobs)[id := Job(workspace, Queued, NoFailure, 0, [], 0, 0)]
      ensures ok ==> tokens == old(tokens) + 1 && starting == old(starting)
    {
      ok, id := TakeSlotFor();
      if ok {
        StepKeepsInv(old(Abs()), TakeSlot);
        ghost var taken := Abs();
        RecordJob(id, workspace);
        StepKeepsInv(taken, Record(id, workspace));
      }
    }

    /** One section of the run `id`, whatever its code meets. */
    method Act(id: Id, ok: bool, now: nat) returns (ghost e: Event)
      requires id in runs && runs[id].at != Over && now > 0 && (At(Abs(), id, Releasing) ==> tokens > 0)
      modifies this
      ensures Enabled(old(Abs()), e) && ActsOn(e, id) && !e.Record? && Abs() == Step(old(Abs()), e)
    {
      match runs[id].at
      case Spawned => BeginRun(id, now); e := Begin(id, now);
      case Opening => OpenLogs(id, ok); e := Open(id, ok);
      case Calling(_) => RunStep(id, ok); e := Make(id, ok);
      case Cleaning(_) => CallDown(id, ok); e := CleanUp(id, ok);
      case Failing(_) => FailJob(id); e := Fail(id);
      case Finishing(_) => FinishJob(id, now); e := Finish(id, now);
      case Pruning =>
        ghost var kept, latest := PruneJobs(id, now);
        e := Prune(id, kept, latest, policy, now);
      case Releasing => ReleaseSlot(id); e := Release(id);
    }

    method Proceed(id: Id, ok: bool, now: nat)
      requires Valid() && id in runs && runs[id].at != Over && now > 0
      modifies this
      ensures Valid() && id in runs && Rank(runs[id].at) < Rank(old(runs[id].at))
    {
      ghost var s := Abs();
      if s.runs[id].at == Releasing { ReleaseNeverWaits(s, id); }
      ghost var e := Act(id, ok, now);
      StepKeepsInv(s, e);
      RankDrops(s, e, id);
    }

    /** `run`, with nobody else acting meanwhile. */
    method RunJob(id: Id, now: nat)
      requires Valid() && At(Abs(), id, Spawned) && now > 0
      modifies this
      ensures Valid() && At(Abs(), id, Over) && DownOnce(runs[id].calls)
      ensures id in jobs ==> jobs[id].status in {Passed, Failed} && jobs[id].finished > 0
      ensures id in jobs ==> Verdict(jobs[id], runs[id].calls)
    {
      while runs[id].at != Over
        invariant Valid() && id in runs
        decreases Rank(runs[id].at)
      {
        var ok: bool := *;
        Proceed(id, ok, now);
      }
      EndedRunIsClean(Abs(), id);
      assert RunInv(Abs(), id);
      if id in jobs { FinishedJobTellsTheTruth(Abs(), id); }
    }
  }
}
