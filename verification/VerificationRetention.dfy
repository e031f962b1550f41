/** Which finished verification jobs are kept: a job record, and the pruning of the history. */
module VerificationRetention {
  import opened Collections
  import opened Sorting

  datatype Status = Queued | Running | Passed | Failed

  datatype Failure = NoFailure | Boot | Test | Infra

  datatype CallName = Prepare | Up | Health | Verify | Down

  datatype Call = Call(name: CallName, ok: bool)

  datatype StepResult = Ran(call: CallName, ok: bool) | FailureNoted

  /** Times are counted from the zero time, which a job that has not finished carries. */
  datatype Job = Job(
    workspace: string, status: Status, failure: Failure, exit: int, steps: seq<StepResult>, started: nat, finished: nat)

  type Id = nat

  datatype Policy = Policy(maxTerminal: nat, retention: nat)

  // ------------------------------------------------------------------ retention

  predicate Terminal(j: Job) {
    j.status == Passed || j.status == Failed
  }

  function Terminals(jobs: map<Id, Job>): set<Id> {
    set id | id in jobs && Terminal(jobs[id])
  }

  function Workspaces(jobs: map<Id, Job>): set<string> {
    set id | id in jobs && Terminal(jobs[id]) :: jobs[id].workspace
  }

  /** No finished job of the same workspace finished later. */
  predicate Newest(jobs: map<Id, Job>, id: Id)
    requires id in jobs
  {
    Terminal(jobs[id]) &&
    forall other :: other in jobs && Terminal(jobs[other]) && jobs[other].workspace == jobs[id].workspace ==>
      jobs[other].finished <= jobs[id].finished
  }

  predicate Expired(j: Job, policy: Policy, now: nat) {
    policy.retention > 0 && j.finished != 0 && now - j.finished > policy.retention
  }

  function Max(a: nat, b: nat): nat {
    if a < b then b else a
  }

  /** A kept job that is not its workspace's latest is recent enough and within the capacity. */
  ghost predicate KeptForAReason(jobs: map<Id, Job>, kept: set<Id>, latest: set<Id>, policy: Policy, now: nat, id: Id)
    requires id in jobs
  {
    Terminal(jobs[id]) && id !in latest ==>
      !Expired(jobs[id], policy, now) && |kept * Terminals(jobs)| <= policy.maxTerminal
  }

  ghost predicate KeepsLatest(jobs: map<Id, Job>, kept: set<Id>, latest: set<Id>) {
    && latest <= kept
    && (forall id :: id in latest ==> id in jobs && Newest(jobs, id))
    && (forall a, b :: a in latest && b in latest && jobs[a].workspace == jobs[b].workspace ==> a == b)
    && (forall id :: id in jobs && Terminal(jobs[id]) ==>
          exists l :: l in latest && jobs[l].workspace == jobs[id].workspace)
  }

  /** A job is removed because it expired, or to bring the number down to what is allowed and no
      further; in the second case everything that finished before it went first. */
  ghost predicate RemovedForAReason(
    jobs: map<Id, Job>, kept: set<Id>, latest: set<Id>, policy: Policy, now: nat, id: Id)
    requires id in jobs
  {
    Expired(jobs[id], policy, now) ||
    (|Terminals(jobs)| > policy.maxTerminal &&
     (jobs[id].finished == 0 || |kept * Terminals(jobs)| >= policy.maxTerminal) &&
     forall k :: k in kept && k in jobs && Terminal(jobs[k]) && jobs[k].finished < jobs[id].finished ==> k in latest)
  }

  /** What one pruning pass may leave, given the order in which it meets ties. */
  ghost predicate Pruned(jobs: map<Id, Job>, kept: set<Id>, latest: set<Id>, policy: Policy, now: nat) {
    && kept <= jobs.Keys && KeepsLatest(jobs, kept, latest)
    && (forall id :: id in jobs && !Terminal(jobs[id]) ==> id in kept)
    && (forall id {:trigger id in kept} :: id in kept ==> KeptForAReason(jobs, kept, latest, policy, now, id))
    && (forall id {:trigger id in kept} :: id in jobs && id !in kept ==>
      RemovedForAReason(jobs, kept, latest, policy, now, id))
  }

  function Restrict(jobs: map<Id, Job>, kept: set<Id>): map<Id, Job> {
    map id | id in jobs && id in kept :: jobs[id]
  }

  lemma {:induction false} LatestFewer(jobs: map<Id, Job>, latest: set<Id>)
    requires forall id :: id in latest ==> id in jobs && Terminal(jobs[id])
    requires forall a, b :: a in latest && b in latest && jobs[a].workspace == jobs[b].workspace ==> a == b
    ensures |latest| == |set id | id in latest :: jobs[id].workspace|
  {
    if latest != {} {
      var l :| l in latest;
      LatestFewer(jobs, latest - {l});
      assert (set id | id in latest :: jobs[id].workspace)
        == (set id | id in latest - {l} :: jobs[id].workspace) + {jobs[l].workspace};
    }
  }

  /** At most the allowed number of finished jobs stay, or one for each workspace that has any. */
  lemma PruningBounds(jobs: map<Id, Job>, kept: set<Id>, latest: set<Id>, policy: Policy, now: nat)
    requires Pruned(jobs, kept, latest, policy, now)
    ensures |Terminals(Restrict(jobs, kept))| <= Max(policy.maxTerminal, |Workspaces(jobs)|)
  {
    var left := Terminals(Restrict(jobs, kept));
    assert left == kept * Terminals(jobs);
    if |left| > policy.maxTerminal {
      forall id | id in left ensures id in latest {
        assert id in kept && KeptForAReason(jobs, kept, latest, policy, now, id);
      }
      SubsetSize(left, latest);
      LatestFewer(jobs, latest);
      SubsetSize(set id | id in latest :: jobs[id].workspace, Workspaces(jobs));
    }
  }

  /** A kept job that finished, at a real time, before a removed one is its workspace's latest. */
  lemma OldestGoFirst(jobs: map<Id, Job>, kept: set<Id>, latest: set<Id>, policy: Policy, now: nat, k: Id, gone: Id)
    requires Pruned(jobs, kept, latest, policy, now)
    requires k in kept && Terminal(jobs[k]) && gone in jobs && gone !in kept
    requires 0 < jobs[k].finished < jobs[gone].finished
    ensures k in latest && Newest(jobs, k)
  {
    assert RemovedForAReason(jobs, kept, latest, policy, now, gone);
    assert KeptForAReason(jobs, kept, latest, policy, now, k);
  }

  /** Longer ago than the retention, if there is one and the job has a finish time. */
  predicate TooOld(j: Job, policy: Policy, now: nat) {
    policy.retention > 0 && j.finished > 0 && j.finished + policy.retention < now
  }

  /** What a pass promises about one job, in terms of times and numbers alone. */
  ghost predicate FateIsFair(jobs: map<Id, Job>, kept: set<Id>, latest: set<Id>, policy: Policy, now: nat, id: Id)
    requires id in jobs
  {
    var before := |set k | k in jobs && Terminal(jobs[k])|;
    var after := |set k | k in jobs && k in kept && Terminal(jobs[k])|;
    && (jobs[id].status == Queued || jobs[id].status == Running ==> id in kept)
    && (id in kept && Terminal(jobs[id]) && id !in latest ==>
          !TooOld(jobs[id], policy, now) && after <= policy.maxTerminal)
    && (id !in kept ==> id !in latest && (TooOld(jobs[id], policy, now) || before > policy.maxTerminal))
  }

  /** One kept job for each workspace with finished jobs, and none of these finished later. */
  ghost predicate LatestAreKept(jobs: map<Id, Job>, kept: set<Id>, latest: set<Id>) {
    && (forall l :: l in latest ==> l in kept && l in jobs && Terminal(jobs[l]))
    && (forall a, b :: a in latest && b in latest && jobs[a].workspace == jobs[b].workspace ==> a == b)
    && (forall id :: id in jobs && Terminal(jobs[id]) ==> HasLatest(jobs, latest, id))
  }

  ghost predicate HasLatest(jobs: map<Id, Job>, latest: set<Id>, id: Id)
    requires id in jobs && forall l :: l in latest ==> l in jobs
  {
    exists l :: l in latest && jobs[l].workspace == jobs[id].workspace && jobs[id].finished <= jobs[l].finished
  }

  lemma PruningKeepsLatest(jobs: map<Id, Job>, kept: set<Id>, latest: set<Id>, policy: Policy, now: nat)
    requires Pruned(jobs, kept, latest, policy, now)
    ensures LatestAreKept(jobs, kept, latest)
  {
    forall id | id in jobs && Terminal(jobs[id]) ensures HasLatest(jobs, latest, id) {
      var l :| l in latest && jobs[l].workspace == jobs[id].workspace;
      assert Newest(jobs, l);
    }
  }

  lemma PruningIsFair(jobs: map<Id, Job>, kept: set<Id>, latest: set<Id>, policy: Policy, now: nat, id: Id)
    requires Pruned(jobs, kept, latest, policy, now) && id in jobs
    ensures FateIsFair(jobs, kept, latest, policy, now, id)
  {
    assert (set k | k in jobs && Terminal(jobs[k])) == Terminals(jobs);
    assert (set k | k in jobs && k in kept && Terminal(jobs[k])) == kept * Terminals(jobs);
    if id in kept {
      assert KeptForAReason(jobs, kept, latest, policy, now, id);
    } else {
      assert RemovedForAReason(jobs, kept, latest, policy, now, id);
    }
  }

  // ------------------------------------------------------------------ pruning, as it is coded

  predicate AllIn(jobs: map<Id, Job>, ids: seq<Id>) {
    forall id :: id in ids ==> id in jobs
  }

  predicate ByFinish(jobs: map<Id, Job>, ids: seq<Id>)
    requires AllIn(jobs, ids)
  {
    forall i, j :: 0 <= i < j < |ids| ==> jobs[ids[i]].finished <= jobs[ids[j]].finished
  }

  function ToSet(ids: seq<Id>): set<Id> {
    set id | id in ids
  }

  lemma {:induction false} DistinctSize(ids: seq<Id>)
    requires Distinct(ids)
    ensures |ToSet(ids)| == |ids|
  {
    if ids != [] {
      var n := |ids| - 1;
      DistinctSize(ids[..n]);
      assert ToSet(ids) == ToSet(ids[..n]) + {ids[n]};
    }
  }

  /** The finished jobs, and for each workspace one that finished last. */
  ghost predicate Collected(jobs: map<Id, Job>, among: set<Id>, terminals: seq<Id>, latest: map<string, Id>) {
    && Distinct(terminals) && ToSet(terminals) == among * Terminals(jobs)
    && (forall w :: w in latest ==> latest[w] in terminals && latest[w] in jobs && jobs[latest[w]].workspace == w)
    && (forall id :: id in terminals ==>
          (id in jobs && jobs[id].workspace in latest && latest[jobs[id].workspace] in jobs
           && jobs[id].finished <= jobs[latest[jobs[id].workspace]].finished))
  }

  lemma CollectOne(jobs: map<Id, Job>, among: set<Id>, terminals: seq<Id>, latest: map<string, Id>, id: Id)
    requires Collected(jobs, among, terminals, latest) && id in jobs && id !in among
    ensures !Terminal(jobs[id]) ==> Collected(jobs, among + {id}, terminals, latest)
    ensures Terminal(jobs[id]) ==> var w := jobs[id].workspace;
      Collected(jobs, among + {id}, terminals + [id],
                if w !in latest || jobs[latest[w]].finished < jobs[id].finished then latest[w := id] else latest)
  {
    if Terminal(jobs[id]) {
      CollectTerminal(jobs, among, terminals, latest, id);
    } else {
      assert (among + {id}) * Terminals(jobs) == among * Terminals(jobs);
    }
  }

  lemma CollectTerminal(jobs: map<Id, Job>, among: set<Id>, terminals: seq<Id>, latest: map<string, Id>, id: Id)
    requires Collected(jobs, among, terminals, latest) && id in jobs && id !in among && Terminal(jobs[id])
    ensures var w := jobs[id].workspace;
      Collected(jobs, among + {id}, terminals + [id],
                if w !in latest || jobs[latest[w]].finished < jobs[id].finished then latest[w := id] else latest)
  {
    var more := terminals + [id];
    assert id !in ToSet(terminals);
    assert more[|terminals|] == id;
    assert forall t :: t in terminals ==> t in more;
    assert ToSet(more) == ToSet(terminals) + {id};
  }

  method CollectTerminals(jobs: map<Id, Job>) returns (terminals: seq<Id>, latest: map<string, Id>)
    ensures Collected(jobs, jobs.Keys, terminals, latest)
  {
    terminals, latest := [], map[];
    var todo := jobs.Keys;
    while todo != {}
      invariant todo <= jobs.Keys && Collected(jobs, jobs.Keys - todo, terminals, latest)
      decreases |todo|
    {
      var id :| id in todo;
      ghost var among := jobs.Keys - todo;
      todo := todo - {id};
      assert jobs.Keys - todo == among + {id};
      var job := jobs[id];
      CollectOne(jobs, among, terminals, latest, id);
      if Terminal(job) {
        terminals := terminals + [id];
        if job.workspace !in latest || jobs[latest[job.workspace]].finished < job.finished {
          latest := latest[job.workspace := id];
        }
      }
    }
    assert jobs.Keys - todo == jobs.Keys;
  }

  function FinishOf(jobs: map<Id, Job>, id: Id): nat {
    if id in jobs then jobs[id].finished else 0
  }

  function Earlier(jobs: map<Id, Job>): (Id, Id) -> bool {
    (a: Id, b: Id) => FinishOf(jobs, a) < FinishOf(jobs, b)
  }

  /** An order by finish time; callers rely on nothing about ties. */
  function SortByFinish(jobs: map<Id, Job>, ids: seq<Id>): (r: seq<Id>)
    requires Distinct(ids) && AllIn(jobs, ids)
    ensures (forall t :: t in r <==> t in ids) && Distinct(r) && ByFinish(jobs, r)
  {
    EarlierIsAnOrder(jobs);
    SortSorts(ids, Earlier(jobs));
    SortContains(ids, Earlier(jobs));
    SortKeepsDistinct(ids, Earlier(jobs));
    SortedByFinish(jobs, Sort(ids, Earlier(jobs)));
    Sort(ids, Earlier(jobs))
  }

  lemma EarlierIsAnOrder(jobs: map<Id, Job>)
    ensures WeakOrder(Earlier(jobs))
  {
  }

  lemma SortedByFinish(jobs: map<Id, Job>, ids: seq<Id>)
    requires AllIn(jobs, ids) && Sorted(ids, Earlier(jobs))
    ensures ByFinish(jobs, ids)
  {
    forall i, j | 0 <= i < j < |ids| ensures jobs[ids[i]].finished <= jobs[ids[j]].finished {
      assert !Earlier(jobs)(ids[j], ids[i]);
    }
  }

  function Without(jobs: map<Id, Job>, removed: set<Id>): map<Id, Job> {
    map id | id in jobs && id !in removed :: jobs[id]
  }

  ghost predicate DroppedForAReason(
    jobs: map<Id, Job>, order: seq<Id>, latest: set<Id>, removed: set<Id>, policy: Policy, now: nat, j: nat)
    requires j < |order| && AllIn(jobs, order) && |removed| <= |order|
  {
    order[j] in removed ==>
      Expired(jobs[order[j]], policy, now) ||
      (|order| > policy.maxTerminal
       && (jobs[order[j]].finished == 0 || |order| - |removed| >= policy.maxTerminal)
       && forall k :: 0 <= k < j ==> order[k] in removed || order[k] in latest)
  }

  ghost predicate StaysForAReason(
    jobs: map<Id, Job>, order: seq<Id>, latest: set<Id>, removed: set<Id>, policy: Policy, now: nat, j: nat)
    requires j < |order| && AllIn(jobs, order) && |removed| <= |order|
  {
    order[j] !in removed && order[j] !in latest ==>
      !Expired(jobs[order[j]], policy, now) && |order| - |removed| <= policy.maxTerminal
  }

  ghost predicate Reasoned(
    jobs: map<Id, Job>, order: seq<Id>, latest: set<Id>, removed: set<Id>, policy: Policy, now: nat, j: nat)
    requires j < |order| && AllIn(jobs, order) && |removed| <= |order|
  {
    && DroppedForAReason(jobs, order, latest, removed, policy, now, j)
    && StaysForAReason(jobs, order, latest, removed, policy, now, j)
  }

  ghost predicate Dropping(
    jobs: map<Id, Job>, order: seq<Id>, latest: set<Id>, removed: set<Id>, policy: Policy, now: nat, n: nat)
    requires n <= |order| && AllIn(jobs, order) && |removed| <= |order|
  {
    && (forall id :: id in removed ==> id in order[..n] && id !in latest)
    && (forall j {:trigger Reasoned(jobs, order, latest, removed, policy, now, j)} :: 0 <= j < n ==>
          Reasoned(jobs, order, latest, removed, policy, now, j))
  }

  /** One more job is dropped. */
  ghost predicate OneMore(removed: set<Id>, more: set<Id>, id: Id) {
    |more| == |removed| + 1 && forall x :: x in more <==> x in removed || x == id
  }

  /** Dropping one more leaves every earlier job its reason. */
  lemma EarlierKeepsReason(
    jobs: map<Id, Job>, order: seq<Id>, latest: set<Id>, removed: set<Id>, more: set<Id>, policy: Policy,
    now: nat, n: nat, j: nat)
    requires j < n < |order| && AllIn(jobs, order) && order[j] != order[n] && |removed| <= n
      && OneMore(removed, more, order[n])
    requires jobs[order[j]].finished <= jobs[order[n]].finished
    requires Expired(jobs[order[n]], policy, now) || |order| - |removed| > policy.maxTerminal
    requires Reasoned(jobs, order, latest, removed, policy, now, j)
    ensures Reasoned(jobs, order, latest, more, policy, now, j)
  {
  }

  /** A job dropped for capacity has before it only dropped jobs and latest ones, or is expired. */
  lemma LastHasReason(
    jobs: map<Id, Job>, order: seq<Id>, latest: set<Id>, removed: set<Id>, more: set<Id>, policy: Policy,
    now: nat, n: nat)
    requires n < |order| && AllIn(jobs, order) && ByFinish(jobs, order) && OneMore(removed, more, order[n])
    requires |removed| <= n && Dropping(jobs, order, latest, removed, policy, now, n)
    requires Expired(jobs[order[n]], policy, now) || |order| - |removed| > policy.maxTerminal
    ensures Reasoned(jobs, order, latest, more, policy, now, n)
  {
    forall k | 0 <= k < n && order[k] !in removed && order[k] !in latest ensures Expired(jobs[order[n]], policy, now) {
      assert Reasoned(jobs, order, latest, removed, policy, now, k);
    }
  }

  lemma RemovedAreBefore(order: seq<Id>, latest: set<Id>, removed: set<Id>, more: set<Id>, n: nat)
    requires n < |order| && order[n] !in latest && OneMore(removed, more, order[n])
    requires forall id :: id in removed ==> id in order[..n] && id !in latest
    ensures forall id :: id in more ==> id in order[..n + 1] && id !in latest
  {
    assert order[..n + 1] == order[..n] + [order[n]];
  }

  lemma DropOne(
    jobs: map<Id, Job>, order: seq<Id>, latest: set<Id>, removed: set<Id>, more: set<Id>, policy: Policy,
    now: nat, n: nat)
    requires n < |order| && AllIn(jobs, order) && Distinct(order) && ByFinish(jobs, order)
      && OneMore(removed, more, order[n])
    requires |removed| <= n && Dropping(jobs, order, latest, removed, policy, now, n)
    requires order[n] !in latest
    requires Expired(jobs[order[n]], policy, now) || |order| - |removed| > policy.maxTerminal
    ensures Dropping(jobs, order, latest, more, policy, now, n + 1)
  {
    RemovedAreBefore(order, latest, removed, more, n);
    LastHasReason(jobs, order, latest, removed, more, policy, now, n);
    forall j | 0 <= j < n ensures Reasoned(jobs, order, latest, more, policy, now, j) {
      assert Reasoned(jobs, order, latest, removed, policy, now, j);
      EarlierKeepsReason(jobs, order, latest, removed, more, policy, now, n, j);
    }
  }

  lemma KeepOne(
    jobs: map<Id, Job>, order: seq<Id>, latest: set<Id>, removed: set<Id>, policy: Policy, now: nat, n: nat)
    requires n < |order| && AllIn(jobs, order) && Distinct(order)
    requires |removed| <= n && Dropping(jobs, order, latest, removed, policy, now, n)
    requires order[n] in latest || !(Expired(jobs[order[n]], policy, now) || |order| - |removed| > policy.maxTerminal)
    ensures Dropping(jobs, order, latest, removed, policy, now, n + 1)
  {
    assert order[..n + 1] == order[..n] + [order[n]];
    assert order[n] !in order[..n];
    forall j | 0 <= j < n + 1
      ensures Reasoned(jobs, order, latest, removed, policy, now, j)
    {
      if j < n {
        assert Reasoned(jobs, order, latest, removed, policy, now, j);
      }
    }
  }

  lemma WithoutOne(jobs: map<Id, Job>, removed: set<Id>, id: Id)
    ensures Without(jobs, removed) - {id} == Without(jobs, removed + {id})
  {
  }

  ghost predicate LatestKnown(jobs: map<Id, Job>, order: seq<Id>, latest: map<string, Id>) {
    && (forall id :: id in order ==> id in jobs && jobs[id].workspace in latest)
    && (forall w :: w in latest ==> latest[w] in jobs && jobs[latest[w]].workspace == w)
  }

  /** The test of one pass. */
  method DropsNow(
    jobs: map<Id, Job>, ghost order: seq<Id>, latest: map<string, Id>, policy: Policy, now: nat, remaining: int, id: Id)
    returns (drops: bool)
    requires LatestKnown(jobs, order, latest) && id in order
    ensures drops <==> (Expired(jobs[id], policy, now) || remaining > policy.maxTerminal) && id !in latest.Values
  {
    var expired, overCapacity := Expired(jobs[id], policy, now), remaining > policy.maxTerminal;
    drops := (expired || overCapacity) && latest[jobs[id].workspace] != id;
  }

  lemma OnePass(
    jobs: map<Id, Job>, order: seq<Id>, latest: set<Id>, removed: set<Id>, policy: Policy, now: nat, n: nat,
    drops: bool)
    requires n < |order| && AllIn(jobs, order) && Distinct(order) && ByFinish(jobs, order)
    requires |removed| <= n && Dropping(jobs, order, latest, removed, policy, now, n)
    requires drops <==>
      (Expired(jobs[order[n]], policy, now) || |order| - |removed| > policy.maxTerminal) && order[n] !in latest
    ensures |removed + {order[n]}| == |removed| + 1
    ensures Dropping(jobs, order, latest, if drops then removed + {order[n]} else removed, policy, now, n + 1)
    ensures Without(jobs, removed) - {order[n]} == Without(jobs, removed + {order[n]})
  {
    WithoutOne(jobs, removed, order[n]);
    assert order[n] !in order[..n];
    assert OneMore(removed, removed + {order[n]}, order[n]);
    if drops {
      DropOne(jobs, order, latest, removed, removed + {order[n]}, policy, now, n);
    } else {
      KeepOne(jobs, order, latest, removed, policy, now, n);
    }
  }

  method DropJobs(jobs: map<Id, Job>, order: seq<Id>, latest: map<string, Id>, policy: Policy, now: nat)
    returns (left: map<Id, Job>, ghost removed: set<Id>)
    requires LatestKnown(jobs, order, latest) && AllIn(jobs, order) && Distinct(order) && ByFinish(jobs, order)
    ensures left == Without(jobs, removed) && |removed| <= |order|
    ensures Dropping(jobs, order, latest.Values, removed, policy, now, |order|)
  {
    left, removed := jobs, {};
    var remaining := |order|;
    var n := 0;
    while n < |order|
      invariant 0 <= n <= |order| && |removed| <= n && remaining == |order| - |removed|
      invariant left == Without(jobs, removed)
      invariant Dropping(jobs, order, latest.Values, removed, policy, now, n)
    {
      var drops := DropsNow(jobs, order, latest, policy, now, remaining, order[n]);
      OnePass(jobs, order, latest.Values, removed, policy, now, n, drops);
      if drops {
        left := left - {order[n]};
        removed := removed + {order[n]};
        remaining := remaining - 1;
      }
      n := n + 1;
    }
  }

  lemma LeftCount(jobs: map<Id, Job>, order: seq<Id>, removed: set<Id>)
    requires Distinct(order) && ToSet(order) == Terminals(jobs) && removed <= ToSet(order)
    ensures |(jobs.Keys - removed) * Terminals(jobs)| == |order| - |removed| && |Terminals(jobs)| == |order|
  {
    DistinctSize(order);
    assert (jobs.Keys - removed) * Terminals(jobs) == ToSet(order) - removed;
  }

  /** Everything the loop has met, and the finished jobs are all there is to meet. */
  ghost predicate Dropped(
    jobs: map<Id, Job>, order: seq<Id>, latest: set<Id>, removed: set<Id>, policy: Policy, now: nat)
  {
    && AllIn(jobs, order) && Distinct(order) && ByFinish(jobs, order) && ToSet(order) == Terminals(jobs)
    && |removed| <= |order| && Dropping(jobs, order, latest, removed, policy, now, |order|)
  }

  lemma DroppedLeavesReasons(
    jobs: map<Id, Job>, order: seq<Id>, latest: set<Id>, removed: set<Id>, policy: Policy, now: nat, id: Id)
    requires Dropped(jobs, order, latest, removed, policy, now) && id in jobs
    ensures id !in removed ==> KeptForAReason(jobs, jobs.Keys - removed, latest, policy, now, id)
  {
    LeftCount(jobs, order, removed);
    if Terminal(jobs[id]) {
      assert id in ToSet(order);
      var j :| 0 <= j < |order| && order[j] == id;
      assert Reasoned(jobs, order, latest, removed, policy, now, j);
    }
  }

  lemma EarlierInOrder(jobs: map<Id, Job>, order: seq<Id>, k: Id, j: nat)
    requires AllIn(jobs, order) && ByFinish(jobs, order) && j < |order|
    requires k in order && jobs[k].finished < jobs[order[j]].finished
    ensures exists i :: 0 <= i < j && order[i] == k
  {
    var i :| 0 <= i < |order| && order[i] == k;
    assert i < j;
  }

  lemma DroppedHasReasons(
    jobs: map<Id, Job>, order: seq<Id>, latest: set<Id>, removed: set<Id>, policy: Policy, now: nat, id: Id)
    requires Dropped(jobs, order, latest, removed, policy, now) && id in removed
    ensures id in jobs && RemovedForAReason(jobs, jobs.Keys - removed, latest, policy, now, id)
  {
    LeftCount(jobs, order, removed);
    var j :| 0 <= j < |order| && order[j] == id;
    assert Reasoned(jobs, order, latest, removed, policy, now, j);
    forall k | k in jobs.Keys - removed && Terminal(jobs[k]) && jobs[k].finished < jobs[id].finished
      ensures Expired(jobs[id], policy, now) || k in latest
    {
      assert k in ToSet(order);
      EarlierInOrder(jobs, order, k, j);
    }
  }

  lemma CollectedLatest(jobs: map<Id, Job>, terminals: seq<Id>, latest: map<string, Id>, removed: set<Id>)
    requires Collected(jobs, jobs.Keys, terminals, latest)
    requires forall id :: id in removed ==> id !in latest.Values
    ensures KeepsLatest(jobs, jobs.Keys - removed, latest.Values)
  {
    forall id | id in latest.Values ensures id in jobs && Newest(jobs, id) {
      var w :| w in latest && latest[w] == id;
      assert id in ToSet(terminals);
      forall other | other in jobs && Terminal(jobs[other]) && jobs[other].workspace == jobs[id].workspace
        ensures jobs[other].finished <= jobs[id].finished
      {
        assert other in ToSet(terminals);
      }
    }
    forall id | id in jobs && Terminal(jobs[id])
      ensures exists l :: l in latest.Values && jobs[l].workspace == jobs[id].workspace
    {
      assert id in ToSet(terminals);
      assert latest[jobs[id].workspace] in latest.Values;
    }
  }

  lemma DroppedIsPruned(
    jobs: map<Id, Job>, terminals: seq<Id>, order: seq<Id>, latest: map<string, Id>, removed: set<Id>,
    policy: Policy, now: nat)
    requires Collected(jobs, jobs.Keys, terminals, latest)
    requires Dropped(jobs, order, latest.Values, removed, policy, now)
    ensures Pruned(jobs, jobs.Keys - removed, latest.Values, policy, now)
    ensures Without(jobs, removed) == Restrict(jobs, jobs.Keys - removed)
  {
    CollectedLatest(jobs, terminals, latest, removed);
    forall id | id in jobs && !Terminal(jobs[id]) ensures id !in removed { assert id !in ToSet(order); }
    forall id | id in jobs.Keys - removed
      ensures KeptForAReason(jobs, jobs.Keys - removed, latest.Values, policy, now, id)
    {
      DroppedLeavesReasons(jobs, order, latest.Values, removed, policy, now, id);
    }
    forall id | id in jobs && id in removed
      ensures RemovedForAReason(jobs, jobs.Keys - removed, latest.Values, policy, now, id)
    {
      DroppedHasReasons(jobs, order, latest.Values, removed, policy, now, id);
    }
  }

  lemma CollectedIsKnown(jobs: map<Id, Job>, terminals: seq<Id>, order: seq<Id>, latest: map<string, Id>)
    requires Collected(jobs, jobs.Keys, terminals, latest) && forall t :: t in order <==> t in terminals
    ensures LatestKnown(jobs, order, latest) && ToSet(order) == Terminals(jobs)
  {
    assert ToSet(order) == ToSet(terminals);
    assert forall id :: id in terminals ==> id in ToSet(terminals);
  }

  lemma RestrictWithout(jobs: map<Id, Job>, removed: set<Id>)
    ensures Without(jobs, removed).Keys == jobs.Keys - removed
    ensures Restrict(jobs, jobs.Keys - removed) == Without(jobs, removed)
  {
  }

  method PruneTerminalJobs(jobs: map<Id, Job>, policy: Policy, now: nat)
    returns (left: map<Id, Job>, ghost latest: set<Id>)
    ensures left == Restrict(jobs, left.Keys) && Pruned(jobs, left.Keys, latest, policy, now)
    ensures forall id :: id in jobs ==> FateIsFair(jobs, left.Keys, latest, policy, now, id)
    ensures LatestAreKept(jobs, left.Keys, latest)
    ensures forall id :: id in left ==> id in jobs && left[id] == jobs[id]
    ensures Workspaces(left) == Workspaces(jobs)
    ensures |Terminals(left)| <= Max(policy.maxTerminal, |Workspaces(jobs)|)
  {
    var terminals, byWorkspace := CollectTerminals(jobs);
    assert forall id :: id in terminals ==> id in ToSet(terminals);
    var order := SortByFinish(jobs, terminals);
    CollectedIsKnown(jobs, terminals, order, byWorkspace);
    ghost var removed;
    left, removed := DropJobs(jobs, order, byWorkspace, policy, now);
    DroppedIsPruned(jobs, terminals, order, byWorkspace, removed, policy, now);
    latest := byWorkspace.Values;
    RestrictWithout(jobs, removed);
    PruningBounds(jobs, left.Keys, latest, policy, now);
    WorkspacesStay(jobs, left.Keys, latest, policy, now);
    PruningKeepsLatest(jobs, left.Keys, latest, policy, now);
    forall id | id in jobs ensures FateIsFair(jobs, left.Keys, latest, policy, now, id) {
      PruningIsFair(jobs, left.Keys, latest, policy, now, id);
    }
  }

  lemma WorkspacesStay(jobs: map<Id, Job>, kept: set<Id>, latest: set<Id>, policy: Policy, now: nat)
    requires Pruned(jobs, kept, latest, policy, now)
    ensures Workspaces(Restrict(jobs, kept)) == Workspaces(jobs)
  {
    var left := Restrict(jobs, kept);
    forall w | w in Workspaces(jobs) ensures w in Workspaces(left) {
      var id :| id in jobs && Terminal(jobs[id]) && jobs[id].workspace == w;
      var l :| l in latest && jobs[l].workspace == w;
      assert l in left && Terminal(left[l]) && left[l].workspace == w;
    }
  }
}
