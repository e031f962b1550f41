/** The Jira issue cache: shared fetches, forced refreshes, generations, invalidation and expiry. */
module JiraIssueCache {
  // The first half is the protocol as a state machine. Every step is one critical section of the
  // service's mutex, so a run is any interleaving of readers, refreshes, completions, departures and
  // invalidations. The second half is the service itself: a class over the same maps, whose methods
  // loop as the source does and are proved to take those steps.

  import opened Collections

  type Key = string
  type Instant = int

  const MAX_CACHE_ENTRIES: nat := 256
  const TIME_TO_LIVE: nat := 300 // seconds

  datatype IssueState = Available(issue: string) | NotFound | AuthenticationFailed | Forbidden | Unavailable

  predicate Cacheable(state: IssueState) {
    state.Available? || state.NotFound?
  }

  datatype Entry = Entry(state: IssueState, expiresAt: Instant)

  /** One call of the Jira client. A shared fetch is a flight that readers may join; a forced
      refresh is a fetch of its own. `begunAt`, `closes` and `callers` (readers blocked on the
      flight) are history: the source has no such fields. */
  datatype Fetch = Fetch(
    key: Key, generation: nat, shared: bool, waiters: int, abandoned: bool, finished: bool,
    begunAt: nat, closes: nat, callers: nat)

  /** `tick`, `invalidatedAt`, `source` (the fetch a cache entry came from) and `stored` (the
      generations stored under a key, oldest first) are history. */
  datatype State = State(
    cache: map<Key, Entry>, inFlight: map<Key, nat>, generation: map<Key, nat>, fetches: seq<Fetch>,
    tick: nat, invalidatedAt: map<string, nat>, source: map<Key, nat>, stored: map<Key, seq<nat>>)

  const EMPTY := State(map[], map[], map[], [], 0, map[], map[], map[])

  datatype Event =
    | Read(key: Key, now1: Instant, now2: Instant)
    | BeginRefresh(key: Key)
    | Complete(id: nat, state: IssueState, now1: Instant, now2: Instant, victim: Key)
    | Leave(id: nat)
    | Return(id: nat)
    | Invalidate(workspace: string)

  /** The key was built for this workspace: keys start with the workspace ID and a bar. */
  predicate OwnedBy(key: Key, workspace: string) {
    workspace + "|" <= key
  }

  function Generation(s: State, key: Key): nat {
    if key in s.generation then s.generation[key] else 0
  }

  function Log(s: State, key: Key): seq<nat> {
    if key in s.stored then s.stored[key] else []
  }

  function Prune(cache: map<Key, Entry>, now: Instant): map<Key, Entry> {
    map key | key in cache && now < cache[key].expiresAt :: cache[key]
  }

  /** An entry of least expiry; the source takes whichever of them its map iteration meets. */
  predicate Oldest(cache: map<Key, Entry>, victim: Key) {
    victim in cache && forall other :: other in cache ==> cache[victim].expiresAt <= cache[other].expiresAt
  }

  function Put(cache: map<Key, Entry>, key: Key, state: IssueState, now1: Instant, now2: Instant, victim: Key)
    : map<Key, Entry>
  {
    var pruned := Prune(cache, now1);
    var room := if |pruned| >= MAX_CACHE_ENTRIES then pruned - {victim} else pruned;
    room[key := Entry(state, now2 + TIME_TO_LIVE)]
  }

  function Begin(s: State, key: Key, shared: bool): State {
    var next := Generation(s, key) + 1;
    var one := if shared then 1 else 0;
    s.(generation := s.generation[key := next],
       fetches := s.fetches + [Fetch(key, next, shared, one, false, false, s.tick, 0, one)],
       inFlight := if shared then s.inFlight[key := |s.fetches|] else s.inFlight)
  }

  /** The fetch may still be stored when it completes. */
  predicate Current(s: State, id: nat)
    requires id < |s.fetches|
  {
    !s.fetches[id].abandoned && Generation(s, s.fetches[id].key) == s.fetches[id].generation
  }

  function Finish(s: State, id: nat): State
    requires id < |s.fetches|
  {
    var f := s.fetches[id];
    var done := f.(finished := true, closes := if f.shared then f.closes + 1 else f.closes);
    s.(fetches := s.fetches[id := done],
       inFlight := if f.shared && f.key in s.inFlight && s.inFlight[f.key] == id
                   then s.inFlight - {f.key} else s.inFlight)
  }

  function Store(s: State, id: nat, state: IssueState, now1: Instant, now2: Instant, victim: Key): State
    requires id < |s.fetches|
  {
    var f := s.fetches[id];
    s.(cache := Put(s.cache, f.key, state, now1, now2, victim),
       source := s.source[f.key := id],
       stored := s.stored[f.key := Log(s, f.key) + [f.generation]])
  }

  predicate Stores(s: State, e: Event) {
    e.Complete? && e.id < |s.fetches| && Cacheable(e.state) && Current(s, e.id)
  }

  /** What the environment can do next: a fetch completes once, a reader leaves or returns from a
      flight it is blocked on, and the evicted entry is an oldest one. */
  predicate Enabled(s: State, e: Event) {
    match e
    case Read(_, _, _) => true
    case BeginRefresh(_) => true
    case Complete(id, state, now1, _, victim) =>
      && id < |s.fetches| && !s.fetches[id].finished
      && (Stores(s, e) && |Prune(s.cache, now1)| >= MAX_CACHE_ENTRIES ==> Oldest(Prune(s.cache, now1), victim))
    case Leave(id) => id < |s.fetches| && s.fetches[id].shared && s.fetches[id].callers > 0
    case Return(id) =>
      id < |s.fetches| && s.fetches[id].shared && s.fetches[id].callers > 0 && s.fetches[id].finished
    case Invalidate(_) => true
  }

  predicate Hits(s: State, key: Key, now1: Instant, now2: Instant) {
    var pruned := Prune(s.cache, now1);
    key in pruned && now2 < pruned[key].expiresAt
  }

  function Join(s: State, id: nat): State
    requires id < |s.fetches|
  {
    var f := s.fetches[id];
    s.(fetches := s.fetches[id := f.(waiters := f.waiters + 1, callers := f.callers + 1)])
  }

  function AfterRead(s: State, key: Key, now1: Instant, now2: Instant): State {
    var pruned := s.(cache := Prune(s.cache, now1));
    if Hits(s, key, now1, now2) then pruned
    else if key in s.inFlight && s.inFlight[key] < |s.fetches| then Join(pruned, s.inFlight[key])
    else Begin(pruned, key, true)
  }

  function AfterLeave(s: State, id: nat): State
    requires id < |s.fetches| && s.fetches[id].callers > 0
  {
    var f := s.fetches[id];
    s.(fetches := s.fetches[id := f.(waiters := f.waiters - 1, callers := f.callers - 1,
                                     abandoned := f.abandoned || f.waiters == 1)])
  }

  function AfterInvalidate(s: State, workspace: string): State {
    s.(cache := map key | key in s.cache && !OwnedBy(key, workspace) :: s.cache[key],
       generation := map key | key in s.generation ::
         if OwnedBy(key, workspace) then s.generation[key] + 1 else s.generation[key],
       invalidatedAt := s.invalidatedAt[workspace := s.tick])
  }

  function Effect(s: State, e: Event): State
    requires Enabled(s, e)
  {
    match e
    case Read(key, now1, now2) => AfterRead(s, key, now1, now2)
    case BeginRefresh(key) => Begin(s, key, false)
    case Complete(id, state, now1, now2, victim) =>
      if Stores(s, e) then Store(Finish(s, id), id, state, now1, now2, victim) else Finish(s, id)
    case Leave(id) => AfterLeave(s, id)
    case Return(id) =>
      s.(fetches := s.fetches[id := s.fetches[id].(callers := s.fetches[id].callers - 1)])
    case Invalidate(workspace) => AfterInvalidate(s, workspace)
  }

  function Step(s: State, e: Event): State
    requires Enabled(s, e)
  {
    Effect(s, e).(tick := s.tick + 1)
  }

  predicate IsRun(s: State, events: seq<Event>)
    decreases |events|
  {
    events == [] || (Enabled(s, events[0]) && IsRun(Step(s, events[0]), events[1..]))
  }

  function Run(s: State, events: seq<Event>): State
    requires IsRun(s, events)
    decreases |events|
  {
    if events == [] then s else Run(Step(s, events[0]), events[1..])
  }

  // ---------------------------------------------------------------- invariant

  /** The fetch began after every invalidation of a workspace that owns its key. */
  ghost predicate Fresh(s: State, f: Fetch) {
    forall w :: w in s.invalidatedAt && OwnedBy(f.key, w) ==> s.invalidatedAt[w] < f.begunAt
  }

  ghost predicate Increasing(log: seq<nat>) {
    forall i, j :: 0 <= i < j < |log| ==> log[i] < log[j]
  }

  ghost predicate FetchInv(s: State, i: nat)
    requires i < |s.fetches|
  {
    var f := s.fetches[i];
    && f.begunAt < s.tick
    && 1 <= f.generation <= Generation(s, f.key)
    && (f.generation == Generation(s, f.key) ==> Fresh(s, f))
    && (!f.finished ==> f.generation !in Log(s, f.key))
    && (f.shared ==> f.closes == if f.finished then 1 else 0)
    && (f.shared && !f.finished ==> f.key in s.inFlight && s.inFlight[f.key] == i)
    && WaitersInv(f)
  }

  /** Until it completes, a flight counts exactly its readers, and it is cancelled once it has none. */
  ghost predicate WaitersInv(f: Fetch) {
    f.shared && !f.finished ==> f.waiters == f.callers && (f.waiters == 0 ==> f.abandoned)
  }

  ghost predicate EntryInv(s: State, key: Key)
    requires key in s.cache
  {
    && Cacheable(s.cache[key].state)
    && key in s.source && s.source[key] < |s.fetches|
    && var f := s.fetches[s.source[key]];
      && f.key == key && f.finished && Fresh(s, f)
      && Log(s, key) != [] && Log(s, key)[|Log(s, key)| - 1] == f.generation
  }

  ghost predicate LogInv(s: State, key: Key)
    requires key in s.stored
  {
    Increasing(s.stored[key]) && forall g :: g in s.stored[key] ==> g <= Generation(s, key)
  }

  ghost predicate FlightInv(s: State, key: Key)
    requires key in s.inFlight
  {
    && s.inFlight[key] < |s.fetches|
    && var f := s.fetches[s.inFlight[key]]; f.key == key && f.shared && !f.finished
  }

  ghost predicate FetchesInv(s: State) {
    forall i :: 0 <= i < |s.fetches| ==> FetchInv(s, i)
  }

  ghost predicate Ordered(f: Fetch, g: Fetch) {
    f.key == g.key ==> f.generation < g.generation
  }

  /** Two fetches of one key are told apart by their generations. */
  ghost predicate GenerationsGrow(s: State) {
    forall i, j {:trigger Ordered(s.fetches[i], s.fetches[j])} :: 0 <= i < j < |s.fetches| ==>
      Ordered(s.fetches[i], s.fetches[j])
  }

  ghost predicate EntriesInv(s: State) {
    forall key {:trigger EntryInv(s, key)} :: key in s.cache ==> EntryInv(s, key)
  }

  ghost predicate LogsInv(s: State) {
    forall key {:trigger LogInv(s, key)} :: key in s.stored ==> LogInv(s, key)
  }

  ghost predicate FlightsInv(s: State) {
    forall key {:trigger FlightInv(s, key)} :: key in s.inFlight ==> FlightInv(s, key)
  }

  ghost predicate Inv(s: State) {
    && |s.cache| <= MAX_CACHE_ENTRIES
    && FetchesInv(s) && GenerationsGrow(s) && EntriesInv(s) && LogsInv(s) && FlightsInv(s)
    && (forall w :: w in s.invalidatedAt ==> s.invalidatedAt[w] < s.tick)
  }

  lemma PutSize(cache: map<Key, Entry>, key: Key, entry: Entry)
    ensures |cache[key := entry]| <= |cache| + 1
  {
    assert cache[key := entry].Keys == cache.Keys + {key};
  }

  lemma DropSize(cache: map<Key, Entry>, victim: Key)
    requires victim in cache
    ensures |cache - {victim}| == |cache| - 1
  {
    assert (cache - {victim}).Keys == cache.Keys - {victim};
  }

  lemma PutBound(cache: map<Key, Entry>, key: Key, state: IssueState, now1: Instant, now2: Instant, victim: Key)
    requires |cache| <= MAX_CACHE_ENTRIES
    requires |Prune(cache, now1)| >= MAX_CACHE_ENTRIES ==> Oldest(Prune(cache, now1), victim)
    ensures |Put(cache, key, state, now1, now2, victim)| <= MAX_CACHE_ENTRIES
  {
    var pruned := Prune(cache, now1);
    SubsetSize(pruned.Keys, cache.Keys);
    if |pruned| >= MAX_CACHE_ENTRIES {
      DropSize(pruned, victim);
      PutSize(pruned - {victim}, key, Entry(state, now2 + TIME_TO_LIVE));
    } else {
      PutSize(pruned, key, Entry(state, now2 + TIME_TO_LIVE));
    }
  }

  // What each part of the invariant depends on.

  /** Every fetch of `was` is still there, with its key, generation and start. */
  ghost predicate Extends(was: seq<Fetch>, now: seq<Fetch>) {
    && |was| <= |now|
    && forall i :: 0 <= i < |was| ==>
      && now[i].key == was[i].key && now[i].generation == was[i].generation
      && now[i].begunAt == was[i].begunAt && now[i].shared == was[i].shared
      && (was[i].finished ==> now[i].finished)
  }

  lemma EntriesFrame(s: State, t: State)
    requires EntriesInv(s) && Extends(s.fetches, t.fetches)
    requires forall k :: k in t.cache ==> k in s.cache && t.cache[k] == s.cache[k]
    requires t.source == s.source && t.stored == s.stored
    requires forall k, w :: k in t.cache && w in t.invalidatedAt && OwnedBy(k, w) ==>
      w in s.invalidatedAt && s.invalidatedAt[w] == t.invalidatedAt[w]
    ensures EntriesInv(t)
  {
    forall k | k in t.cache ensures EntryInv(t, k) {
      assert EntryInv(s, k);
    }
  }

  lemma LogsFrame(s: State, t: State)
    requires LogsInv(s) && t.stored == s.stored
    requires forall k :: Generation(s, k) <= Generation(t, k)
    ensures LogsInv(t)
  {
    forall k | k in t.stored ensures LogInv(t, k) {
      assert LogInv(s, k);
    }
  }

  lemma GenerationsFrame(s: State, t: State)
    requires GenerationsGrow(s) && Extends(s.fetches, t.fetches) && |t.fetches| == |s.fetches|
    ensures GenerationsGrow(t)
  {
    forall i, j | 0 <= i < j < |t.fetches| ensures Ordered(t.fetches[i], t.fetches[j]) {
      assert Ordered(s.fetches[i], s.fetches[j]);
    }
  }

  lemma FlightsFrame(s: State, t: State)
    requires FlightsInv(s) && Extends(s.fetches, t.fetches)
    requires forall k :: k in t.inFlight ==>
      k in s.inFlight && t.inFlight[k] == s.inFlight[k] < |t.fetches| && !t.fetches[t.inFlight[k]].finished
    ensures FlightsInv(t)
  {
    forall k | k in t.inFlight ensures FlightInv(t, k) {
      assert FlightInv(s, k);
    }
  }

  /** Fetches that may have changed only in `waiters`, `callers` and `abandoned`. */
  lemma FetchesFrame(s: State, t: State)
    requires FetchesInv(s) && Extends(s.fetches, t.fetches) && |t.fetches| == |s.fetches|
    requires t.generation == s.generation && t.stored == s.stored && t.inFlight == s.inFlight
    requires t.invalidatedAt == s.invalidatedAt && s.tick <= t.tick
    requires forall i :: 0 <= i < |t.fetches| ==>
      && t.fetches[i].finished == s.fetches[i].finished && t.fetches[i].closes == s.fetches[i].closes
      && (t.fetches[i] == s.fetches[i] || WaitersInv(t.fetches[i]))
    ensures FetchesInv(t)
  {
    forall i | 0 <= i < |t.fetches| ensures FetchInv(t, i) {
      assert FetchInv(s, i);
    }
  }

  lemma PruneKeepsInv(s: State, now: Instant)
    requires Inv(s)
    ensures Inv(s.(cache := Prune(s.cache, now)))
  {
    var t := s.(cache := Prune(s.cache, now));
    SubsetSize(t.cache.Keys, s.cache.Keys);
    EntriesFrame(s, t);
    LogsFrame(s, t);
    FlightsFrame(s, t) by { assert forall k :: k in s.inFlight ==> FlightInv(s, k); }
    FetchesFrame(s, t);
  }

  lemma UpdateKeepsInv(s: State, id: nat, f: Fetch)
    requires Inv(s) && id < |s.fetches|
    requires f == s.fetches[id].(waiters := f.waiters, callers := f.callers, abandoned := f.abandoned)
    requires WaitersInv(f)
    ensures Inv(s.(fetches := s.fetches[id := f], tick := s.tick + 1))
  {
    var t := s.(fetches := s.fetches[id := f], tick := s.tick + 1);
    GenerationsFrame(s, t);
    EntriesFrame(s, t);
    LogsFrame(s, t);
    FlightsFrame(s, t) by { assert forall k :: k in s.inFlight ==> FlightInv(s, k); }
    FetchesFrame(s, t);
  }

  lemma TickKeepsInv(s: State)
    requires Inv(s)
    ensures Inv(s.(tick := s.tick + 1))
  {
    var t := s.(tick := s.tick + 1);
    EntriesFrame(s, t);
    LogsFrame(s, t);
    FlightsFrame(s, t) by { assert forall k :: k in s.inFlight ==> FlightInv(s, k); }
    FetchesFrame(s, t);
  }

  lemma BeginFetches(s: State, key: Key, shared: bool)
    requires FetchesInv(s) && GenerationsGrow(s) && LogsInv(s) && (shared ==> key !in s.inFlight)
    requires forall w :: w in s.invalidatedAt ==> s.invalidatedAt[w] < s.tick
    ensures FetchesInv(Begin(s, key, shared).(tick := s.tick + 1))
    ensures GenerationsGrow(Begin(s, key, shared))
  {
    var t := Begin(s, key, shared).(tick := s.tick + 1);
    forall i | 0 <= i < |t.fetches| ensures FetchInv(t, i) {
      if i < |s.fetches| {
        assert FetchInv(s, i);
      } else if key in s.stored {
        assert LogInv(s, key);
      }
    }
    forall i, j | 0 <= i < j < |t.fetches| ensures Ordered(t.fetches[i], t.fetches[j]) {
      assert FetchInv(s, i);
      if j < |s.fetches| { assert Ordered(s.fetches[i], s.fetches[j]); }
    }
  }

  lemma BeginFlights(s: State, key: Key, shared: bool)
    requires FlightsInv(s) && (shared ==> key !in s.inFlight)
    ensures FlightsInv(Begin(s, key, shared))
  {
    var t := Begin(s, key, shared);
    forall k | k in t.inFlight ensures FlightInv(t, k) {
      if k in s.inFlight { assert FlightInv(s, k); }
    }
  }

  lemma BeginKeepsInv(s: State, key: Key, shared: bool)
    requires Inv(s) && (shared ==> key !in s.inFlight)
    ensures Inv(Begin(s, key, shared).(tick := s.tick + 1))
  {
    var t := Begin(s, key, shared).(tick := s.tick + 1);
    BeginFetches(s, key, shared);
    BeginFlights(s, key, shared);
    EntriesFrame(s, t);
    LogsFrame(s, t);
    FlightsFrame(Begin(s, key, shared), t)
      by { assert forall k :: k in t.inFlight ==> FlightInv(Begin(s, key, shared), k); }
  }

  lemma ReadKeepsInv(s: State, e: Event)
    requires Inv(s) && e.Read?
    ensures Inv(Step(s, e))
  {
    var pruned := s.(cache := Prune(s.cache, e.now1));
    PruneKeepsInv(s, e.now1);
    if Hits(s, e.key, e.now1, e.now2) {
      TickKeepsInv(pruned);
    } else if e.key in s.inFlight {
      var id := s.inFlight[e.key];
      assert FlightInv(s, e.key) && FetchInv(s, id);
      var f := s.fetches[id];
      UpdateKeepsInv(pruned, id, f.(waiters := f.waiters + 1, callers := f.callers + 1));
    } else {
      BeginKeepsInv(pruned, e.key, true);
    }
  }

  lemma FinishFetches(s: State, id: nat)
    requires FetchesInv(s) && id < |s.fetches| && !s.fetches[id].finished
    ensures FetchesInv(Finish(s, id))
  {
    var t := Finish(s, id);
    assert FetchInv(s, id);
    forall i | 0 <= i < |t.fetches| ensures FetchInv(t, i) {
      assert FetchInv(s, i);
    }
  }

  lemma FinishKeepsInv(s: State, id: nat)
    requires Inv(s) && id < |s.fetches| && !s.fetches[id].finished
    ensures Inv(Finish(s, id))
  {
    var t := Finish(s, id);
    FinishFetches(s, id);
    GenerationsFrame(s, t);
    EntriesFrame(s, t);
    LogsFrame(s, t);
    FlightsFrame(s, t) by {
      assert FetchInv(s, id);
      assert forall k :: k in s.inFlight ==> FlightInv(s, k);
    }
  }

  /** The finished fetch `id` may be stored in `s`, evicting `victim` if the cache is full. */
  ghost predicate Storable(s: State, id: nat, state: IssueState, now: Instant, victim: Key) {
    && id < |s.fetches| && s.fetches[id].finished && Cacheable(state)
    && Generation(s, s.fetches[id].key) == s.fetches[id].generation
    && s.fetches[id].generation !in Log(s, s.fetches[id].key)
    && (|Prune(s.cache, now)| >= MAX_CACHE_ENTRIES ==> Oldest(Prune(s.cache, now), victim))
  }

  /** A generation that is new to the log and not below any logged one extends it. */
  lemma Append(log: seq<nat>, g: nat)
    requires Increasing(log) && g !in log && forall h :: h in log ==> h <= g
    ensures Increasing(log + [g])
  {
    forall i, j | 0 <= i < j < |log + [g]| ensures (log + [g])[i] < (log + [g])[j] {
      assert log[i] in log;
    }
  }

  lemma StoreLogs(s: State, id: nat, state: IssueState, now1: Instant, now2: Instant, victim: Key)
    requires LogsInv(s) && Storable(s, id, state, now1, victim)
    ensures LogsInv(Store(s, id, state, now1, now2, victim))
  {
    var f := s.fetches[id];
    var t := Store(s, id, state, now1, now2, victim);
    if f.key in s.stored { assert LogInv(s, f.key); }
    Append(Log(s, f.key), f.generation);
    forall k | k in t.stored ensures LogInv(t, k) {
      if k != f.key { assert LogInv(s, k); }
    }
  }

  /** The other fetches of the key keep generations the log does not have. */
  lemma StoreFetches(s: State, id: nat, state: IssueState, now1: Instant, now2: Instant, victim: Key)
    requires FetchesInv(s) && GenerationsGrow(s) && Storable(s, id, state, now1, victim)
    ensures FetchesInv(Store(s, id, state, now1, now2, victim))
  {
    var f := s.fetches[id];
    var t := Store(s, id, state, now1, now2, victim);
    forall i | 0 <= i < |t.fetches| ensures FetchInv(t, i) {
      assert FetchInv(s, i);
      if s.fetches[i].key == f.key && i != id {
        assert if i < id then Ordered(s.fetches[i], f) else Ordered(f, s.fetches[i]);
      }
    }
  }

  lemma StoreEntries(s: State, id: nat, state: IssueState, now1: Instant, now2: Instant, victim: Key)
    requires EntriesInv(s) && FetchesInv(s) && Storable(s, id, state, now1, victim)
    ensures EntriesInv(Store(s, id, state, now1, now2, victim))
  {
    var f := s.fetches[id];
    var t := Store(s, id, state, now1, now2, victim);
    assert FetchInv(s, id);
    forall k | k in t.cache ensures EntryInv(t, k) {
      if k != f.key { assert EntryInv(s, k); }
    }
  }

  lemma StoreKeepsInv(s: State, id: nat, state: IssueState, now1: Instant, now2: Instant, victim: Key)
    requires Inv(s) && Storable(s, id, state, now1, victim)
    ensures Inv(Store(s, id, state, now1, now2, victim))
  {
    var t := Store(s, id, state, now1, now2, victim);
    PutBound(s.cache, s.fetches[id].key, state, now1, now2, victim);
    StoreLogs(s, id, state, now1, now2, victim);
    StoreFetches(s, id, state, now1, now2, victim);
    StoreEntries(s, id, state, now1, now2, victim);
    FlightsFrame(s, t) by { assert forall k :: k in s.inFlight ==> FlightInv(s, k); }
  }

  lemma FinishedIsStorable(s: State, e: Event)
    requires FetchesInv(s) && Enabled(s, e) && Stores(s, e)
    ensures Storable(Finish(s, e.id), e.id, e.state, e.now1, e.victim)
  {
    assert FetchInv(s, e.id);
  }

  lemma StoredKeepsInv(s: State, id: nat, state: IssueState, now1: Instant, now2: Instant, victim: Key)
    requires Inv(s) && id < |s.fetches| && !s.fetches[id].finished
    requires Storable(Finish(s, id), id, state, now1, victim)
    ensures Inv(Store(Finish(s, id), id, state, now1, now2, victim).(tick := s.tick + 1))
  {
    FinishKeepsInv(s, id);
    StoreKeepsInv(Finish(s, id), id, state, now1, now2, victim);
    TickKeepsInv(Store(Finish(s, id), id, state, now1, now2, victim));
  }

  lemma CompleteKeepsInv(s: State, e: Event)
    requires Inv(s) && Enabled(s, e) && e.Complete?
    ensures Inv(Step(s, e))
  {
    if Stores(s, e) {
      FinishedIsStorable(s, e);
      StoredKeepsInv(s, e.id, e.state, e.now1, e.now2, e.victim);
    } else {
      FinishKeepsInv(s, e.id);
      TickKeepsInv(Finish(s, e.id));
    }
  }

  /** The generation of every key of the workspace passes the fetches already begun for it. */
  lemma InvalidateFetches(s: State, workspace: string)
    requires FetchesInv(s)
    ensures FetchesInv(Step(s, Invalidate(workspace)))
  {
    var t := Step(s, Invalidate(workspace));
    forall i | 0 <= i < |t.fetches| ensures FetchInv(t, i) {
      assert FetchInv(s, i);
    }
  }

  lemma InvalidateKeepsInv(s: State, workspace: string)
    requires Inv(s)
    ensures Inv(Step(s, Invalidate(workspace)))
  {
    var t := Step(s, Invalidate(workspace));
    SubsetSize(t.cache.Keys, s.cache.Keys);
    InvalidateFetches(s, workspace);
    EntriesFrame(s, t);
    LogsFrame(s, t);
    FlightsFrame(s, t) by { assert forall k :: k in s.inFlight ==> FlightInv(s, k); }
  }

  lemma StepKeepsInv(s: State, e: Event)
    requires Inv(s) && Enabled(s, e)
    ensures Inv(Step(s, e))
  {
    match e
    case Read(_, _, _) => ReadKeepsInv(s, e);
    case BeginRefresh(key) => BeginKeepsInv(s, key, false);
    case Complete(_, _, _, _, _) => CompleteKeepsInv(s, e);
    case Leave(id) =>
      assert FetchInv(s, id);
      UpdateKeepsInv(s, id, Effect(s, e).fetches[id]);
    case Return(id) =>
      assert FetchInv(s, id);
      UpdateKeepsInv(s, id, Effect(s, e).fetches[id]);
    case Invalidate(workspace) => InvalidateKeepsInv(s, workspace);
  }

  lemma {:induction false} RunKeepsInv(s: State, events: seq<Event>)
    requires Inv(s) && IsRun(s, events)
    ensures Inv(Run(s, events))
    decreases |events|
  {
    if events != [] {
      StepKeepsInv(s, events[0]);
      RunKeepsInv(Step(s, events[0]), events[1..]);
    }
  }

  lemma EmptyInv()
    ensures Inv(EMPTY)
  {
  }

  // ------------------------------------------------------------------ results

  /** What a reader of the cache relies on, whatever the interleaving that led to `s`. */
  ghost predicate Safe(s: State) {
    && |s.cache| <= MAX_CACHE_ENTRIES
    // An entry came from a completed fetch of its key, begun after the last invalidation.
    && (forall key :: key in s.cache ==>
          && key in s.source && s.source[key] < |s.fetches|
          && s.fetches[s.source[key]].key == key && s.fetches[s.source[key]].finished
          && forall w :: w in s.invalidatedAt && OwnedBy(key, w) ==>
               s.invalidatedAt[w] < s.fetches[s.source[key]].begunAt)
    // Entries are stored under a key with ever larger generations.
    && (forall key :: key in s.stored ==> Increasing(s.stored[key]))
    // A key has one unfinished flight at most, and it is the one readers find.
    && (forall i :: 0 <= i < |s.fetches| && s.fetches[i].shared && !s.fetches[i].finished ==>
          s.fetches[i].key in s.inFlight && s.inFlight[s.fetches[i].key] == i)
    && (forall key :: key in s.inFlight ==>
          s.inFlight[key] < |s.fetches| && !s.fetches[s.inFlight[key]].finished)
    // A flight's channel is closed once, when its fetch completes.
    && (forall i :: 0 <= i < |s.fetches| && s.fetches[i].shared ==>
          s.fetches[i].closes == if s.fetches[i].finished then 1 else 0)
  }

  lemma InvIsSafe(s: State)
    requires Inv(s)
    ensures Safe(s)
  {
    forall key | key in s.cache ensures EntryInv(s, key) {}
    forall key | key in s.stored ensures LogInv(s, key) {}
    forall key | key in s.inFlight ensures FlightInv(s, key) {}
    forall i | 0 <= i < |s.fetches| && s.fetches[i].shared
      ensures s.fetches[i].closes == if s.fetches[i].finished then 1 else 0
      ensures !s.fetches[i].finished ==> s.fetches[i].key in s.inFlight && s.inFlight[s.fetches[i].key] == i
    {
      assert FetchInv(s, i);
    }
  }

  lemma EveryRunIsSafe(events: seq<Event>)
    requires IsRun(EMPTY, events)
    ensures Safe(Run(EMPTY, events))
  {
    EmptyInv();
    RunKeepsInv(EMPTY, events);
    InvIsSafe(Run(EMPTY, events));
  }

  lemma ReadOnlyDrops(s: State, key: Key, now1: Instant, now2: Instant, other: Key)
    requires other in AfterRead(s, key, now1, now2).cache
    ensures other in s.cache && AfterRead(s, key, now1, now2).cache[other] == s.cache[other]
  {
    assert AfterRead(s, key, now1, now2).cache == Prune(s.cache, now1);
  }

  lemma OtherStepsOnlyDropEntries(s: State, e: Event, key: Key)
    requires Enabled(s, e) && !Stores(s, e) && key in Step(s, e).cache
    ensures key in s.cache && Step(s, e).cache[key] == s.cache[key]
  {
    match e
    case Read(k, now1, now2) => ReadOnlyDrops(s, k, now1, now2, key);
    case BeginRefresh(_) =>
    case Complete(_, _, _, _, _) =>
    case Leave(_) =>
    case Return(_) =>
    case Invalidate(_) =>
  }

  /** The only way into the cache: a completion of a fetch that was not abandoned and that no
      later fetch or invalidation of its key has overtaken. */
  lemma OnlyCurrentFetchesAreStored(s: State, e: Event, key: Key)
    requires Enabled(s, e) && key in Step(s, e).cache
    requires key !in s.cache || Step(s, e).cache[key] != s.cache[key]
    ensures Stores(s, e) && s.fetches[e.id].key == key
    ensures !s.fetches[e.id].abandoned && s.fetches[e.id].generation == Generation(s, key)
    ensures Step(s, e).cache[key] == Entry(e.state, e.now2 + TIME_TO_LIVE) && Cacheable(e.state)
    ensures Step(s, e).source[key] == e.id
    ensures Log(Step(s, e), key) == Log(s, key) + [s.fetches[e.id].generation]
  {
    if !Stores(s, e) {
      OtherStepsOnlyDropEntries(s, e, key);
      assert false;
    }
    assert key == s.fetches[e.id].key;
  }

  lemma GenerationsNeverDrop(s: State, e: Event, key: Key)
    requires Enabled(s, e)
    ensures Generation(s, key) <= Generation(Step(s, e), key)
  {
    match e
    case Read(_, _, _) => ReadNeverDrops(s, e, key);
    case BeginRefresh(_) =>
    case Complete(_, _, _, _, _) => CompleteKeepsGenerations(s, e);
    case Leave(_) =>
    case Return(_) =>
    case Invalidate(workspace) => InvalidateNeverDrops(s, workspace, key);
  }

  lemma ReadNeverDrops(s: State, e: Event, key: Key)
    requires Enabled(s, e) && e.Read?
    ensures Generation(s, key) <= Generation(Step(s, e), key)
  {
  }

  lemma CompleteKeepsGenerations(s: State, e: Event)
    requires Enabled(s, e) && e.Complete?
    ensures Step(s, e).generation == s.generation
  {
    FinishKeepsGenerations(s, e.id);
    if Stores(s, e) { StoreKeepsGenerations(Finish(s, e.id), e.id, e.state, e.now1, e.now2, e.victim); }
  }

  lemma FinishKeepsGenerations(s: State, id: nat)
    requires id < |s.fetches|
    ensures Finish(s, id).generation == s.generation && |Finish(s, id).fetches| == |s.fetches|
  {
  }

  lemma StoreKeepsGenerations(s: State, id: nat, state: IssueState, now1: Instant, now2: Instant, victim: Key)
    requires id < |s.fetches|
    ensures Store(s, id, state, now1, now2, victim).generation == s.generation
  {
  }

  lemma InvalidateNeverDrops(s: State, workspace: string, key: Key)
    ensures Generation(s, key) <= Generation(Step(s, Invalidate(workspace)), key)
  {
  }

  lemma ReadExtends(s: State, key: Key, now1: Instant, now2: Instant)
    ensures Extends(s.fetches, AfterRead(s, key, now1, now2).fetches)
  {
  }

  lemma LeaveExtends(s: State, id: nat)
    requires id < |s.fetches| && s.fetches[id].callers > 0
    ensures Extends(s.fetches, AfterLeave(s, id).fetches)
  {
  }

  lemma FetchesKeepTheirGeneration(s: State, e: Event)
    requires Enabled(s, e)
    ensures Extends(s.fetches, Step(s, e).fetches)
  {
    match e
    case Read(key, now1, now2) => ReadExtends(s, key, now1, now2);
    case BeginRefresh(_) =>
    case Complete(id, _, _, _, _) => assert Extends(s.fetches, Finish(s, id).fetches);
    case Leave(id) => LeaveExtends(s, id);
    case Return(_) =>
    case Invalidate(_) =>
  }

  /** A fetch overtaken by an invalidation of its workspace, or by a later fetch of its key, stays so. */
  ghost predicate Overtaken(s: State, id: nat) {
    id < |s.fetches| && s.fetches[id].generation < Generation(s, s.fetches[id].key)
  }

  lemma OvertakenStaysOvertaken(s: State, e: Event, id: nat)
    requires Enabled(s, e) && Overtaken(s, id)
    ensures Overtaken(Step(s, e), id) && Step(s, e).fetches[id].key == s.fetches[id].key
  {
    GenerationsNeverDrop(s, e, s.fetches[id].key);
    FetchesKeepTheirGeneration(s, e);
  }

  lemma InvalidationOvertakes(s: State, workspace: string, id: nat)
    requires Inv(s) && id < |s.fetches| && OwnedBy(s.fetches[id].key, workspace)
    ensures Overtaken(Step(s, Invalidate(workspace)), id)
  {
    assert FetchInv(s, id);
  }

  lemma {:induction false} StaysOvertaken(s: State, events: seq<Event>, id: nat)
    requires IsRun(s, events) && Overtaken(s, id)
    ensures Overtaken(Run(s, events), id)
    decreases |events|
  {
    if events != [] {
      OvertakenStaysOvertaken(s, events[0], id);
      StaysOvertaken(Step(s, events[0]), events[1..], id);
    }
  }

  /** So whatever comes between, a fetch begun before an invalidation is not stored after it. */
  lemma NeverStoredAfterInvalidation(s: State, workspace: string, later: seq<Event>, e: Event)
    requires Inv(s) && IsRun(Step(s, Invalidate(workspace)), later)
    requires e.Complete? && e.id < |s.fetches| && OwnedBy(s.fetches[e.id].key, workspace)
    requires Enabled(Run(Step(s, Invalidate(workspace)), later), e)
    ensures !Stores(Run(Step(s, Invalidate(workspace)), later), e)
  {
    InvalidationOvertakes(s, workspace, e.id);
    StaysOvertaken(Step(s, Invalidate(workspace)), later, e.id);
  }

  // ------------------------------------------------------------------ what is kept, and for how long

  predicate WorthKeeping(state: IssueState) {
    match state
    case Available(_) => true
    case NotFound => true
    case AuthenticationFailed => false
    case Forbidden => false
    case Unavailable => false
  }

  /** Storing drops what has expired and, if 256 entries have not, one of those that expire first. */
  lemma StoringKeeps(
    cache: map<Key, Entry>, key: Key, state: IssueState, now1: Instant, now2: Instant, victim: Key, other: Key)
    requires other != key
    ensures var after := Put(cache, key, state, now1, now2, victim);
      var live := set k | k in cache && now1 < cache[k].expiresAt;
      && (other in after <==> other in live && !(|live| >= 256 && other == victim))
      && (other in after ==> after[other] == cache[other])
  {
    assert Prune(cache, now1).Keys == set k | k in cache && now1 < cache[k].expiresAt;
  }

  /** A completion stores a state worth keeping of a fetch that nobody abandoned and nothing overtook. */
  lemma CompletionStores(s: State, id: nat, state: IssueState, now1: Instant, now2: Instant, victim: Key)
    requires Enabled(s, Complete(id, state, now1, now2, victim)) && s.fetches[id].key in s.generation
    ensures var t, f := Step(s, Complete(id, state, now1, now2, victim)), s.fetches[id];
      if WorthKeeping(state) && !f.abandoned && s.generation[f.key] == f.generation then
        f.key in t.cache && t.cache[f.key] == Entry(state, now2 + 300)
      else t.cache == s.cache
  {
    assert Stores(s, Complete(id, state, now1, now2, victim)) <==>
      WorthKeeping(state) && !s.fetches[id].abandoned && s.generation[s.fetches[id].key] == s.fetches[id].generation;
  }

  lemma FinishLeaves(s: State, id: nat, key: Key)
    requires id < |s.fetches| && (key in s.inFlight && s.inFlight[key] == id ==> FlightInv(s, key))
    ensures key in Finish(s, id).inFlight <==> key in s.inFlight && s.inFlight[key] != id
  {
  }

  lemma CompletionKeepsFlights(s: State, e: Event)
    requires Enabled(s, e) && e.Complete?
    ensures Step(s, e).inFlight == Finish(s, e.id).inFlight && Step(s, e).fetches == Finish(s, e.id).fetches
  {
  }

  /** It takes its own flight from the table and no other. */
  lemma CompletionEndsItsFlight(s: State, e: Event)
    requires Inv(s) && Enabled(s, e) && e.Complete?
    ensures Step(s, e).fetches[e.id].finished
    ensures forall key :: key in Step(s, e).inFlight <==> key in s.inFlight && s.inFlight[key] != e.id
  {
    CompletionKeepsFlights(s, e);
    forall key ensures key in Finish(s, e.id).inFlight <==> key in s.inFlight && s.inFlight[key] != e.id {
      assert key in s.inFlight ==> FlightInv(s, key);
      FinishLeaves(s, e.id, key);
    }
  }

  /** For five minutes after a fetch was stored its key is served from the cache, without another call. */
  lemma StoredIsServed(
    s: State, id: nat, state: IssueState, now1: Instant, now: Instant, victim: Key, at1: Instant, at2: Instant)
    requires Enabled(s, Complete(id, state, now1, now, victim)) && WorthKeeping(state) && !s.fetches[id].abandoned
    requires s.fetches[id].key in s.generation && s.generation[s.fetches[id].key] == s.fetches[id].generation
    requires at1 < now + 300 && at2 < now + 300
    ensures var t := Step(s, Complete(id, state, now1, now, victim));
      var key := s.fetches[id].key;
      var u := Step(t, Read(key, at1, at2));
      && key in t.cache && t.cache[key].state == state && at1 < t.cache[key].expiresAt && at2 < t.cache[key].expiresAt
      && key in u.cache && u.cache[key] == t.cache[key]
      && u.fetches == t.fetches && u.inFlight == t.inFlight && u.generation == t.generation
  {
    CompletionStores(s, id, state, now1, now, victim);
  }

  /** And from then on it is not. */
  lemma ExpiredIsFetched(s: State, key: Key, at1: Instant, at2: Instant)
    requires key in s.cache && (at1 >= s.cache[key].expiresAt || at2 >= s.cache[key].expiresAt) && key !in s.inFlight
    ensures var u := Step(s, Read(key, at1, at2));
      && |u.fetches| == |s.fetches| + 1 && u.fetches[|s.fetches|].key == key && u.fetches[|s.fetches|].shared
      && key in u.inFlight && u.inFlight[key] == |s.fetches|
  {
  }

  // ------------------------------------------------------------------ keys

  /** A key names the workspace, what identifies the connection, and the issue, separated by bars. */
  function CacheKey(workspace: string, connection: seq<string>, issue: string): Key {
    workspace + "|" + Barred(connection) + issue
  }

  function Barred(parts: seq<string>): string {
    if parts == [] then "" else parts[0] + "|" + Barred(parts[1..])
  }

  /** Invalidating a workspace reaches all of its keys. */
  lemma OwnKeysAreReached(workspace: string, connection: seq<string>, issue: string)
    ensures OwnedBy(CacheKey(workspace, connection, issue), workspace)
  {
    var rest := Barred(connection) + issue;
    assert CacheKey(workspace, connection, issue) == workspace + "|" + rest;
  }

  lemma FirstBar(left: string, right: string)
    requires '|' !in left
    ensures var s := left + "|" + right;
      s[|left|] == '|' && (forall i :: 0 <= i < |left| ==> s[i] != '|') && left == s[..|left|]
  {
  }

  lemma SplitAtBar(a: string, b: string, u: string, v: string)
    requires '|' !in a && '|' !in b && a + "|" + u == b + "|" + v
    ensures a == b
  {
    FirstBar(a, u);
    FirstBar(b, v);
  }

  /** And none of another's, as long as workspace IDs contain no bar. */
  lemma KeysHaveOneOwner(workspace: string, other: string, connection: seq<string>, issue: string)
    requires '|' !in workspace && '|' !in other
    ensures OwnedBy(CacheKey(workspace, connection, issue), other) <==> other == workspace
  {
    var key, rest := CacheKey(workspace, connection, issue), Barred(connection) + issue;
    OwnKeysAreReached(workspace, connection, issue);
    assert key == workspace + "|" + rest;
    if OwnedBy(key, other) {
      assert key == other + "|" + key[|other| + 1..];
      SplitAtBar(workspace, other, rest, key[|other| + 1..]);
    }
  }

  /** With a bar in its ID a workspace's keys can be reached through another's. */
  lemma BarredKeysAreReached(workspace: string, more: string, connection: seq<string>, issue: string)
    ensures OwnedBy(CacheKey(workspace + "|" + more, connection, issue), workspace)
  {
    var rest := more + "|" + Barred(connection) + issue;
    assert CacheKey(workspace + "|" + more, connection, issue) == workspace + "|" + rest;
  }

  // ------------------------------------------------------------------ service

  datatype Served = Hit(state: IssueState) | Joined(id: nat) | Started(id: nat)

  /** The service. Flight objects live in `fetches`; a reference to one is its index there. Each
      method is one critical section of the mutex; readings of the clock are arguments. */
  class JiraService {
    var cache: map<Key, Entry>
    var inFlight: map<Key, nat>
    var generation: map<Key, nat>
    var fetches: seq<Fetch>
    var tick: nat // history: it dates the fetches
    ghost var invalidatedAt: map<string, nat>
    ghost var source: map<Key, nat>
    ghost var stored: map<Key, seq<nat>>

    ghost function Abs(): State
      reads this
    {
      State(cache, inFlight, generation, fetches, tick, invalidatedAt, source, stored)
    }

    ghost predicate Valid()
      reads this
    {
      Inv(Abs())
    }

    constructor ()
      ensures Abs() == EMPTY && Valid()
    {
      cache, inFlight, generation, fetches := map[], map[], map[], [];
      tick, invalidatedAt, source, stored := 0, map[], map[], map[];
    }

    method PruneCache(now: Instant)
      modifies `cache
      ensures cache == Prune(old(cache), now)
    {
      var keys := cache.Keys;
      while keys != {}
        invariant keys <= cache.Keys
        invariant cache == map key | key in old(cache) && (key in keys || now < old(cache)[key].expiresAt) ::
          old(cache)[key]
        decreases |keys|
      {
        var key :| key in keys;
        if !(now < cache[key].expiresAt) {
          cache := cache - {key};
        }
        keys := keys - {key};
      }
    }

    method OldestKey() returns (victim: Key)
      requires cache != map[]
      ensures Oldest(cache, victim)
    {
      victim :| victim in cache;
      var keys := cache.Keys - {victim};
      while keys != {}
        invariant keys <= cache.Keys && victim in cache
        invariant forall key :: key in cache && key !in keys ==> cache[victim].expiresAt <= cache[key].expiresAt
        decreases |keys|
      {
        var key :| key in keys;
        if cache[key].expiresAt < cache[victim].expiresAt {
          victim := key;
        }
        keys := keys - {key};
      }
    }

    method PutCache(key: Key, state: IssueState, now1: Instant, now2: Instant) returns (ghost victim: Key)
      modifies `cache
      ensures |Prune(old(cache), now1)| >= MAX_CACHE_ENTRIES ==> Oldest(Prune(old(cache), now1), victim)
      ensures cache == Put(old(cache), key, state, now1, now2, victim)
      ensures key in cache && cache[key] == Entry(state, now2 + 300)
    {
      PruneCache(now1);
      victim := "";
      if |cache| >= MAX_CACHE_ENTRIES {
        var oldest := OldestKey();
        cache := cache - {oldest};
        victim := oldest;
      }
      cache := cache[key := Entry(state, now2 + TIME_TO_LIVE)];
    }

    /** Takes the next generation of the key for a new fetch. */
    method BeginFetch(key: Key, shared: bool) returns (id: nat)
      modifies `generation, `fetches, `inFlight
      ensures Abs() == Begin(old(Abs()), key, shared)
      ensures id == |old(fetches)|
    {
      var next := (if key in generation then generation[key] else 0) + 1;
      generation := generation[key := next];
      id := |fetches|;
      if shared {
        inFlight := inFlight[key := id];
        fetches := fetches + [Fetch(key, next, true, 1, false, false, tick, 0, 1)];
      } else {
        fetches := fetches + [Fetch(key, next, false, 0, false, false, tick, 0, 0)];
      }
    }

    method JoinFlight(key: Key) returns (id: nat)
      requires key in inFlight && inFlight[key] < |fetches|
      modifies `fetches
      ensures id == inFlight[key] && Abs() == Join(old(Abs()), id)
    {
      id := inFlight[key];
      var f := fetches[id];
      fetches := fetches[id := f.(waiters := f.waiters + 1, callers := f.callers + 1)];
    }

    /** The start of `issueByKey` without a forced refresh, up to the release of the mutex. */
    method Lookup(key: Key, now1: Instant, now2: Instant) returns (served: Served)
      requires key in inFlight ==> inFlight[key] < |fetches|
      modifies `cache, `generation, `fetches, `inFlight
      ensures Abs() == AfterRead(old(Abs()), key, now1, now2)
      ensures served.Hit? <==>
        key in old(cache) && now1 < old(cache)[key].expiresAt && now2 < old(cache)[key].expiresAt
      ensures served.Hit? ==> served.state == old(cache)[key].state
      ensures served.Hit? ==> inFlight == old(inFlight) && fetches == old(fetches) && generation == old(generation)
      ensures !served.Hit? ==> served.id < |fetches| && key in inFlight && inFlight[key] == served.id
      ensures served.Joined? <==> !served.Hit? && key in old(inFlight)
      ensures served.Joined? ==> generation == old(generation) && inFlight == old(inFlight)
      ensures served.Joined? ==>
        |fetches| == |old(fetches)| && fetches[served.id].waiters == old(fetches)[served.id].waiters + 1
      ensures served.Started? ==> served.id == |old(fetches)| && |fetches| == |old(fetches)| + 1
      ensures served.Started? ==> fetches[served.id].key == key && fetches[served.id].waiters == 1
    {
      PruneCache(now1);
      if key in cache && now2 < cache[key].expiresAt {
        served := Hit(cache[key].state);
      } else if key in inFlight {
        var id := JoinFlight(key);
        served := Joined(id);
      } else {
        var id := BeginFetch(key, true);
        served := Started(id);
      }
    }

    method Read(key: Key, now1: Instant, now2: Instant) returns (served: Served)
      requires Valid()
      modifies this
      ensures Abs() == Step(old(Abs()), Event.Read(key, now1, now2)) && Valid()
      ensures served.Hit? <==>
        key in old(cache) && now1 < old(cache)[key].expiresAt && now2 < old(cache)[key].expiresAt
      ensures served.Hit? ==> served.state == old(cache)[key].state
      ensures served.Hit? ==> inFlight == old(inFlight) && fetches == old(fetches) && generation == old(generation)
      ensures !served.Hit? ==> served.id < |fetches| && key in inFlight && inFlight[key] == served.id
      ensures served.Joined? <==> !served.Hit? && key in old(inFlight)
      ensures served.Started? ==> served.id == |old(fetches)| && fetches[served.id].key == key
    {
      StepKeepsInv(Abs(), Event.Read(key, now1, now2));
      assert key in inFlight ==> FlightInv(Abs(), key);
      served := Lookup(key, now1, now2);
      tick := tick + 1;
    }

    /** The start of a forced refresh; the generation it takes is the caller's local variable. */
    method BeginRefresh(key: Key) returns (id: nat)
      requires Valid()
      modifies this
      ensures Abs() == Step(old(Abs()), Event.BeginRefresh(key)) && Valid()
      ensures id == |old(fetches)| && cache == old(cache) && inFlight == old(inFlight)
      ensures |fetches| == id + 1 && fetches[..id] == old(fetches) && fetches[id].key == key && !fetches[id].shared
      ensures generation == old(generation)[key := fetches[id].generation]
      ensures fetches[id].generation == 1 + if key in old(generation) then old(generation)[key] else 0
    {
      StepKeepsInv(Abs(), Event.BeginRefresh(key));
      id := BeginFetch(key, false);
      tick := tick + 1;
    }

    /** Marks the fetch as returned; a flight leaves the table and its channel is closed. */
    method FinishFetch(id: nat)
      requires id < |fetches|
      modifies `fetches, `inFlight
      ensures Abs() == Finish(old(Abs()), id)
    {
      var f := fetches[id];
      if f.shared {
        if f.key in inFlight && inFlight[f.key] == id {
          inFlight := inFlight - {f.key};
        }
        fetches := fetches[id := f.(finished := true, closes := f.closes + 1)];
      } else {
        fetches := fetches[id := f.(finished := true)];
      }
    }

    method StoreIssue(id: nat, state: IssueState, now1: Instant, now2: Instant) returns (ghost victim: Key)
      requires id < |fetches|
      modifies `cache, `source, `stored
      ensures |Prune(old(cache), now1)| >= MAX_CACHE_ENTRIES ==> Oldest(Prune(old(cache), now1), victim)
      ensures Abs() == Store(old(Abs()), id, state, now1, now2, victim)
    {
      var f := fetches[id];
      victim := PutCache(f.key, state, now1, now2);
      source := source[f.key := id];
      stored := stored[f.key := Log(Abs(), f.key) + [f.generation]];
    }

    /** What both kinds of fetch do on return: finish, then store the state unless it is overtaken. */
    method Deliver(id: nat, state: IssueState, now1: Instant, now2: Instant) returns (ghost victim: Key)
      requires id < |fetches| && !fetches[id].finished && fetches[id].key in generation
      modifies `cache, `source, `stored, `fetches, `inFlight
      ensures Enabled(old(Abs()), Complete(id, state, now1, now2, victim))
      ensures Abs() == Effect(old(Abs()), Complete(id, state, now1, now2, victim))
    {
      victim := "";
      var f := fetches[id];
      FinishFetch(id);
      if !f.abandoned && generation[f.key] == f.generation && (state.Available? || state.NotFound?) {
        victim := StoreIssue(id, state, now1, now2);
      }
    }

    /** `completeFlight` after its fetch returned, and the end of a forced refresh, which is never abandoned. */
    method CompleteFetch(id: nat, state: IssueState, now1: Instant, now2: Instant) returns (ghost victim: Key)
      requires Valid() && id < |fetches| && !fetches[id].finished
      modifies this
      ensures Enabled(old(Abs()), Complete(id, state, now1, now2, victim))
      ensures Abs() == Step(old(Abs()), Complete(id, state, now1, now2, victim)) && Valid()
      ensures var f := old(fetches[id]);
        if WorthKeeping(state) && !f.abandoned && f.key in old(generation)
          && old(generation)[f.key] == f.generation then
          f.key in cache && cache[f.key] == Entry(state, now2 + 300)
        else cache == old(cache)
      ensures generation == old(generation) && fetches[id].finished
      ensures forall key :: key in inFlight <==> key in old(inFlight) && old(inFlight)[key] != id
    {
      ghost var before := Abs();
      assert FetchInv(before, id);
      victim := Deliver(id, state, now1, now2);
      tick := tick + 1;
      StepKeepsInv(before, Complete(id, state, now1, now2, victim));
      CompletionStores(before, id, state, now1, now2, victim);
      CompletionEndsItsFlight(before, Complete(id, state, now1, now2, victim));
      CompleteKeepsGenerations(before, Complete(id, state, now1, now2, victim));
    }

    /** The branch of `waitForFlight` taken when the reader's context ends first. */
    method LeaveFlight(id: nat)
      requires Valid() && id < |fetches| && fetches[id].shared && fetches[id].callers > 0
      modifies this
      ensures Abs() == Step(old(Abs()), Leave(id)) && Valid()
      ensures cache == old(cache) && inFlight == old(inFlight) && generation == old(generation)
      ensures |fetches| == |old(fetches)| && fetches[id].waiters == old(fetches[id].waiters) - 1
      ensures fetches[id].abandoned <==> old(fetches[id].abandoned) || old(fetches[id].waiters) == 1
    {
      StepKeepsInv(Abs(), Leave(id));
      var f := fetches[id];
      f := f.(waiters := f.waiters - 1, callers := f.callers - 1);
      if f.waiters == 0 && !f.abandoned {
        f := f.(abandoned := true);
      }
      fetches := fetches[id := f];
      tick := tick + 1;
    }

    method DropEntries(workspace: string)
      modifies `cache
      ensures cache == map key | key in old(cache) && !OwnedBy(key, workspace) :: old(cache)[key]
    {
      var keys := cache.Keys;
      while keys != {}
        invariant keys <= cache.Keys
        invariant cache == map key | key in old(cache) && (key in keys || !OwnedBy(key, workspace)) :: old(cache)[key]
        decreases |keys|
      {
        var key :| key in keys;
        if OwnedBy(key, workspace) {
          cache := cache - {key};
        }
        keys := keys - {key};
      }
    }

    method AdvanceGenerations(workspace: string)
      modifies `generation
      ensures generation == map key | key in old(generation) ::
        if OwnedBy(key, workspace) then old(generation)[key] + 1 else old(generation)[key]
    {
      var keys := generation.Keys;
      while keys != {}
        invariant keys <= generation.Keys
        invariant generation == map key | key in old(generation) ::
          if key !in keys && OwnedBy(key, workspace) then old(generation)[key] + 1 else old(generation)[key]
        decreases |keys|
      {
        var key :| key in keys;
        if OwnedBy(key, workspace) {
          generation := generation[key := generation[key] + 1];
        }
        keys := keys - {key};
      }
    }

    method InvalidateWorkspace(workspace: string)
      requires Valid()
      modifies this
      ensures Abs() == Step(old(Abs()), Invalidate(workspace)) && Valid()
      ensures forall key :: key in cache <==> key in old(cache) && !(workspace + "|" <= key)
      ensures forall key :: key in cache ==> cache[key] == old(cache)[key]
      ensures generation.Keys == old(generation).Keys
      ensures forall key :: key in generation ==>
        generation[key] == old(generation)[key] + if workspace + "|" <= key then 1 else 0
      ensures inFlight == old(inFlight) && fetches == old(fetches)
    {
      StepKeepsInv(Abs(), Invalidate(workspace));
      DropEntries(workspace);
      AdvanceGenerations(workspace);
      invalidatedAt := invalidatedAt[workspace := tick];
      tick := tick + 1;
    }
  }
}
