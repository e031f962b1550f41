/** The three publishers of a single file: AI persistence, the knowledge index, guarded writes. */
module SingleFile {
  // Each writes a temporary file, renames it over the target, and puts the previous generation back
  // when durability cannot be confirmed.

  import opened Options
  import opened Disk
  import opened Strings

  const MAX_AI_YAML_BYTES: nat := 2 * 1024 * 1024

  /** `NotRestored` is the error that also reports a failed rollback. */
  datatype Outcome = Published | Failed | NotRestored

  /** What every publisher promises about its target, whichever steps fail. */
  ghost predicate AllOrNothing(
    before: map<Path, Content>, fs: FileSystem, from: nat, path: Path, data: Content, r: Outcome)
    reads fs
  {
    && (r.Published? ==> At(fs.files, path) == Some(data))
    && (r.Failed? ==> At(fs.files, path) == At(before, path))
    && (At(fs.files, path) == At(before, path) || At(fs.files, path) == Some(data))
    && Always(fs.trace, from, path, At(before, path), Some(data))
    && SameBut(before, fs.files, {path})
  }

  method SyncDirectory(fs: FileSystem) returns (ok: bool)
    modifies fs`faults
    ensures fs.faults >= old(fs.faults) && (ok <==> fs.faults == old(fs.faults))
  {
    var parent := fs.Attempt();
    if !parent {
      return false;
    }
    ok := fs.Attempt();
  }

  /** A temporary file renamed over the target, then a directory sync: `restoreDurableFile`,
      `restoreIndex` and `restore` are this same sequence. */
  method Restore(fs: FileSystem, path: Path, data: Content) returns (ok: bool)
    requires fs.Valid() && !IsTemporary(path)
    modifies fs
    ensures fs.Valid() && Grown(old(fs.trace), fs.trace)
    ensures fs.faults >= old(fs.faults) && (ok <==> fs.faults == old(fs.faults))
    ensures ok ==> At(fs.files, path) == Some(data)
    ensures At(fs.files, path) == At(old(fs.files), path) || At(fs.files, path) == Some(data)
    ensures Always(fs.trace, |old(fs.trace)|, path, At(old(fs.files), path), Some(data))
    ensures SameBut(old(fs.files), fs.files, {path})
  {
    ok := Replace(fs, path, data);
    if ok {
      ok := SyncDirectory(fs);
    }
  }

  /** The common core: the data is written aside and takes the target's place in one rename. */
  method Replace(fs: FileSystem, path: Path, data: Content) returns (ok: bool)
    requires fs.Valid() && !IsTemporary(path)
    modifies fs
    ensures fs.Valid() && Grown(old(fs.trace), fs.trace)
    ensures fs.faults >= old(fs.faults) && (ok <==> fs.faults == old(fs.faults))
    ensures At(fs.files, path) == if ok then Some(data) else At(old(fs.files), path)
    ensures Always(fs.trace, |old(fs.trace)|, path, At(old(fs.files), path), Some(data))
    ensures SameBut(old(fs.files), fs.files, {path})
    ensures AlwaysBut(old(fs.files), fs.trace, |old(fs.trace)|, {path})
  {
    var temporary := fs.WriteTemp(data);
    ghost var from, written := |old(fs.trace)|, fs.trace;
    ghost var before := At(old(fs.files), path);
    assert Always(written, from, path, before, before);
    if temporary.None? {
      return false;
    }
    ok := fs.Rename(temporary.value, path);
    if !ok {
      var _ := fs.Remove(temporary.value);
    }
    AlwaysJoins(written, fs.trace, from, path, before, Some(data), before, Some(data));
  }

  /** Puts back what was there before the rename: the old contents, or nothing. */
  method RollBack(fs: FileSystem, path: Path, previous: Option<Content>) returns (ok: bool)
    requires fs.Valid() && !IsTemporary(path)
    modifies fs
    ensures fs.Valid() && Grown(old(fs.trace), fs.trace)
    ensures fs.faults >= old(fs.faults) && (ok <==> fs.faults == old(fs.faults))
    ensures ok ==> At(fs.files, path) == previous
    ensures At(fs.files, path) == At(old(fs.files), path) || At(fs.files, path) == previous
    ensures Always(fs.trace, |old(fs.trace)|, path, At(old(fs.files), path), previous)
    ensures SameBut(old(fs.files), fs.files, {path})
  {
    if previous.Some? {
      ok := Restore(fs, path, previous.value);
    } else {
      ok := fs.Remove(path);
      if ok {
        ok := SyncDirectory(fs);
      }
    }
  }

  /** Everything after the rename succeeded: nothing more if the rest went well, else a rollback. */
  method Confirm(fs: FileSystem, path: Path, data: Content, previous: Option<Content>, durable: bool,
                 ghost before: map<Path, Content>, ghost from: nat) returns (r: Outcome)
    requires fs.Valid() && !IsTemporary(path) && from <= |fs.trace|
    requires At(fs.files, path) == Some(data) && At(before, path) == previous
    requires SameBut(before, fs.files, {path}) && Always(fs.trace, from, path, previous, Some(data))
    modifies fs
    ensures fs.Valid() && AllOrNothing(before, fs, from, path, data, r)
    ensures r.Published? <==> durable
    ensures durable ==> fs.faults == old(fs.faults)
    ensures fs.faults >= old(fs.faults) && (r.NotRestored? <==> fs.faults > old(fs.faults))
  {
    if durable {
      return Published;
    }
    ghost var mid := fs.trace;
    var restored := RollBack(fs, path, previous);
    AlwaysJoins(mid, fs.trace, from, path, previous, Some(data), Some(data), previous);
    r := if restored then Failed else NotRestored;
  }

  /** `publishDurableFile`. */
  method PublishDurableFile(fs: FileSystem, path: Path, data: Content) returns (r: Outcome)
    requires fs.Valid() && !IsTemporary(path)
    modifies fs
    ensures fs.Valid() && AllOrNothing(old(fs.files), fs, |old(fs.trace)|, path, data, r)
    ensures r.Published? <==>
      && fs.faults == old(fs.faults)
      && (path in old(fs.files) ==> |old(fs.files)[path]| <= 2097152)
    ensures r.NotRestored? ==> fs.faults >= old(fs.faults) + 2
  {
    var made := fs.Attempt();
    var previous := fs.Read(path);
    if !made || previous.Unreadable? || (previous.Contents? && |previous.data| > MAX_AI_YAML_BYTES) {
      return Failed;
    }
    var replaced := Replace(fs, path, data);
    if !replaced {
      return Failed;
    }
    var durable := SyncDirectory(fs);
    r := Confirm(fs, path, data, Generation(previous), durable, old(fs.files), |old(fs.trace)|);
  }

  function Generation(r: ReadResult): Option<Content> {
    if r.Contents? then Some(r.data) else None
  }

  /** `save` of the knowledge index: its mode comes from a second look at the target. */
  method SaveIndex(fs: FileSystem, path: Path, data: Content) returns (r: Outcome)
    requires fs.Valid() && !IsTemporary(path)
    modifies fs
    ensures fs.Valid() && AllOrNothing(old(fs.files), fs, |old(fs.trace)|, path, data, r)
    ensures r.Published? <==> fs.faults == old(fs.faults)
    ensures r.NotRestored? ==> fs.faults >= old(fs.faults) + 2
  {
    var made := fs.Attempt();
    var previous := fs.Read(path);
    var seen := fs.Stat(path);
    if !made || previous.Unreadable? || seen.None? {
      return Failed;
    }
    var replaced := Replace(fs, path, data);
    if !replaced {
      return Failed;
    }
    var hooked := fs.Attempt();
    var durable := false;
    if hooked {
      durable := SyncDirectory(fs);
    }
    if durable {
      durable := fs.Attempt();
    }
    r := Confirm(fs, path, data, Generation(previous), durable, old(fs.files), |old(fs.trace)|);
  }

  datatype Replacement = Replaced | HashRequired | TooLarge | Stale | NotReplaced | Unrestored

  /** The outcome of a guarded replacement as that of a publication. */
  function AsOutcome(r: Replacement): Outcome {
    match r
    case Replaced => Published
    case Unrestored => NotRestored
    case _ => Failed
  }

  datatype Request = Request(path: Path, data: Content, expected: string, limit: nat)

  /** One call under the lock of its path, and what the file holds when the lock is released. */
  datatype Save = Save(request: Request, result: Replacement, after: Option<Content>)

  /** What a call makes of what the file held before. */
  predicate IsSave(before: Option<Content>, s: Save, hash: Content -> string) {
    match s.result
    case Replaced => before.Some? && hash(before.value) == s.request.expected && s.after == Some(s.request.data)
    case Unrestored =>
      before.Some? && hash(before.value) == s.request.expected && (s.after == Some(s.request.data) || s.after == before)
    case Stale => before.Some? && hash(before.value) != s.request.expected && s.after == before
    case _ => s.after == before
  }

  /** The part of `replaceExisting` that follows its checks. */
  method ReplaceChecked(fs: FileSystem, path: Path, data: Content, previous: Content) returns (r: Outcome)
    requires fs.Valid() && !IsTemporary(path) && At(fs.files, path) == Some(previous)
    modifies fs
    ensures fs.Valid() && AllOrNothing(old(fs.files), fs, |old(fs.trace)|, path, data, r)
    ensures fs.faults >= old(fs.faults) && (r.Published? <==> fs.faults == old(fs.faults))
    ensures r.NotRestored? ==> fs.faults >= old(fs.faults) + 2
    ensures path in fs.files && (fs.files[path] == previous || fs.files[path] == data)
  {
    var replaced := Replace(fs, path, data);
    if !replaced {
      return Failed;
    }
    var hooked := fs.Attempt();
    var durable := false;
    if hooked {
      durable := SyncDirectory(fs);
    }
    if durable {
      durable := fs.Attempt();
    }
    r := Confirm(fs, path, data, Some(previous), durable, old(fs.files), |old(fs.trace)|);
  }

  /** `replaceExisting`, under the lock of its path: the writer names the hash of what it replaces. */
  method ReplaceExisting(fs: FileSystem, request: Request, hash: Content -> string) returns (r: Replacement)
    requires fs.Valid() && !IsTemporary(request.path)
    modifies fs
    ensures fs.Valid() && AllOrNothing(old(fs.files), fs, |old(fs.trace)|, request.path, request.data, AsOutcome(r))
    ensures r.HashRequired? <==> IsBlank(request.expected)
    ensures r.Replaced? <==>
      && fs.faults == old(fs.faults) && !IsBlank(request.expected) && |request.data| <= request.limit
      && request.path in old(fs.files) && |old(fs.files)[request.path]| <= request.limit
      && hash(old(fs.files)[request.path]) == request.expected
    ensures r.Unrestored? ==> fs.faults >= old(fs.faults) + 2
    ensures !IsBlank(request.expected) && |request.data| > request.limit ==> r.TooLarge?
    ensures r.TooLarge? && |request.data| <= request.limit ==>
      request.path in old(fs.files) && |old(fs.files)[request.path]| > request.limit
    ensures !IsBlank(request.expected) && |request.data| <= request.limit && fs.faults == old(fs.faults) ==>
      if request.path !in old(fs.files) then r.NotReplaced?
      else if |old(fs.files)[request.path]| > request.limit then r.TooLarge?
      else if hash(old(fs.files)[request.path]) != request.expected then r.Stale?
      else r.Replaced?
    ensures r.Replaced? || r.Unrestored? || r.Stale? ==> |request.data| <= request.limit
    ensures IsSave(At(old(fs.files), request.path), Save(request, r, At(fs.files, request.path)), hash)
  {
    var Request(path, data, expected, limit) := request;
    if IsBlank(expected) {
      return HashRequired;
    }
    if |data| > limit {
      return TooLarge;
    }
    var safe := fs.Attempt();
    var current := fs.Read(path);
    if !safe || !current.Contents? {
      return NotReplaced;
    }
    if |current.data| > limit {
      return TooLarge;
    }
    if hash(current.data) != expected {
      return Stale;
    }
    var replaced := ReplaceChecked(fs, path, data, current.data);
    r := match replaced case Published => Replaced case Failed => NotReplaced case NotRestored => Unrestored;
  }

  // ------------------------------------------------------------------ many savers

  /** What a file holds before the n-th call. */
  function ContentAt(path: Path, initial: map<Path, Content>, log: seq<Save>, n: nat): Option<Content>
    requires n <= |log|
  {
    if n == 0 then At(initial, path)
    else if log[n - 1].request.path == path then log[n - 1].after
    else ContentAt(path, initial, log, n - 1)
  }

  ghost predicate IsSaveAt(initial: map<Path, Content>, log: seq<Save>, hash: Content -> string, n: nat)
    requires n < |log|
  {
    IsSave(ContentAt(log[n].request.path, initial, log, n), log[n], hash)
  }

  /** Every call found what the last call for the same file had left. */
  ghost predicate AreSaves(initial: map<Path, Content>, log: seq<Save>, hash: Content -> string) {
    forall n :: 0 <= n < |log| ==> IsSaveAt(initial, log, hash, n)
  }

  lemma {:induction false} ContentAtPrefix(path: Path, initial: map<Path, Content>, log: seq<Save>, s: Save, n: nat)
    requires n <= |log|
    ensures ContentAt(path, initial, log + [s], n) == ContentAt(path, initial, log, n)
  {
    if n > 0 {
      assert (log + [s])[n - 1] == log[n - 1];
      ContentAtPrefix(path, initial, log, s, n - 1);
    }
  }

  lemma OneMoreSave(initial: map<Path, Content>, log: seq<Save>, hash: Content -> string, s: Save)
    requires AreSaves(initial, log, hash)
    requires IsSave(ContentAt(s.request.path, initial, log, |log|), s, hash)
    ensures AreSaves(initial, log + [s], hash)
  {
    forall n | 0 <= n < |log + [s]| ensures IsSaveAt(initial, log + [s], hash, n) {
      ContentAtPrefix((log + [s])[n].request.path, initial, log, s, n);
      assert n < |log| ==> IsSaveAt(initial, log, hash, n);
    }
  }

  /** The files are what the log says. */
  ghost predicate Reflects(initial: map<Path, Content>, log: seq<Save>, files: map<Path, Content>) {
    forall p {:trigger IsTemporary(p)} :: !IsTemporary(p) ==> At(files, p) == ContentAt(p, initial, log, |log|)
  }

  lemma ReflectsMore(
    initial: map<Path, Content>, log: seq<Save>, was: map<Path, Content>, now: map<Path, Content>, s: Save)
    requires Reflects(initial, log, was) && SameBut(was, now, {s.request.path}) && At(now, s.request.path) == s.after
    ensures Reflects(initial, log + [s], now)
  {
    forall p | !IsTemporary(p) ensures At(now, p) == ContentAt(p, initial, log + [s], |log + [s]|) {
      ContentAtPrefix(p, initial, log, s, |log|);
      assert (log + [s])[|log|] == s;
    }
  }

  /** Calls for any files, in the order in which they hold their locks. */
  method ReplaceAll(fs: FileSystem, requests: seq<Request>, hash: Content -> string) returns (log: seq<Save>)
    requires fs.Valid() && forall i :: 0 <= i < |requests| ==> !IsTemporary(requests[i].path)
    modifies fs
    ensures fs.Valid() && |log| == |requests| && forall i :: 0 <= i < |log| ==> log[i].request == requests[i]
    ensures AreSaves(old(fs.files), log, hash) && Reflects(old(fs.files), log, fs.files)
  {
    log := [];
    for i := 0 to |requests|
      invariant fs.Valid() && |log| == i && forall k :: 0 <= k < i ==> log[k].request == requests[k]
      invariant AreSaves(old(fs.files), log, hash) && Reflects(old(fs.files), log, fs.files)
    {
      ghost var was := fs.files;
      var r := ReplaceExisting(fs, requests[i], hash);
      var s := Save(requests[i], r, At(fs.files, requests[i].path));
      OneMoreSave(old(fs.files), log, hash, s);
      ReflectsMore(old(fs.files), log, was, fs.files, s);
      log := log + [s];
    }
  }

  /** The call put its data in place: it succeeded, or could not undo what it had done. */
  predicate Wrote(s: Save, path: Path) {
    s.request.path == path && (s.result.Replaced? || s.result.Unrestored?) && s.after == Some(s.request.data)
  }

  /** Once a call has written a file, it holds what the last such call wrote. */
  lemma {:induction false} LastWriter(
    path: Path, initial: map<Path, Content>, log: seq<Save>, hash: Content -> string, i: nat, j: nat) returns (k: nat)
    requires AreSaves(initial, log, hash) && i < j <= |log| && Wrote(log[i], path)
    ensures i <= k < j && Wrote(log[k], path) && ContentAt(path, initial, log, j) == Some(log[k].request.data)
    ensures forall m :: k < m < j ==> !Wrote(log[m], path)
    decreases j
  {
    if Wrote(log[j - 1], path) {
      k := j - 1;
    } else {
      k := LastWriter(path, initial, log, hash, i, j - 1);
      assert IsSaveAt(initial, log, hash, j - 1);
    }
  }

  /** Successful saves of a file form a chain of hashes: after a success, another names what the last
      call in between wrote, so none overwrites an update that its writer had not seen. */
  lemma SavesChain(initial: map<Path, Content>, log: seq<Save>, hash: Content -> string, i: nat, j: nat)
    returns (k: nat)
    requires AreSaves(initial, log, hash) && i < j < |log| && log[i].request.path == log[j].request.path
    requires log[i].result.Replaced? && log[j].result.Replaced?
    ensures i <= k < j && Wrote(log[k], log[j].request.path) && log[j].request.expected == hash(log[k].request.data)
    ensures forall m :: k < m < j ==> !Wrote(log[m], log[j].request.path)
  {
    assert IsSaveAt(initial, log, hash, i) && IsSaveAt(initial, log, hash, j);
    k := LastWriter(log[j].request.path, initial, log, hash, i, j);
  }

  /** Of two writers who started from the same version, the second succeeds only if the first, or a
      call between them, wrote that version back, or something of the same hash. */
  lemma SecondWriterIsStale(initial: map<Path, Content>, log: seq<Save>, hash: Content -> string, i: nat, j: nat)
    requires AreSaves(initial, log, hash) && i < j < |log| && log[i].request.path == log[j].request.path
    requires log[i].result.Replaced? && log[i].request.expected == log[j].request.expected
    requires forall k :: i <= k < j && Wrote(log[k], log[i].request.path) ==>
      hash(log[k].request.data) != log[i].request.expected
    ensures !log[j].result.Replaced?
  {
    if log[j].result.Replaced? {
      var k := SavesChain(initial, log, hash, i, j);
      assert false;
    }
  }
}
