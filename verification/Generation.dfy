/**
  Publishing a whole generation of data files at once: back up the targets, rename the staged
  files over them one by one, and on any failure restore every target from the backup.
 */
module Generation {
  import opened Options
  import opened Disk
  import SingleFile

  /** The staged files, the targets they replace and the places of the targets' backups. */
  datatype Plan = Plan(stage: seq<Path>, target: seq<Path>, backup: seq<Path>)

  predicate Disjoint(a: seq<Path>, b: seq<Path>) {
    forall i, j :: 0 <= i < |a| && 0 <= j < |b| ==> a[i] != b[j]
  }

  predicate Unique(a: seq<Path>) {
    forall i, j :: 0 <= i < j < |a| ==> a[i] != a[j]
  }

  /** Eight files in the source; the argument does not depend on the number. */
  predicate WellFormed(p: Plan) {
    && |p.stage| == |p.target| == |p.backup|
    && Unique(p.stage) && Unique(p.target) && Unique(p.backup)
    && Disjoint(p.stage, p.target) && Disjoint(p.stage, p.backup) && Disjoint(p.target, p.backup)
    && (forall i :: 0 <= i < |p.target| ==>
          !IsTemporary(p.stage[i]) && !IsTemporary(p.target[i]) && !IsTemporary(p.backup[i]))
  }

  /** `copyIfExists`: a missing source is no error and makes no copy. */
  method CopyIfExists(fs: FileSystem, source: Path, target: Path) returns (ok: bool)
    requires fs.Valid() && source != target && target !in fs.files
    modifies fs
    ensures fs.Valid() && Grown(old(fs.trace), fs.trace)
    ensures SameBut(old(fs.files), fs.files, {target})
    ensures fs.faults >= old(fs.faults) && (ok <==> fs.faults == old(fs.faults))
    ensures ok ==> At(fs.files, target) == At(old(fs.files), source)
    ensures AlwaysBut(old(fs.files), fs.trace, |old(fs.trace)|, {target})
  {
    var found := fs.Read(source);
    if found.Missing? {
      return true;
    }
    var made := fs.Attempt();
    if found.Unreadable? || !made {
      return false;
    }
    ok := fs.Write(target, found.data);
    var closed := fs.Attempt();
    ok := ok && closed;
  }

  ghost function Paths(paths: seq<Path>): set<Path> {
    set p | p in paths
  }

  /** The first `n` backups are their targets, present or absent, and the rest are not there yet. */
  ghost predicate BackedUpTo(before: map<Path, Content>, files: map<Path, Content>, p: Plan, n: nat)
    requires WellFormed(p)
  {
    && (forall i {:trigger p.backup[i]} :: 0 <= i < |p.backup| ==>
          At(files, p.backup[i]) == if i < n then At(before, p.target[i]) else None)
    && SameBut(before, files, Paths(p.backup))
  }

  lemma BackedUpMore(before: map<Path, Content>, files: map<Path, Content>, now: map<Path, Content>, p: Plan, n: nat)
    requires WellFormed(p) && BackedUpTo(before, files, p, n) && n < |p.target|
    requires SameBut(files, now, {p.backup[n]}) && At(now, p.backup[n]) == At(files, p.target[n])
    ensures BackedUpTo(before, now, p, n + 1)
  {
    assert !IsTemporary(p.target[n]) && p.target[n] !in Paths(p.backup);
    forall i | 0 <= i < |p.backup| ensures At(now, p.backup[i]) == if i < n + 1 then At(before, p.target[i]) else None {
      assert !IsTemporary(p.backup[i]);
      assert i != n ==> p.backup[i] != p.backup[n];
    }
    assert p.backup[n] in Paths(p.backup);
  }

  /** A stretch in which one file differed from a state like the first joins the stretch before it. */
  lemma ButGrows(
    before: map<Path, Content>, files: map<Path, Content>, was: seq<map<Path, Content>>, now: seq<map<Path, Content>>,
    from: nat, path: Path, paths: set<Path>)
    requires Grown(was, now) && from <= |was| && path in paths
    requires AlwaysBut(before, was, from, paths) && SameBut(before, files, paths)
    requires AlwaysBut(files, now, |was|, {path})
    ensures AlwaysBut(before, now, from, paths)
  {
    forall k | from <= k < |now| ensures SameBut(before, now[k], paths) {
      if k < |was| { assert now[k] == now[..|was|][k] == was[k]; }
    }
  }

  /** `backupDataDirTarget`: after success every backup is its target, present or absent. */
  method BackUp(fs: FileSystem, p: Plan) returns (ok: bool)
    requires fs.Valid() && WellFormed(p) && forall i :: 0 <= i < |p.backup| ==> p.backup[i] !in fs.files
    modifies fs
    ensures fs.Valid() && Grown(old(fs.trace), fs.trace)
    ensures fs.faults >= old(fs.faults) && (ok <==> fs.faults == old(fs.faults))
    ensures ok ==> BackedUpTo(old(fs.files), fs.files, p, |p.target|)
    ensures SameBut(old(fs.files), fs.files, Paths(p.backup))
    ensures AlwaysBut(old(fs.files), fs.trace, |old(fs.trace)|, Paths(p.backup))
  {
    for n := 0 to |p.target|
      invariant fs.Valid() && Grown(old(fs.trace), fs.trace) && fs.faults == old(fs.faults)
      invariant BackedUpTo(old(fs.files), fs.files, p, n)
      invariant AlwaysBut(old(fs.files), fs.trace, |old(fs.trace)|, Paths(p.backup))
    {
      ghost var was, files := fs.trace, fs.files;
      assert At(files, p.backup[n]) == None;
      ok := CopyIfExists(fs, p.target[n], p.backup[n]);
      ButGrows(old(fs.files), files, was, fs.trace, |old(fs.trace)|, p.backup[n], Paths(p.backup));
      if !ok {
        return;
      }
      BackedUpMore(old(fs.files), files, fs.files, p, n);
    }
    ok := true;
  }

  /** Each target holds its old contents or its staged ones. */
  ghost predicate EitherGeneration(before: map<Path, Content>, files: map<Path, Content>, p: Plan)
    requires WellFormed(p)
  {
    forall i {:trigger p.target[i]} :: 0 <= i < |p.target| ==>
      At(files, p.target[i]) == At(before, p.target[i]) || At(files, p.target[i]) == At(before, p.stage[i])
  }

  ghost predicate AlwaysEither(before: map<Path, Content>, trace: seq<map<Path, Content>>, from: nat, p: Plan)
    requires WellFormed(p)
  {
    forall k {:trigger trace[k]} :: from <= k < |trace| ==> EitherGeneration(before, trace[k], p)
  }

  ghost function Published(p: Plan): set<Path> {
    Paths(p.target) + Paths(p.stage)
  }

  /** A state on the way: one generation or the other at each target, the rest as before. */
  ghost predicate Mixed(before: map<Path, Content>, files: map<Path, Content>, p: Plan)
    requires WellFormed(p)
  {
    EitherGeneration(before, files, p) && SameBut(before, files, Published(p))
  }

  ghost predicate AlwaysMixed(before: map<Path, Content>, trace: seq<map<Path, Content>>, from: nat, p: Plan)
    requires WellFormed(p)
  {
    forall k {:trigger trace[k]} :: from <= k < |trace| ==> Mixed(before, trace[k], p)
  }

  ghost predicate BackedUp(files: map<Path, Content>, p: Plan)
    requires WellFormed(p)
  {
    forall i {:trigger p.target[i]} :: 0 <= i < |p.target| ==> At(files, p.backup[i]) == At(files, p.target[i])
  }

  lemma MixedGrows(
    before: map<Path, Content>, was: seq<map<Path, Content>>, now: seq<map<Path, Content>>, from: nat, p: Plan)
    requires WellFormed(p) && Grown(was, now) && from <= |was|
    requires AlwaysMixed(before, was, from, p) && AlwaysMixed(before, now, |was|, p)
    ensures AlwaysMixed(before, now, from, p)
  {
    forall k | from <= k < |now| ensures Mixed(before, now[k], p) {
      if k < |was| { assert now[k] == now[..|was|][k] == was[k]; }
    }
  }

  /** One target of the rollback: restored from its backup, or removed when it has none. */
  method RestoreTarget(fs: FileSystem, target: Path, backup: Path) returns (ok: bool)
    requires fs.Valid() && !IsTemporary(target) && !IsTemporary(backup) && target != backup
    modifies fs
    ensures fs.Valid() && Grown(old(fs.trace), fs.trace)
    ensures fs.faults >= old(fs.faults) && (ok <==> fs.faults == old(fs.faults))
    ensures ok ==> At(fs.files, target) == At(old(fs.files), backup)
    ensures SameBut(old(fs.files), fs.files, {target})
    ensures At(fs.files, target) == At(old(fs.files), target) || At(fs.files, target) == At(old(fs.files), backup)
    ensures Always(fs.trace, |old(fs.trace)|, target, At(old(fs.files), target), At(old(fs.files), backup))
    ensures AlwaysBut(old(fs.files), fs.trace, |old(fs.trace)|, {target})
  {
    var hook := fs.Attempt();
    if !hook {
      return false;
    }
    var present := fs.Stat(backup);
    if present.None? {
      return false;
    }
    if !present.value {
      ok := fs.Remove(target);
      return;
    }
    var saved := fs.Read(backup);
    if !saved.Contents? {
      return false;
    }
    ok := SingleFile.Replace(fs, target, saved.data);
  }

  /** Of the first `n` targets, those without an error are what they were. */
  ghost predicate RestoredTo(before: map<Path, Content>, files: map<Path, Content>, p: Plan, n: nat, errors: set<nat>)
    requires WellFormed(p)
  {
    forall i {:trigger p.target[i]} :: 0 <= i < n && i < |p.target| && i !in errors ==>
      At(files, p.target[i]) == At(before, p.target[i])
  }

  /** `rollbackDataDirPublication`: it tries every target and reports those it could not restore. */
  method RollBack(fs: FileSystem, p: Plan, ghost before: map<Path, Content>) returns (errors: set<nat>)
    requires fs.Valid() && WellFormed(p) && BackedUp(before, p)
    requires Mixed(before, fs.files, p)
    modifies fs
    ensures fs.Valid() && Grown(old(fs.trace), fs.trace)
    ensures AlwaysMixed(before, fs.trace, |old(fs.trace)|, p) && Mixed(before, fs.files, p)
    ensures RestoredTo(before, fs.files, p, |p.target|, errors)
    ensures |errors| <= fs.faults - old(fs.faults) && (errors == {} <==> fs.faults == old(fs.faults))
  {
    errors := {};
    for n := 0 to |p.target|
      invariant fs.Valid() && Grown(old(fs.trace), fs.trace)
      invariant |errors| <= fs.faults - old(fs.faults) && (errors == {} <==> fs.faults == old(fs.faults))
      invariant AlwaysMixed(before, fs.trace, |old(fs.trace)|, p) && Mixed(before, fs.files, p)
      invariant RestoredTo(before, fs.files, p, n, errors)
    {
      ghost var was, files := fs.trace, fs.files;
      var ok := RestoreTarget(fs, p.target[n], p.backup[n]);
      RestoringIsMixed(before, files, was, fs.trace, |old(fs.trace)|, p, n);
      StillMixed(before, files, fs.files, p, n);
      RestoredMore(before, files, fs.files, p, n, ok, errors);
      if !ok {
        errors := errors + {n};
      }
    }
  }

  lemma BackupsStay(before: map<Path, Content>, files: map<Path, Content>, p: Plan, n: nat)
    requires WellFormed(p) && BackedUp(before, p) && SameBut(before, files, Published(p)) && n < |p.target|
    ensures At(files, p.backup[n]) == At(before, p.target[n])
  {
    assert !IsTemporary(p.backup[n]) && p.backup[n] !in Published(p);
    assert p.target[n] in p.target;
  }

  lemma OtherTargetStays(files: map<Path, Content>, now: map<Path, Content>, p: Plan, n: nat, i: nat)
    requires WellFormed(p) && n < |p.target| && i < |p.target| && i != n && SameBut(files, now, {p.target[n]})
    ensures At(now, p.target[i]) == At(files, p.target[i])
  {
    assert !IsTemporary(p.target[i]) && p.target[i] != p.target[n];
  }

  lemma RestoredMore(
    before: map<Path, Content>, files: map<Path, Content>, now: map<Path, Content>, p: Plan, n: nat, ok: bool,
    errors: set<nat>)
    requires WellFormed(p) && BackedUp(before, p) && SameBut(before, files, Published(p)) && n < |p.target|
    requires SameBut(files, now, {p.target[n]}) && (ok ==> At(now, p.target[n]) == At(files, p.backup[n]))
    requires RestoredTo(before, files, p, n, errors)
    ensures RestoredTo(before, now, p, n + 1, if ok then errors else errors + {n})
  {
    BackupsStay(before, files, p, n);
    forall i | 0 <= i < n + 1 && i !in (if ok then errors else errors + {n})
      ensures At(now, p.target[i]) == At(before, p.target[i])
    {
      if i < n { OtherTargetStays(files, now, p, n, i); }
    }
  }

  /** Touching one target keeps the generation mixed if that target still holds one of its two. */
  lemma StillMixed(before: map<Path, Content>, files: map<Path, Content>, now: map<Path, Content>, p: Plan, n: nat)
    requires WellFormed(p) && BackedUp(before, p) && Mixed(before, files, p) && n < |p.target|
    requires SameBut(files, now, {p.target[n]})
    requires At(now, p.target[n]) == At(files, p.target[n]) || At(now, p.target[n]) == At(files, p.backup[n])
    ensures Mixed(before, now, p)
  {
    BackupsStay(before, files, p, n);
    assert p.target[n] in Published(p);
    forall i | 0 <= i < |p.target|
      ensures At(now, p.target[i]) == At(before, p.target[i]) || At(now, p.target[i]) == At(before, p.stage[i])
    {
      assert !IsTemporary(p.target[i]);
      assert i != n ==> p.target[i] != p.target[n];
    }
  }

  /** So every step of restoring one target keeps it mixed. */
  lemma RestoringIsMixed(
    before: map<Path, Content>, files: map<Path, Content>, was: seq<map<Path, Content>>, now: seq<map<Path, Content>>,
    from: nat, p: Plan, n: nat)
    requires WellFormed(p) && BackedUp(before, p) && Mixed(before, files, p) && n < |p.target|
    requires Grown(was, now) && from <= |was| && AlwaysMixed(before, was, from, p)
    requires AlwaysBut(files, now, |was|, {p.target[n]})
    requires Always(now, |was|, p.target[n], At(files, p.target[n]), At(files, p.backup[n]))
    ensures AlwaysMixed(before, now, from, p)
  {
    forall k | |was| <= k < |now| ensures Mixed(before, now[k], p) {
      StillMixed(before, files, now[k], p, n);
    }
    MixedGrows(before, was, now, from, p);
  }

  /** The first `n` targets are their staged files; the rest of the stage still waits. */
  ghost predicate PublishedTo(before: map<Path, Content>, files: map<Path, Content>, p: Plan, n: nat)
    requires WellFormed(p) && n <= |p.target|
  {
    && (forall i {:trigger p.target[i]} :: 0 <= i < n ==>
          p.stage[i] in before && At(files, p.target[i]) == At(before, p.stage[i]))
    && (forall i {:trigger p.stage[i]} :: n <= i < |p.target| ==> At(files, p.stage[i]) == At(before, p.stage[i]))
  }

  /** What a rename makes of the files. */
  function Renamed(files: map<Path, Content>, from: Path, to: Path): map<Path, Content>
    requires from in files
  {
    (files - {from})[to := files[from]]
  }

  lemma RenameAdvances(before: map<Path, Content>, files: map<Path, Content>, p: Plan, n: nat)
    requires WellFormed(p) && n < |p.target| && PublishedTo(before, files, p, n) && p.stage[n] in files
    ensures PublishedTo(before, Renamed(files, p.stage[n], p.target[n]), p, n + 1)
  {
    var now := Renamed(files, p.stage[n], p.target[n]);
    assert At(files, p.stage[n]) == At(before, p.stage[n]);
    forall i | 0 <= i < |p.target|
      ensures i != n ==> At(now, p.target[i]) == At(files, p.target[i]) && At(now, p.stage[i]) == At(files, p.stage[i])
    {
      assert p.target[i] != p.stage[n] && p.stage[i] != p.target[n];
    }
  }

  lemma RenameIsMixed(before: map<Path, Content>, files: map<Path, Content>, p: Plan, n: nat)
    requires WellFormed(p) && n < |p.target| && PublishedTo(before, files, p, n) && p.stage[n] in files
    requires Mixed(before, files, p)
    ensures Mixed(before, Renamed(files, p.stage[n], p.target[n]), p)
  {
    var now := Renamed(files, p.stage[n], p.target[n]);
    assert At(files, p.stage[n]) == At(before, p.stage[n]);
    assert p.stage[n] in Published(p) && p.target[n] in Published(p);
    forall i | 0 <= i < |p.target|
      ensures At(now, p.target[i]) == At(before, p.target[i]) || At(now, p.target[i]) == At(before, p.stage[i])
    {
      assert p.target[i] != p.stage[n];
    }
  }

  lemma OneMixedStep(
    before: map<Path, Content>, was: seq<map<Path, Content>>, now: seq<map<Path, Content>>, from: nat,
    after: map<Path, Content>, p: Plan)
    requires WellFormed(p) && Grown(was, now) && from <= |was| && |now| <= |was| + 1
      && AlwaysMixed(before, was, from, p)
    requires Mixed(before, after, p) && (|now| == |was| + 1 ==> now[|was|] == after)
    ensures AlwaysMixed(before, now, from, p)
  {
    MixedGrows(before, was, now, from, p);
  }

  /** One staged file takes the place of its target, after a hook that may object. */
  method PublishOne(fs: FileSystem, staged: Path, target: Path) returns (ok: bool)
    requires fs.Valid() && staged != target
    modifies fs
    ensures fs.Valid() && Grown(old(fs.trace), fs.trace) && |fs.trace| <= |old(fs.trace)| + 1
    ensures fs.faults >= old(fs.faults) && (ok <==> fs.faults == old(fs.faults) && staged in old(fs.files))
    ensures fs.files == if ok then Renamed(old(fs.files), staged, target) else old(fs.files)
  {
    ok := fs.Attempt();
    if ok {
      ok := fs.Rename(staged, target);
    }
  }

  /** `publishDataDirStage`, given backups of every target. */
  method Publish(fs: FileSystem, p: Plan) returns (ok: bool, errors: set<nat>)
    requires fs.Valid() && WellFormed(p) && BackedUp(fs.files, p)
    modifies fs
    ensures ok ==> forall i :: 0 <= i < |p.target| ==>
      p.stage[i] in old(fs.files) && At(fs.files, p.target[i]) == At(old(fs.files), p.stage[i])
    ensures !ok ==> forall i :: 0 <= i < |p.target| && i !in errors ==>
      At(fs.files, p.target[i]) == At(old(fs.files), p.target[i])
    ensures ok <==> fs.faults == old(fs.faults) && forall i :: 0 <= i < |p.stage| ==> p.stage[i] in old(fs.files)
    ensures |errors| <= fs.faults - old(fs.faults)
    ensures fs.Valid() && Grown(old(fs.trace), fs.trace)
    ensures AlwaysMixed(old(fs.files), fs.trace, |old(fs.trace)|, p) && Mixed(old(fs.files), fs.files, p)
  {
    ghost var before, from := fs.files, |fs.trace|;
    errors := {};
    for n := 0 to |p.target|
      invariant fs.Valid() && Grown(old(fs.trace), fs.trace)
      invariant AlwaysMixed(before, fs.trace, from, p) && Mixed(before, fs.files, p)
      invariant PublishedTo(before, fs.files, p, n) && fs.faults == old(fs.faults)
    {
      ghost var was, files := fs.trace, fs.files;
      assert At(files, p.stage[n]) == At(before, p.stage[n]);
      ok := PublishOne(fs, p.stage[n], p.target[n]);
      if ok {
        RenameAdvances(before, files, p, n);
        RenameIsMixed(before, files, p, n);
      }
      OneMixedStep(before, was, fs.trace, from, fs.files, p);
      if !ok {
        was := fs.trace;
        errors := RollBack(fs, p, before);
        MixedGrows(before, was, fs.trace, from, p);
        return;
      }
    }
    ok := true;
  }

  /** Targets and staged files do not notice the backups being made. */
  lemma BackupsAreApart(before: map<Path, Content>, files: map<Path, Content>, p: Plan, i: nat)
    requires WellFormed(p) && SameBut(before, files, Paths(p.backup)) && i < |p.target|
    ensures At(files, p.target[i]) == At(before, p.target[i]) && At(files, p.stage[i]) == At(before, p.stage[i])
  {
    assert !IsTemporary(p.target[i]) && !IsTemporary(p.stage[i]);
  }

  lemma EitherAfterBackup(before: map<Path, Content>, mid: map<Path, Content>, files: map<Path, Content>, p: Plan)
    requires WellFormed(p) && SameBut(before, mid, Paths(p.backup)) && EitherGeneration(mid, files, p)
    ensures EitherGeneration(before, files, p)
  {
    forall i | 0 <= i < |p.target|
      ensures At(files, p.target[i]) == At(before, p.target[i]) || At(files, p.target[i]) == At(before, p.stage[i])
    {
      BackupsAreApart(before, mid, p, i);
    }
  }

  lemma EitherWhileBackingUp(before: map<Path, Content>, trace: seq<map<Path, Content>>, from: nat, p: Plan)
    requires WellFormed(p) && AlwaysBut(before, trace, from, Paths(p.backup))
    ensures AlwaysEither(before, trace, from, p)
  {
    forall k | from <= k < |trace| ensures EitherGeneration(before, trace[k], p) {
      forall i | 0 <= i < |p.target| ensures At(trace[k], p.target[i]) == At(before, p.target[i]) {
        BackupsAreApart(before, trace[k], p, i);
      }
    }
  }

  lemma EitherThroughout(
    before: map<Path, Content>, mid: map<Path, Content>, was: seq<map<Path, Content>>, now: seq<map<Path, Content>>,
    from: nat, p: Plan)
    requires WellFormed(p) && Grown(was, now) && from <= |was|
    requires AlwaysBut(before, was, from, Paths(p.backup)) && SameBut(before, mid, Paths(p.backup))
    requires AlwaysMixed(mid, now, |was|, p)
    ensures AlwaysEither(before, now, from, p)
  {
    EitherWhileBackingUp(before, was, from, p);
    forall k | from <= k < |now| ensures EitherGeneration(before, now[k], p) {
      if k < |was| {
        assert now[k] == now[..|was|][k] == was[k];
      } else {
        EitherAfterBackup(before, mid, now[k], p);
      }
    }
  }

  lemma CompleteBackup(before: map<Path, Content>, files: map<Path, Content>, p: Plan)
    requires WellFormed(p) && BackedUpTo(before, files, p, |p.target|)
    ensures BackedUp(files, p)
  {
    forall i | 0 <= i < |p.target| ensures At(files, p.backup[i]) == At(files, p.target[i]) {
      BackupsAreApart(before, files, p, i);
    }
  }

  /** The two together, as the synchronisation runs them into a fresh backup directory. Whatever
      fails and wherever: success means every target is its staged file, and failure means every
      target is what it was before, absence included, but for those reported as not restored; at no
      step does a target hold anything else, and no other file but stage and backup is touched. */
  method BackUpAndPublish(fs: FileSystem, p: Plan) returns (ok: bool, errors: set<nat>)
    requires fs.Valid() && WellFormed(p) && forall i :: 0 <= i < |p.backup| ==> p.backup[i] !in fs.files
    modifies fs
    ensures ok ==> forall i :: 0 <= i < |p.target| ==>
      p.stage[i] in old(fs.files) && At(fs.files, p.target[i]) == At(old(fs.files), p.stage[i])
    ensures !ok ==> forall i :: 0 <= i < |p.target| && i !in errors ==>
      At(fs.files, p.target[i]) == At(old(fs.files), p.target[i])
    ensures ok <==> fs.faults == old(fs.faults) && forall i :: 0 <= i < |p.stage| ==> p.stage[i] in old(fs.files)
    ensures |errors| <= fs.faults - old(fs.faults)
    ensures fs.Valid() && Grown(old(fs.trace), fs.trace) && AlwaysEither(old(fs.files), fs.trace, |old(fs.trace)|, p)
    ensures SameBut(old(fs.files), fs.files, Published(p) + Paths(p.backup))
  {
    ok := BackUp(fs, p);
    errors := {};
    ghost var mid, was := fs.files, fs.trace;
    EitherWhileBackingUp(old(fs.files), was, |old(fs.trace)|, p);
    forall i | 0 <= i < |p.target|
      ensures At(mid, p.target[i]) == At(old(fs.files), p.target[i])
        && At(mid, p.stage[i]) == At(old(fs.files), p.stage[i])
    {
      BackupsAreApart(old(fs.files), mid, p, i);
    }
    if ok {
      CompleteBackup(old(fs.files), mid, p);
      ok, errors := Publish(fs, p);
      EitherThroughout(old(fs.files), mid, was, fs.trace, |old(fs.trace)|, p);
    }
  }

  // ------------------------------------------------------------------ the data directory

  const FILE_NAMES := [
    "workspaces.yaml", "item-index.yaml", "audit-log.jsonl", "saved-filters.yaml",
    "recent-items.yaml", "ai-settings.yaml", "canvases.yaml", "ai-session-records.yaml"]

  function InDirectory(dir: Path): (paths: seq<Path>)
    ensures |paths| == |FILE_NAMES|
  {
    seq(|FILE_NAMES|, i requires 0 <= i < |FILE_NAMES| => dir + "/" + FILE_NAMES[i])
  }

  function DataDirPlan(dir: Path, stageDir: Path, backupDir: Path): Plan {
    Plan(InDirectory(stageDir), InDirectory(dir), InDirectory(backupDir))
  }

  /** A path splits at its last slash in one way. */
  lemma LastSlash(a: string, m: string, b: string, n: string)
    requires '/' !in m && '/' !in n && a + "/" + m == b + "/" + n
    ensures a == b && m == n
  {
    var s, t := a + "/" + m, b + "/" + n;
    assert s[|a|] == '/' && t[|b|] == '/';
    assert forall i :: |a| < i < |s| ==> s[i] == m[i - |a| - 1];
    assert forall i :: |b| < i < |t| ==> t[i] == n[i - |b| - 1];
    assert a == s[..|a|] && b == t[..|b|] && m == s[|a| + 1..] && n == t[|b| + 1..];
  }

  lemma FileNamesDiffer(i: nat, j: nat)
    requires i < j < |FILE_NAMES|
    ensures FILE_NAMES[i] != FILE_NAMES[j]
  {
    var m, n := FILE_NAMES[i], FILE_NAMES[j];
    assert m[0] != n[0] || m[1] != n[1] || m[5] != n[5];
  }

  lemma FilesDiffer(a: Path, b: Path, i: nat, j: nat)
    requires i < |FILE_NAMES| && j < |FILE_NAMES| && (a != b || i != j)
    ensures InDirectory(a)[i] != InDirectory(b)[j]
  {
    if InDirectory(a)[i] == InDirectory(b)[j] {
      LastSlash(a, FILE_NAMES[i], b, FILE_NAMES[j]);
      if i < j { FileNamesDiffer(i, j); } else { FileNamesDiffer(j, i); }
      assert false;
    }
  }

  /** The plan the synchronisation uses meets what the results above ask for. */
  lemma DataDirPlanIsWellFormed(dir: Path, stageDir: Path, backupDir: Path)
    requires dir != stageDir && dir != backupDir && stageDir != backupDir
    requires forall d :: d in [dir, stageDir, backupDir] ==> d != "" && d[0] == '/'
    ensures WellFormed(DataDirPlan(dir, stageDir, backupDir)) && |FILE_NAMES| == 8
  {
    forall a, b, i: nat, j: nat | i < |FILE_NAMES| && j < |FILE_NAMES| && (a != b || i != j)
      ensures InDirectory(a)[i] != InDirectory(b)[j]
    {
      FilesDiffer(a, b, i, j);
    }
    assert dir in [dir, stageDir, backupDir] && stageDir in [dir, stageDir, backupDir]
      && backupDir in [dir, stageDir, backupDir];
  }
}
