/**
  A file system as a map from paths to contents. Every operation may fail, and one that fails
  leaves the files alone, except that a failed write may leave any part of its data behind.
 */
module Disk {
  import opened Options

  type Path = string
  type Content = string

  datatype ReadResult = Contents(data: Content) | Missing | Unreadable

  /** Temporary files are hidden files; nothing else the model names is one. */
  predicate IsTemporary(path: Path) {
    path != "" && path[0] == '.'
  }

  function At(files: map<Path, Content>, path: Path): Option<Content> {
    if path in files then Some(files[path]) else None
  }

  /** The files agree except on temporaries and the listed paths. */
  ghost predicate SameBut(a: map<Path, Content>, b: map<Path, Content>, paths: set<Path>) {
    forall p {:trigger IsTemporary(p)} :: !IsTemporary(p) && p !in paths ==> At(a, p) == At(b, p)
  }

  /** From step `from` on, the path held one generation or the other, and nothing else. */
  ghost predicate Always(
    trace: seq<map<Path, Content>>, from: nat, path: Path, a: Option<Content>, b: Option<Content>)
  {
    forall i :: from <= i < |trace| ==> At(trace[i], path) == a || At(trace[i], path) == b
  }

  ghost predicate Grown(was: seq<map<Path, Content>>, now: seq<map<Path, Content>>) {
    |was| <= |now| && now[..|was|] == was
  }

  /** Two stretches of a trace in which the path held one of two generations make one. */
  lemma AlwaysJoins(
    mid: seq<map<Path, Content>>, now: seq<map<Path, Content>>, from: nat, path: Path,
    a: Option<Content>, b: Option<Content>, c: Option<Content>, d: Option<Content>)
    requires Grown(mid, now) && from <= |mid|
    requires Always(mid, from, path, a, b) && Always(now, |mid|, path, c, d)
    requires c in {a, b} && d in {a, b}
    ensures Always(now, from, path, a, b)
  {
    forall i | from <= i < |now| ensures At(now[i], path) == a || At(now[i], path) == b {
      if i < |mid| { assert now[i] == now[..|mid|][i] == mid[i]; }
    }
  }

  /** From step `from` on, nothing but temporaries and the listed paths differed. */
  ghost predicate AlwaysBut(before: map<Path, Content>, trace: seq<map<Path, Content>>, from: nat, paths: set<Path>) {
    forall i :: from <= i < |trace| ==> SameBut(before, trace[i], paths)
  }

  /** One more step, which touched only one file, a temporary. */
  lemma OneMoreTemporary(
    before: map<Path, Content>, was: seq<map<Path, Content>>, now: seq<map<Path, Content>>, from: nat, name: Path)
    requires 0 < |was| && |now| == |was| + 1 && Grown(was, now) && IsTemporary(name)
    requires SameBut(before, was[|was| - 1], {}) && AlwaysBut(before, was, from, {})
    requires forall p :: p != name ==> At(now[|was|], p) == At(was[|was| - 1], p)
    ensures SameBut(before, now[|was|], {}) && AlwaysBut(before, now, from, {})
  {
    forall i | from <= i < |now| ensures SameBut(before, now[i], {}) {
      if i < |was| { assert now[i] == now[..|was|][i] == was[i]; }
    }
  }

  class FileSystem {
    var files: map<Path, Content>
    ghost var trace: seq<map<Path, Content>> // every state the files have been in
    ghost var faults: nat // how many operations have failed by chance

    ghost predicate Valid()
      reads this
    {
      trace != [] && trace[|trace| - 1] == files
    }

    constructor (files: map<Path, Content>)
      ensures this.files == files && Valid() && faults == 0
    {
      this.files := files;
      trace, faults := [files], 0;
    }

    /** Whether the next operation goes well. */
    method Chance() returns (ok: bool)
      modifies this`faults
      ensures faults == old(faults) + if ok then 0 else 1
    {
      ok := *;
      faults := faults + if ok then 0 else 1;
    }

    /** Any step that does not change contents: a mode, a sync, a close, a hook. */
    method Attempt() returns (ok: bool)
      modifies this`faults
      ensures faults == old(faults) + if ok then 0 else 1
    {
      ok := Chance();
    }

    method Read(path: Path) returns (r: ReadResult)
      modifies this`faults
      ensures faults == old(faults) + if r.Unreadable? then 1 else 0
      ensures r.Contents? ==> At(files, path) == Some(r.data)
      ensures r.Missing? ==> path !in files
    {
      var readable := Chance();
      r := if !readable then Unreadable else if path in files then Contents(files[path]) else Missing;
    }

    /** Whether the file is there: a failed stat is no answer. */
    method Stat(path: Path) returns (r: Option<bool>)
      modifies this`faults
      ensures faults == old(faults) + if r.None? then 1 else 0
      ensures r.Some? ==> (r.value <==> path in files)
    {
      var answered := Chance();
      r := if answered then Some(path in files) else None;
    }

    method CreateTemp() returns (name: Option<Path>)
      requires Valid()
      modifies this
      ensures faults == old(faults) + if name.None? then 1 else 0
      ensures Valid() && |trace| == |old(trace)| + (if name.Some? then 1 else 0) && Grown(old(trace), trace)
      ensures name.Some? ==>
        IsTemporary(name.value) && name.value !in old(files) && files == old(files)[name.value := ""]
      ensures name.None? ==> files == old(files)
    {
      var candidate: Path := *;
      if !IsTemporary(candidate) || candidate in files {
        faults := faults + 1;
        return None;
      }
      files := files[candidate := ""];
      trace := trace + [files];
      name := Some(candidate);
    }

    method Write(path: Path, data: Content) returns (ok: bool)
      requires Valid()
      modifies this
      ensures faults == old(faults) + if ok then 0 else 1
      ensures Valid() && |trace| == |old(trace)| + 1 && Grown(old(trace), trace)
      ensures path in files && files == old(files)[path := files[path]]
      ensures ok ==> files[path] == data
    {
      var partial: Content := *;
      ok := Chance();
      files := files[path := if ok then data else partial];
      trace := trace + [files];
    }

    method Rename(from: Path, to: Path) returns (ok: bool)
      requires Valid() && from != to
      modifies this
      ensures faults >= old(faults) && (ok <==> faults == old(faults) && from in old(files))
      ensures Valid() && |trace| == |old(trace)| + 1 && Grown(old(trace), trace)
      ensures ok ==> files == (old(files) - {from})[to := old(files)[from]]
      ensures !ok ==> files == old(files)
    {
      ok := Chance();
      ok := ok && from in files;
      if ok {
        var data := files[from];
        files := (files - {from})[to := data];
      }
      trace := trace + [files];
    }

    /** Removing a file that is not there is no error to any caller. */
    method Remove(path: Path) returns (ok: bool)
      requires Valid()
      modifies this
      ensures faults == old(faults) + if ok then 0 else 1
      ensures Valid() && |trace| == |old(trace)| + 1 && Grown(old(trace), trace)
      ensures if ok then files == old(files) - {path} else files == old(files)
    {
      ok := Chance();
      if ok {
        files := files - {path};
      }
      trace := trace + [files];
    }

    /** A temporary file holding the data, or nothing; a leftover of a failed one may stay. */
    method WriteTemp(data: Content) returns (name: Option<Path>)
      requires Valid()
      modifies this
      ensures faults >= old(faults) && (name.Some? <==> faults == old(faults))
      ensures Valid() && Grown(old(trace), trace)
      ensures SameBut(old(files), files, {})
      ensures AlwaysBut(old(files), trace, |old(trace)|, {})
      ensures name.Some? ==> IsTemporary(name.value) && At(files, name.value) == Some(data)
    {
      name := CreateTemp();
      if name.None? {
        return;
      }
      ghost var created := trace;
      OneMoreTemporary(old(files), old(trace), created, |old(trace)|, name.value);
      var mode := Attempt();
      var ok := mode;
      if mode {
        ok := Write(name.value, data);
        OneMoreTemporary(old(files), created, trace, |old(trace)|, name.value);
      }
      var synced := Attempt();
      var closed := Attempt();
      ghost var written := trace;
      if !ok || !synced || !closed {
        var _ := Remove(name.value);
        OneMoreTemporary(old(files), written, trace, |old(trace)|, name.value);
        name := None;
      }
    }
  }
}
