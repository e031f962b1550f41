/**
  Which inputs of a content search become its roots, told input by input: what is taken, skipped and
  refused, and which of the taken ones stand out.
 */
module RootSelection {
  import opened Collections
  import opened CanonicalRoots

  /** The path is the root, or the root, a slash and something more. */
  predicate Below(path: string, root: string) {
    path == root || exists n :: 0 <= n <= |path| && path[..n] == root + "/"
  }

  lemma UnderMeans(path: string, root: string)
    ensures Under(path, root) <==> Below(path, root)
  {
    if |root| < |path| { assert path[..|root| + 1] == path[..|root|] + [path[|root|]]; }
    if n :| 0 <= n <= |path| && path[..n] == root + "/" {
      assert n == |root| + 1 && path[..n][..|root|] == root && path[..n][|root|] == '/';
      assert path[..|root|] == path[..n][..|root|];
    }
  }

  // ------------------------------------------------------------------ one input

  /** The real directory of an input that lies in the workspace. */
  predicate IsTaken(
    path: string, workspace: Result<string>, clean: string -> string, disk: string -> Resolution, r: Root)
  {
    && r.path == clean(path) && disk(clean(path)) == Directory(r.actual)
    && workspace.Ok? && Below(r.actual, workspace.value)
  }

  predicate IsSkipped(path: string, clean: string -> string, disk: string -> Resolution, skipMissing: bool) {
    skipMissing && disk(clean(path)) in {Missing, Unreadable, NotADirectory}
  }

  predicate IsRefused(
    path: string, workspace: Result<string>, clean: string -> string, disk: string -> Resolution, skipMissing: bool,
    error: Error)
  {
    var found := disk(clean(path));
    || (found == Broken && error == Unresolved)
    || (!skipMissing && found == Missing && error == Unresolved)
    || (!skipMissing && found == Unreadable && error == NoInfo)
    || (!skipMissing && found == NotADirectory && error == NotDirectory)
    || (found.Directory? && workspace.Err? && error == workspace.error)
    || (found.Directory? && workspace.Ok? && !Below(found.actual, workspace.value) && error == OutsideRoot)
  }

  lemma JudgeMeans(
    path: string, workspace: Result<string>, clean: string -> string, disk: string -> Resolution, skipMissing: bool)
    ensures var v := Judge(path, workspace, clean, disk, skipMissing);
      && (forall r :: IsTaken(path, workspace, clean, disk, r) <==> v == Verdict.Take(r))
      && (IsSkipped(path, clean, disk, skipMissing) <==> v == Skip)
      && (forall error :: IsRefused(path, workspace, clean, disk, skipMissing, error) <==> v == Refuse(error))
  {
    var found := disk(clean(path));
    if found.Directory? && workspace.Ok? { UnderMeans(found.actual, workspace.value); }
  }

  // ------------------------------------------------------------------ the candidates

  /** The roots of the inputs that are taken, in order; none is refused. */
  ghost predicate AreTaken(
    paths: seq<string>, n: nat, workspace: Result<string>, clean: string -> string, disk: string -> Resolution,
    skipMissing: bool, roots: seq<Root>, picks: seq<nat>)
    requires n <= |paths|
  {
    && IsPick(picks, n) && |picks| == |roots|
    && (forall k :: 0 <= k < |picks| ==> IsTaken(paths[picks[k]], workspace, clean, disk, roots[k]))
    && forall i :: 0 <= i < n && i !in picks ==> IsSkipped(paths[i], clean, disk, skipMissing)
  }

  /** Input `i` is refused, and none before it. */
  ghost predicate IsFirstRefused(
    paths: seq<string>, i: nat, workspace: Result<string>, clean: string -> string, disk: string -> Resolution,
    skipMissing: bool, error: Error)
  {
    && i < |paths| && IsRefused(paths[i], workspace, clean, disk, skipMissing, error)
    && forall j :: 0 <= j < i ==> NotRefused(paths[j], workspace, clean, disk, skipMissing)
  }

  ghost predicate NotRefused(
    path: string, workspace: Result<string>, clean: string -> string, disk: string -> Resolution, skipMissing: bool)
  {
    IsSkipped(path, clean, disk, skipMissing) || exists r :: IsTaken(path, workspace, clean, disk, r)
  }

  ghost predicate CandidatesTell(
    paths: seq<string>, n: nat, workspace: Result<string>, clean: string -> string, disk: string -> Resolution,
    skipMissing: bool, c: Result<seq<Root>>, picks: seq<nat>, refused: nat)
    requires n <= |paths|
  {
    match c
    case Ok(roots) => AreTaken(paths, n, workspace, clean, disk, skipMissing, roots, picks)
    case Err(error) => refused < n && IsFirstRefused(paths, refused, workspace, clean, disk, skipMissing, error)
  }

  lemma CandidateMore(
    paths: seq<string>, n: nat, workspace: Result<string>, clean: string -> string, disk: string -> Resolution,
    skipMissing: bool, roots: seq<Root>, picks: seq<nat>)
    requires n < |paths| && AreTaken(paths, n, workspace, clean, disk, skipMissing, roots, picks)
    ensures match Judge(paths[n], workspace, clean, disk, skipMissing)
      case Take(r) => AreTaken(paths, n + 1, workspace, clean, disk, skipMissing, roots + [r], Pick(picks, n, true))
      case Skip => AreTaken(paths, n + 1, workspace, clean, disk, skipMissing, roots, Pick(picks, n, false))
      case Refuse(error) => IsFirstRefused(paths, n, workspace, clean, disk, skipMissing, error)
  {
    JudgeMeans(paths[n], workspace, clean, disk, skipMissing);
    PickNext(picks, n, Judge(paths[n], workspace, clean, disk, skipMissing).Take?);
    forall j | 0 <= j < n ensures NotRefused(paths[j], workspace, clean, disk, skipMissing) {
      if j in picks {
        var k :| 0 <= k < |picks| && picks[k] == j;
        assert IsTaken(paths[picks[k]], workspace, clean, disk, roots[k]);
      }
    }
  }

  lemma {:induction false} CandidatesAre(
    paths: seq<string>, n: nat, workspace: Result<string>, clean: string -> string, disk: string -> Resolution,
    skipMissing: bool)
    returns (picks: seq<nat>, refused: nat)
    requires n <= |paths|
    ensures CandidatesTell(paths, n, workspace, clean, disk, skipMissing,
                           Candidates(paths[..n], workspace, clean, disk, skipMissing), picks, refused)
  {
    picks, refused := [], 0;
    if n > 0 {
      picks, refused := CandidatesAre(paths, n - 1, workspace, clean, disk, skipMissing);
      assert paths[..n][..n - 1] == paths[..n - 1];
      var before := Candidates(paths[..n - 1], workspace, clean, disk, skipMissing);
      if before.Ok? {
        CandidateMore(paths, n - 1, workspace, clean, disk, skipMissing, before.value, picks);
        var v := Judge(paths[n - 1], workspace, clean, disk, skipMissing);
        picks, refused := Pick(picks, n - 1, v.Take?), n - 1;
      }
    }
  }

  // ------------------------------------------------------------------ the roots

  /** No other candidate holds this one: neither one above it, nor an earlier one for the same directory. */
  predicate StandsOut(c: seq<Root>, n: nat, i: nat)
    requires i < n <= |c|
  {
    forall j :: 0 <= j < n && j != i && Below(c[i].actual, c[j].actual) ==> c[i].actual == c[j].actual && i < j
  }

  /** The candidates at the picked positions. */
  predicate PicksRoots(c: seq<Root>, roots: seq<Root>, picks: seq<nat>) {
    |picks| == |roots| && forall k :: 0 <= k < |picks| ==> picks[k] < |c| && roots[k] == c[picks[k]]
  }

  /** The candidates that stand out, in order. */
  ghost predicate AreChosen(c: seq<Root>, n: nat, roots: seq<Root>, picks: seq<nat>)
    requires n <= |c|
  {
    IsPick(picks, n) && PicksRoots(c, roots, picks) && forall i :: 0 <= i < n ==> (i in picks <==> StandsOut(c, n, i))
  }

  lemma {:induction false} KeptPicks(c: seq<Root>, n: nat, roots: seq<Root>, picks: seq<nat>, candidate: Root)
    returns (kept: seq<nat>)
    requires n <= |c| && IsPick(picks, n) && PicksRoots(c, roots, picks)
    ensures IsPick(kept, n) && |kept| == |Kept(roots, candidate)|
    ensures forall k :: 0 <= k < |kept| ==> Kept(roots, candidate)[k] == c[kept[k]]
    ensures forall i :: 0 <= i < n ==> (i in kept <==> i in picks && !Falls(c[i], candidate))
    decreases |roots|
  {
    kept := [];
    if roots != [] {
      var m := |roots| - 1;
      var last := picks[m];
      assert picks == picks[..m] + [last];
      kept := KeptPicks(c, last, roots[..m], picks[..m], candidate);
      PickNext(kept, last, !Falls(c[last], candidate));
      kept := Pick(kept, last, !Falls(c[last], candidate));
    }
  }

  lemma StandsOutMore(c: seq<Root>, n: nat)
    requires n < |c|
    ensures forall i :: 0 <= i < n ==> (StandsOut(c, n + 1, i) <==> StandsOut(c, n, i) && !Falls(c[i], c[n]))
    ensures StandsOut(c, n + 1, n) <==> !Covered(Reduce(c[..n]), c[n].actual)
  {
    forall i | 0 <= i < n ensures StandsOut(c, n + 1, i) <==> StandsOut(c, n, i) && !Falls(c[i], c[n]) {
      UnderMeans(c[i].actual, c[n].actual);
    }
    ReduceCovers(c[..n], c[n].actual);
    forall j | 0 <= j < n ensures Under(c[n].actual, c[..n][j].actual) <==> Below(c[n].actual, c[j].actual) {
      UnderMeans(c[n].actual, c[j].actual);
    }
  }

  lemma PicksOneMore(c: seq<Root>, n: nat, roots: seq<Root>, picks: seq<nat>, take: bool)
    requires n < |c| && PicksRoots(c, roots, picks)
    ensures PicksRoots(c, roots + (if take then [c[n]] else []), Pick(picks, n, take))
  {
  }

  lemma StandsOutPicked(c: seq<Root>, n: nat, before: seq<nat>, picks: seq<nat>, i: nat)
    requires n < |c| && IsPick(picks, n) && i <= n
    requires i < n ==> (i in before <==> StandsOut(c, n, i)) && (i in picks <==> i in before && !Falls(c[i], c[n]))
    ensures i in Pick(picks, n, StandsOut(c, n + 1, n)) <==> StandsOut(c, n + 1, i)
  {
    StandsOutMore(c, n);
    PickNext(picks, n, StandsOut(c, n + 1, n));
  }

  lemma ChosenMore(c: seq<Root>, n: nat, roots: seq<Root>, before: seq<nat>, kept: seq<Root>, picks: seq<nat>)
    requires n < |c| && AreChosen(c, n, roots, before) && IsPick(picks, n) && PicksRoots(c, kept, picks)
    requires forall i :: 0 <= i < n ==> (i in picks <==> i in before && !Falls(c[i], c[n]))
    ensures var stands := StandsOut(c, n + 1, n);
      AreChosen(c, n + 1, kept + (if stands then [c[n]] else []), Pick(picks, n, stands))
  {
    var stands := StandsOut(c, n + 1, n);
    PickNext(picks, n, stands);
    PicksOneMore(c, n, kept, picks, stands);
    forall i | 0 <= i < n + 1 ensures i in Pick(picks, n, stands) <==> StandsOut(c, n + 1, i) {
      StandsOutPicked(c, n, before, picks, i);
    }
  }

  lemma {:induction false} ReduceChoosesOut(c: seq<Root>, n: nat) returns (picks: seq<nat>)
    requires n <= |c|
    ensures AreChosen(c, n, Reduce(c[..n]), picks)
  {
    picks := [];
    if n > 0 {
      var before := ReduceChoosesOut(c, n - 1);
      var roots, last := Reduce(c[..n - 1]), c[n - 1];
      assert c[..n] == c[..n - 1] + [last];
      ReduceMore(c[..n - 1], last);
      var kept := KeptPicks(c, n - 1, roots, before, last);
      StandsOutMore(c, n - 1);
      ChosenMore(c, n - 1, roots, before, Kept(roots, last), kept);
      picks := Pick(kept, n - 1, StandsOut(c, n, n - 1));
    }
  }

  // ------------------------------------------------------------------ the result

  /** The paths of the roots that stand out among all that are taken; or the error of the first input
      that is refused. */
  ghost predicate RootsTell(
    paths: seq<string>, workspace: Result<string>, clean: string -> string, disk: string -> Resolution,
    skipMissing: bool, result: Result<seq<string>>)
  {
    match result
    case Ok(found) =>
      exists taken: seq<Root>, from: seq<nat>, roots: seq<Root>, picks: seq<nat> ::
        && AreTaken(paths, |paths|, workspace, clean, disk, skipMissing, taken, from)
        && AreChosen(taken, |taken|, roots, picks)
        && |found| == |roots| && forall k :: 0 <= k < |found| ==> found[k] == roots[k].path
    case Err(error) =>
      exists i: nat :: IsFirstRefused(paths, i, workspace, clean, disk, skipMissing, error)
  }

  /** What the search walks, for every list of inputs. */
  lemma RootsAreTold(
    paths: seq<string>, workspace: Result<string>, clean: string -> string, disk: string -> Resolution,
    skipMissing: bool)
    ensures var c := Candidates(paths, workspace, clean, disk, skipMissing);
      RootsTell(paths, workspace, clean, disk, skipMissing,
                if c.Ok? then Ok(PathsOf(Reduce(c.value))) else Err(c.error))
  {
    var c := Candidates(paths, workspace, clean, disk, skipMissing);
    assert paths[..|paths|] == paths;
    var from, refused := CandidatesAre(paths, |paths|, workspace, clean, disk, skipMissing);
    if c.Ok? {
      var picks := ReduceChoosesOut(c.value, |c.value|);
      assert c.value[..|c.value|] == c.value;
      assert AreChosen(c.value, |c.value|, Reduce(c.value), picks);
    }
  }
}
