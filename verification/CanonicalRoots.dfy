/**
  The directories a content search walks: nested and repeated inputs are reduced, in place, to
  roots none of which contains another. Resolving a path on disk is a parameter.
 */
module CanonicalRoots {
  datatype Root = Root(path: string, actual: string)

  /** What the disk says about one input: its real directory, or why there is none. */
  datatype Resolution = Missing | Broken | Unreadable | NotADirectory | Directory(actual: string)

  datatype Error = Unresolved | NoInfo | NotDirectory | OutsideRoot

  datatype Result<T> = Ok(value: T) | Err(error: Error)

  /** The path is the root or lies below it. */
  predicate Under(path: string, root: string) {
    path == root || (|root| < |path| && path[..|root|] == root && path[|root|] == '/')
  }

  lemma UnderIsTransitive(a: string, b: string, c: string)
    requires Under(a, b) && Under(b, c)
    ensures Under(a, c)
  {
    if a != b && b != c {
      assert a[..|c|] == a[..|b|][..|c|];
      assert a[|c|] == a[..|b|][|c|];
    }
  }

  lemma UnderIsAntisymmetric(a: string, b: string)
    requires Under(a, b) && Under(b, a)
    ensures a == b
  {
  }

  // ------------------------------------------------------------------ one candidate

  function Kept(roots: seq<Root>, candidate: Root): seq<Root> {
    if roots == [] then []
    else
      var last := roots[|roots| - 1];
      Kept(roots[..|roots| - 1], candidate)
      + if Falls(last, candidate) then [] else [last]
  }

  predicate Covered(roots: seq<Root>, path: string) {
    exists i :: 0 <= i < |roots| && Under(path, roots[i].actual)
  }

  function Add(roots: seq<Root>, candidate: Root): seq<Root> {
    Kept(roots, candidate) + if Covered(roots, candidate.actual) then [] else [candidate]
  }

  /** No root lies below another, and none is repeated. */
  predicate Antichain(roots: seq<Root>) {
    forall i, j :: 0 <= i < |roots| && 0 <= j < |roots| && i != j ==> !Under(roots[i].actual, roots[j].actual)
  }

  predicate Falls(r: Root, candidate: Root) {
    r.actual != candidate.actual && Under(r.actual, candidate.actual)
  }

  lemma {:induction false} KeptMembers(roots: seq<Root>, candidate: Root)
    ensures forall r :: r in Kept(roots, candidate) <==> r in roots && !Falls(r, candidate)
  {
    if roots != [] {
      var rest, last := roots[..|roots| - 1], roots[|roots| - 1];
      KeptMembers(rest, candidate);
      assert roots == rest + [last];
    }
  }

  /** Roots that a root neither covers nor lies below can be joined by it. */
  lemma AntichainMore(kept: seq<Root>, last: Root)
    requires Antichain(kept)
    requires forall r :: r in kept ==> !Under(r.actual, last.actual) && !Under(last.actual, r.actual)
    ensures Antichain(kept + [last])
  {
    var all := kept + [last];
    forall i, j | 0 <= i < |all| && 0 <= j < |all| && i != j ensures !Under(all[i].actual, all[j].actual) {
      assert i < |kept| ==> all[i] in kept;
      assert j < |kept| ==> all[j] in kept;
    }
  }

  lemma LastIsApart(roots: seq<Root>, r: Root)
    requires Antichain(roots) && roots != [] && r in roots[..|roots| - 1]
    ensures var last := roots[|roots| - 1]; !Under(r.actual, last.actual) && !Under(last.actual, r.actual)
  {
    var i :| 0 <= i < |roots| - 1 && roots[..|roots| - 1][i] == r;
    assert roots[i] == r;
  }

  lemma {:induction false} KeptIs(roots: seq<Root>, candidate: Root)
    requires Antichain(roots)
    ensures Antichain(Kept(roots, candidate))
    ensures forall r :: r in Kept(roots, candidate) <==> r in roots && !Falls(r, candidate)
  {
    KeptMembers(roots, candidate);
    if roots != [] {
      var rest, last := roots[..|roots| - 1], roots[|roots| - 1];
      KeptIs(rest, candidate);
      forall r | r in Kept(rest, candidate) ensures !Under(r.actual, last.actual) && !Under(last.actual, r.actual) {
        LastIsApart(roots, r);
      }
      AntichainMore(Kept(rest, candidate), last);
    }
  }

  lemma AddKeepsAntichain(roots: seq<Root>, candidate: Root)
    requires Antichain(roots)
    ensures Antichain(Add(roots, candidate))
  {
    KeptIs(roots, candidate);
    var kept := Kept(roots, candidate);
    if !Covered(roots, candidate.actual) {
      forall i | 0 <= i < |kept|
        ensures !Under(kept[i].actual, candidate.actual) && !Under(candidate.actual, kept[i].actual)
      {
        assert kept[i] in kept && kept[i] in roots;
      }
    }
  }

  /** The candidate's subtree is added to what is covered; nothing is lost. */
  lemma AddCovers(roots: seq<Root>, candidate: Root, path: string)
    requires Antichain(roots)
    ensures Covered(Add(roots, candidate), path) <==> Covered(roots, path) || Under(path, candidate.actual)
  {
    KeptIs(roots, candidate);
    var after := Add(roots, candidate);
    assert forall r ::
      r in after <==> r in Kept(roots, candidate) || (r == candidate && !Covered(roots, candidate.actual));
    if Covered(after, path) {
      var i :| 0 <= i < |after| && Under(path, after[i].actual);
      assert after[i] in after;
    }
    if Under(path, candidate.actual) {
      CandidateStays(roots, candidate, path);
    } else if Covered(roots, path) {
      var i :| 0 <= i < |roots| && Under(path, roots[i].actual);
      if roots[i] !in after { UnderIsTransitive(path, roots[i].actual, candidate.actual); }
      assert roots[i] in after;
    }
  }

  lemma CandidateStays(roots: seq<Root>, candidate: Root, path: string)
    requires Antichain(roots) && Under(path, candidate.actual)
    ensures Covered(Add(roots, candidate), path)
  {
    KeptIs(roots, candidate);
    var after := Add(roots, candidate);
    if Covered(roots, candidate.actual) {
      var i :| 0 <= i < |roots| && Under(candidate.actual, roots[i].actual);
      UnderIsTransitive(path, candidate.actual, roots[i].actual);
      if Under(roots[i].actual, candidate.actual) { UnderIsAntisymmetric(roots[i].actual, candidate.actual); }
      assert after == Kept(roots, candidate) && roots[i] in after;
      var j :| 0 <= j < |after| && after[j] == roots[i];
    } else {
      assert after[|after| - 1] == candidate;
    }
  }

  // ------------------------------------------------------------------ all candidates

  function Reduce(candidates: seq<Root>): seq<Root> {
    if candidates == [] then [] else Add(Reduce(candidates[..|candidates| - 1]), candidates[|candidates| - 1])
  }

  lemma CoveredByMore(roots: seq<Root>, last: Root, path: string)
    ensures Covered(roots + [last], path) <==> Covered(roots, path) || Under(path, last.actual)
  {
    var all := roots + [last];
    if Covered(roots, path) {
      var i :| 0 <= i < |roots| && Under(path, roots[i].actual);
      assert all[i] == roots[i];
    }
    assert all[|roots|] == last;
  }

  lemma ReduceMore(before: seq<Root>, root: Root)
    ensures Reduce(before + [root]) == Add(Reduce(before), root)
  {
    assert (before + [root])[..|before|] == before;
  }

  /** Whatever the order and the overlap of the inputs, no root lies below another. */
  lemma {:induction false} ReduceIsAntichain(candidates: seq<Root>)
    ensures Antichain(Reduce(candidates))
  {
    if candidates != [] {
      ReduceIsAntichain(candidates[..|candidates| - 1]);
      AddKeepsAntichain(Reduce(candidates[..|candidates| - 1]), candidates[|candidates| - 1]);
    }
  }

  lemma {:induction false} ReduceChooses(candidates: seq<Root>)
    ensures |Reduce(candidates)| <= |candidates| && forall r :: r in Reduce(candidates) ==> r in candidates
  {
    if candidates != [] {
      var rest, last := candidates[..|candidates| - 1], candidates[|candidates| - 1];
      ReduceChooses(rest);
      ReduceIsAntichain(rest);
      AddChooses(Reduce(rest), last);
    }
  }

  /** The roots cover exactly what the inputs cover together. */
  lemma {:induction false} ReduceCovers(candidates: seq<Root>, path: string)
    ensures Covered(Reduce(candidates), path) <==> Covered(candidates, path)
  {
    if candidates != [] {
      var rest, last := candidates[..|candidates| - 1], candidates[|candidates| - 1];
      ReduceCovers(rest, path);
      ReduceIsAntichain(rest);
      AddCovers(Reduce(rest), last, path);
      CoveredByMore(rest, last, path);
      assert candidates == rest + [last];
    }
  }

  lemma AddChooses(roots: seq<Root>, candidate: Root)
    requires Antichain(roots)
    ensures |Add(roots, candidate)| <= |roots| + 1
    ensures forall r :: r in Add(roots, candidate) ==> r in roots || r == candidate
  {
    KeptIs(roots, candidate);
    KeptShrinks(roots, candidate);
  }

  lemma {:induction false} KeptShrinks(roots: seq<Root>, candidate: Root)
    ensures |Kept(roots, candidate)| <= |roots|
  {
    if roots != [] { KeptShrinks(roots[..|roots| - 1], candidate); }
  }

  // ------------------------------------------------------------------ the inputs

  datatype Verdict = Take(root: Root) | Skip | Refuse(error: Error)

  /** One input; `clean` makes the path relative, `disk` follows its links. */
  function Judge(
    path: string, workspace: Result<string>, clean: string -> string, disk: string -> Resolution,
    skipMissing: bool): Verdict
  {
    match disk(clean(path))
    case Missing => if skipMissing then Skip else Refuse(Unresolved)
    case Broken => Refuse(Unresolved)
    case Unreadable => if skipMissing then Skip else Refuse(NoInfo)
    case NotADirectory => if skipMissing then Skip else Refuse(NotDirectory)
    case Directory(actual) =>
      if workspace.Err? then Refuse(workspace.error)
      else if !Under(actual, workspace.value) then Refuse(OutsideRoot)
      else Take(Root(clean(path), actual))
  }

  /** The roots of the inputs, in order, unless one is refused. */
  function Candidates(
    paths: seq<string>, workspace: Result<string>, clean: string -> string, disk: string -> Resolution,
    skipMissing: bool)
    : Result<seq<Root>>
  {
    if paths == [] then Ok([])
    else
      var before := Candidates(paths[..|paths| - 1], workspace, clean, disk, skipMissing);
      if before.Err? then before
      else
        match Judge(paths[|paths| - 1], workspace, clean, disk, skipMissing)
        case Take(root) => Ok(before.value + [root])
        case Skip => before
        case Refuse(error) => Err(error)
  }

  function PathsOf(roots: seq<Root>): seq<string> {
    seq(|roots|, i requires 0 <= i < |roots| => roots[i].path)
  }

  lemma {:induction false} CandidatesFit(
    paths: seq<string>, workspace: Result<string>, clean: string -> string, disk: string -> Resolution,
    skipMissing: bool)
    ensures var c := Candidates(paths, workspace, clean, disk, skipMissing);
      c.Ok? ==> |c.value| <= |paths| && forall r :: r in c.value ==> workspace.Ok? && Under(r.actual, workspace.value)
  {
    if paths != [] { CandidatesFit(paths[..|paths| - 1], workspace, clean, disk, skipMissing); }
  }

  /** An error in a prefix is the error of the whole. */
  lemma {:induction false} FirstRefusal(
    paths: seq<string>, n: nat, workspace: Result<string>, clean: string -> string, disk: string -> Resolution,
    skipMissing: bool)
    requires n <= |paths| && Candidates(paths[..n], workspace, clean, disk, skipMissing).Err?
    ensures Candidates(paths, workspace, clean, disk, skipMissing)
      == Candidates(paths[..n], workspace, clean, disk, skipMissing)
    decreases |paths|
  {
    if n < |paths| {
      assert paths[..|paths| - 1][..n] == paths[..n];
      FirstRefusal(paths[..|paths| - 1], n, workspace, clean, disk, skipMissing);
    } else {
      assert paths[..n] == paths;
    }
  }

  lemma CandidatesMore(
    paths: seq<string>, i: nat, workspace: Result<string>, clean: string -> string, disk: string -> Resolution,
    skipMissing: bool)
    requires i < |paths| && Candidates(paths[..i], workspace, clean, disk, skipMissing).Ok?
    ensures var before := Candidates(paths[..i], workspace, clean, disk, skipMissing).value;
      Candidates(paths[..i + 1], workspace, clean, disk, skipMissing)
        == match Judge(paths[i], workspace, clean, disk, skipMissing)
           case Take(root) => Ok(before + [root])
           case Skip => Ok(before)
           case Refuse(error) => Err(error)
  {
    assert paths[..i + 1][..i] == paths[..i];
  }

  /** The first `i` inputs were accepted, and these are their roots. */
  ghost predicate Accepted(
    paths: seq<string>, i: nat, workspace: Result<string>, clean: string -> string, disk: string -> Resolution,
    skipMissing: bool, taken: seq<Root>)
    requires i <= |paths|
  {
    Candidates(paths[..i], workspace, clean, disk, skipMissing) == Ok(taken)
  }

  /** What one more input does to the candidates, or to the whole. */
  lemma JudgedMore(
    paths: seq<string>, i: nat, workspace: Result<string>, clean: string -> string, disk: string -> Resolution,
    skipMissing: bool, taken: seq<Root>, verdict: Verdict)
    requires i < |paths| && Accepted(paths, i, workspace, clean, disk, skipMissing, taken)
    requires verdict == Judge(paths[i], workspace, clean, disk, skipMissing)
    ensures verdict.Take? ==> Accepted(paths, i + 1, workspace, clean, disk, skipMissing, taken + [verdict.root])
    ensures verdict.Skip? ==> Accepted(paths, i + 1, workspace, clean, disk, skipMissing, taken)
    ensures verdict.Refuse? ==> Candidates(paths, workspace, clean, disk, skipMissing) == Err(verdict.error)
  {
    CandidatesMore(paths, i, workspace, clean, disk, skipMissing);
    if verdict.Refuse? {
      FirstRefusal(paths, i + 1, workspace, clean, disk, skipMissing);
    }
  }

  lemma KeptMore(roots: seq<Root>, i: nat, candidate: Root)
    requires i < |roots|
    ensures Kept(roots[..i + 1], candidate)
      == Kept(roots[..i], candidate) + if Falls(roots[i], candidate) then [] else [roots[i]]
  {
    assert roots[..i + 1][..i] == roots[..i];
  }

  lemma CoveredMore(roots: seq<Root>, i: nat, candidate: Root)
    requires i < |roots|
    ensures Covered(roots[..i + 1], candidate.actual)
      <==> Covered(roots[..i], candidate.actual) || Under(candidate.actual, roots[i].actual)
  {
    assert roots[..i + 1] == roots[..i] + [roots[i]];
    CoveredByMore(roots[..i], roots[i], candidate.actual);
  }

  /** The loop has read `i` roots: the kept ones stand in front, the unread ones where they were. */
  ghost predicate Filtered(all: seq<Root>, was: seq<Root>, kept: nat, i: nat, candidate: Root)
    requires i <= |was| <= |all|
  {
    kept <= i && all[..kept] == Kept(was[..i], candidate) && all[i..|was|] == was[i..]
  }

  lemma FilteredMore(all: seq<Root>, was: seq<Root>, kept: nat, i: nat, candidate: Root)
    requires i < |was| <= |all| && Filtered(all, was, kept, i, candidate)
    ensures all[i] == was[i]
    ensures if Falls(was[i], candidate)
      then Filtered(all, was, kept, i + 1, candidate)
      else Filtered(all[kept := was[i]], was, kept + 1, i + 1, candidate)
  {
    KeptMore(was, i, candidate);
    assert all[i] == all[i..|was|][0] == was[i..][0] == was[i];
    var next := all[kept := was[i]];
    assert next[..kept + 1] == all[..kept] + [was[i]];
    assert all[i + 1..|was|] == all[i..|was|][1..] && next[i + 1..|was|] == all[i + 1..|was|];
  }

  /** The kept roots are written over the ones already read. */
  method FilterInPlace(roots: array<Root>, n: nat, candidate: Root) returns (kept: nat, covered: bool)
    requires n <= roots.Length
    modifies roots
    ensures kept <= n && roots[..kept] == Kept(old(roots[..n]), candidate)
    ensures covered == Covered(old(roots[..n]), candidate.actual)
  {
    kept, covered := 0, false;
    ghost var was := roots[..n];
    assert roots[..][..n] == was;
    var i := 0;
    while i < n
      invariant 0 <= i <= n && kept <= i && Filtered(roots[..], was, kept, i, candidate)
      invariant covered == Covered(was[..i], candidate.actual)
    {
      ghost var all := roots[..];
      var existing := roots[i];
      FilteredMore(all, was, kept, i, candidate);
      CoveredMore(was, i, candidate);
      if Under(candidate.actual, existing.actual) { covered := true; }
      if !Falls(existing, candidate) {
        roots[kept] := existing;
        assert roots[..] == all[kept := existing];
        kept := kept + 1;
      }
      i := i + 1;
    }
    assert was[..i] == was && roots[..kept] == roots[..][..kept];
  }

  lemma AddedRoot(taken: seq<Root>, candidate: Root, kept: seq<Root>, covered: bool)
    requires kept == Kept(Reduce(taken), candidate) && covered == Covered(Reduce(taken), candidate.actual)
    ensures Reduce(taken + [candidate]) == if covered then kept else kept + [candidate]
  {
    ReduceMore(taken, candidate);
  }

  method AppendRoot(roots: array<Root>, m: nat, candidate: Root)
    requires m < roots.Length
    modifies roots
    ensures roots[..m + 1] == old(roots[..m]) + [candidate]
  {
    roots[m] := candidate;
  }

  /** One more candidate: the array holds the reduced roots of all so far. */
  method AddRoot(roots: array<Root>, n: nat, candidate: Root, ghost taken: seq<Root>) returns (m: nat)
    requires n < roots.Length && roots[..n] == Reduce(taken)
    modifies roots
    ensures m <= n + 1 && roots[..m] == Reduce(taken + [candidate])
  {
    var covered;
    m, covered := FilterInPlace(roots, n, candidate);
    AddedRoot(taken, candidate, roots[..m], covered);
    if !covered {
      AppendRoot(roots, m, candidate);
      m := m + 1;
    }
  }

  /** The array holds the reduced roots of the first `i` inputs. */
  ghost predicate Holds(
    paths: seq<string>, i: nat, workspace: Result<string>, clean: string -> string, disk: string -> Resolution,
    skipMissing: bool, taken: seq<Root>, roots: seq<Root>)
    requires i <= |paths|
  {
    Accepted(paths, i, workspace, clean, disk, skipMissing, taken) && roots == Reduce(taken)
  }

  /** One input is judged, and its root is added if it has one. */
  method TakeInput(
    roots: array<Root>, n: nat, paths: seq<string>, i: nat, workspace: Result<string>, clean: string -> string,
    disk: string -> Resolution, skipMissing: bool, ghost taken: seq<Root>)
    returns (verdict: Verdict, m: nat, ghost more: seq<Root>)
    requires n <= i < |paths| == roots.Length
    requires Holds(paths, i, workspace, clean, disk, skipMissing, taken, roots[..n])
    modifies roots
    ensures verdict.Refuse? ==> Candidates(paths, workspace, clean, disk, skipMissing) == Err(verdict.error)
    ensures !verdict.Refuse? ==>
      m <= i + 1 && Holds(paths, i + 1, workspace, clean, disk, skipMissing, more, roots[..m])
  {
    verdict, m, more := Judge(paths[i], workspace, clean, disk, skipMissing), n, taken;
    JudgedMore(paths, i, workspace, clean, disk, skipMissing, taken, verdict);
    if verdict.Take? {
      m := AddRoot(roots, n, verdict.root, taken);
      more := taken + [verdict.root];
    }
  }

  lemma AllHeld(
    paths: seq<string>, workspace: Result<string>, clean: string -> string, disk: string -> Resolution,
    skipMissing: bool, taken: seq<Root>, roots: seq<Root>)
    requires Holds(paths, |paths|, workspace, clean, disk, skipMissing, taken, roots)
    ensures var c := Candidates(paths, workspace, clean, disk, skipMissing); c.Ok? && roots == Reduce(c.value)
  {
    assert paths[..|paths|] == paths;
  }

  method CanonicalRoots(
    paths: seq<string>, workspace: Result<string>, clean: string -> string, disk: string -> Resolution,
    skipMissing: bool)
    returns (result: Result<seq<string>>)
    ensures var c := Candidates(paths, workspace, clean, disk, skipMissing);
      result == if c.Ok? then Ok(PathsOf(Reduce(c.value))) else Err(c.error)
  {
    var roots := new Root[|paths|](_ => Root("", ""));
    var n, i := 0, 0;
    ghost var taken: seq<Root> := [];
    while i < |paths|
      invariant 0 <= n <= i <= |paths| && fresh(roots)
      invariant Holds(paths, i, workspace, clean, disk, skipMissing, taken, roots[..n])
    {
      var verdict;
      verdict, n, taken := TakeInput(roots, n, paths, i, workspace, clean, disk, skipMissing, taken);
      if verdict.Refuse? {
        return Err(verdict.error);
      }
      i := i + 1;
    }
    AllHeld(paths, workspace, clean, disk, skipMissing, taken, roots[..n]);
    result := Ok(PathsOf(roots[..n]));
  }
}
