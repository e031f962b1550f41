/**
  Reading what Git prints with `-z`: records separated by NUL characters, some of which belong
  together. Printing is modelled too, so that reading can be shown to undo it.
 */
module GitParsers {
  import opened Options
  import opened NulKeys
  import opened Strings

  datatype Status = Modified | Added | Deleted | Renamed | Copied | Untracked | Conflicted

  // ------------------------------------------------------------------ records

  function Records(s: string): seq<string> {
    Split(s, '\0')
  }

  /** Every record is followed by a NUL. */
  function Terminated(records: seq<string>): string {
    if records == [] then "" else records[0] + "\0" + Terminated(records[1..])
  }

  predicate AllNulFree(records: seq<string>) {
    forall i :: 0 <= i < |records| ==> NulFree(records[i])
  }

  lemma {:induction false} SplitRecord(record: string, rest: string)
    requires NulFree(record)
    ensures Records(record + "\0" + rest) == [record] + Records(rest)
    decreases |record|
  {
    var s := record + "\0" + rest;
    if record == "" {
      assert s[1..] == rest;
    } else {
      assert s[1..] == record[1..] + "\0" + rest;
      SplitRecord(record[1..], rest);
      assert [s[0]] + record[1..] == record;
    }
  }

  /** Splitting undoes terminating, up to the empty string that follows the last NUL. */
  lemma {:induction false} SplitTerminated(records: seq<string>)
    requires AllNulFree(records)
    ensures Records(Terminated(records)) == records + [""]
    decreases |records|
  {
    if records != [] {
      SplitRecord(records[0], Terminated(records[1..]));
      assert forall i :: 0 <= i < |records| - 1 ==> records[1..][i] == records[i + 1];
      SplitTerminated(records[1..]);
      assert records + [""] == [records[0]] + (records[1..] + [""]);
    }
  }

  // ------------------------------------------------------------------ status

  datatype Change = Change(path: string, origin: string, status: Status, staged: bool, conflict: bool)

  /** One printed change: the two codes, the path, and where a renamed or copied file came from. */
  datatype StatusLine = StatusLine(x: char, y: char, path: string, origin: string)

  function ChangeStatus(x: char, y: char): Status {
    var code := if y == ' ' then x else y;
    if x == '?' && y == '?' then Untracked
    else if code == 'A' then Added
    else if code == 'D' then Deleted
    else if code == 'R' then Renamed
    else if code == 'C' then Copied
    else Modified
  }

  predicate IsConflict(x: char, y: char) {
    || x == 'U' || y == 'U' || (x == 'A' && y == 'A') || (x == 'D' && y == 'D')
    || (x == 'A' && y == 'D') || (x == 'D' && y == 'A')
  }

  function ChangeOf(x: char, y: char, path: string, origin: string): Change {
    var status := if IsConflict(x, y) then Conflicted else ChangeStatus(x, y);
    Change(path, origin, status, x != ' ' && x != '?', IsConflict(x, y))
  }

  /** Two codes that mean a conflict between branches. */
  predicate Clash(x: char, y: char) {
    [x, y] in {"AA", "AD", "DA", "DD"} || 'U' in [x, y]
  }

  /** The letter that names the change: the one for the working tree, or for the index if that is blank. */
  predicate Letter(x: char, y: char, c: char) {
    y == c || (y == ' ' && x == c)
  }

  /** What a change says about a printed line, letter by letter. */
  predicate IsChange(line: StatusLine, c: Change) {
    && c.path == line.path && c.origin == line.origin
    && (c.conflict <==> Clash(line.x, line.y)) && (c.staged <==> line.x !in {' ', '?'})
    && (c.status == Conflicted <==> Clash(line.x, line.y))
    && (!c.conflict ==>
          && (c.status == Untracked <==> [line.x, line.y] == "??")
          && (c.status == Added <==> Letter(line.x, line.y, 'A'))
          && (c.status == Deleted <==> Letter(line.x, line.y, 'D'))
          && (c.status == Renamed <==> Letter(line.x, line.y, 'R'))
          && (c.status == Copied <==> Letter(line.x, line.y, 'C')))
  }

  lemma ChangeMeans(line: StatusLine)
    ensures IsChange(line, ChangeOf(line.x, line.y, line.path, line.origin))
  {
    var codes := [line.x, line.y];
    assert codes[0] == line.x && codes[1] == line.y;
  }

  ghost predicate AreChanges(lines: seq<StatusLine>, changes: seq<Change>) {
    |changes| == |lines| && forall i :: 0 <= i < |lines| ==> IsChange(lines[i], changes[i])
  }

  lemma {:induction false} MeantChanges(lines: seq<StatusLine>)
    ensures AreChanges(lines, Meant(lines))
  {
    if lines != [] {
      ChangeMeans(lines[0]);
      MeantChanges(lines[1..]);
      var rest := Meant(lines[1..]);
      forall i | 0 <= i < |lines| ensures IsChange(lines[i], Meant(lines)[i]) {
        if i > 0 { assert lines[i] == lines[1..][i - 1] && Meant(lines)[i] == rest[i - 1]; }
      }
    }
  }

  predicate Moves(x: char, y: char) {
    x == 'R' || x == 'C' || y == 'R' || y == 'C'
  }

  function ParseChangeLine(line: string): Change {
    if |line| < 4 then Change("", "", Modified, false, false) else ChangeOf(line[0], line[1], line[3..], "")
  }

  predicate IsHeader(line: string) {
    |line| >= 3 && line[..3] == "## "
  }

  predicate HasOldPath(line: string) {
    |line| >= 2 && Moves(line[0], line[1])
  }

  /** The changes of a list of records; a header and empty records give none. */
  function Changes(records: seq<string>): seq<Change> {
    if records == [] then []
    else
      var line := records[0];
      if line == "" || IsHeader(line) then Changes(records[1..])
      else if HasOldPath(line) && |records| > 1 then
        Kept(ParseChangeLine(line).(origin := records[1])) + Changes(records[2..])
      else Kept(ParseChangeLine(line)) + Changes(records[1..])
  }

  function Kept(change: Change): seq<Change> {
    if change.path == "" then [] else [change]
  }

  function PrintLine(line: StatusLine): seq<string> {
    var first := [line.x, line.y, ' '] + line.path;
    if Moves(line.x, line.y) then [first, line.origin] else [first]
  }

  function PrintLines(lines: seq<StatusLine>): seq<string> {
    if lines == [] then [] else PrintLine(lines[0]) + PrintLines(lines[1..])
  }

  /** What Git prints: real codes, and paths that are not empty and hold no NUL. */
  predicate ValidLine(line: StatusLine) {
    && line.x != '\0' && line.y != '\0' && !(line.x == '#' && line.y == '#')
    && line.path != "" && NulFree(line.path) && NulFree(line.origin) && (Moves(line.x, line.y) <==> line.origin != "")
  }

  function Meant(lines: seq<StatusLine>): seq<Change> {
    if lines == [] then []
    else [ChangeOf(lines[0].x, lines[0].y, lines[0].path, lines[0].origin)] + Meant(lines[1..])
  }

  lemma ReadLine(line: StatusLine, rest: seq<string>)
    requires ValidLine(line)
    ensures Changes(PrintLine(line) + rest) == [ChangeOf(line.x, line.y, line.path, line.origin)] + Changes(rest)
  {
    var first := [line.x, line.y, ' '] + line.path;
    var records := PrintLine(line) + rest;
    assert records[0] == first && first[0] == line.x && first[1] == line.y && first[3..] == line.path;
    assert first[..3] == [line.x, line.y, ' '];
    if Moves(line.x, line.y) {
      assert records[1] == line.origin && records[2..] == rest;
    } else {
      assert records[1..] == rest;
    }
  }

  lemma {:induction false} ReadLines(lines: seq<StatusLine>)
    requires forall i :: 0 <= i < |lines| ==> ValidLine(lines[i])
    ensures Changes(PrintLines(lines) + [""]) == Meant(lines)
    decreases |lines|
  {
    if lines == [] {
      assert Changes([""]) == Changes([""][1..]);
      assert PrintLines(lines) + [""] == [""];
    } else {
      ReadLine(lines[0], PrintLines(lines[1..]) + [""]);
      ReadLines(lines[1..]);
      assert PrintLines(lines) + [""] == PrintLine(lines[0]) + (PrintLines(lines[1..]) + [""]);
    }
  }

  lemma {:induction false} PrintedIsNulFree(lines: seq<StatusLine>)
    requires forall i :: 0 <= i < |lines| ==> ValidLine(lines[i])
    ensures AllNulFree(PrintLines(lines))
    decreases |lines|
  {
    if lines != [] {
      PrintedIsNulFree(lines[1..]);
      assert NulFree([lines[0].x, lines[0].y, ' '] + lines[0].path);
    }
  }

  lemma SkipHeader(header: string, rest: seq<string>)
    requires IsHeader(header)
    ensures Changes([header] + rest) == Changes(rest)
  {
    assert ([header] + rest)[1..] == rest;
  }

  /** Reading a printed status gives back its changes, in order, renames with both their paths. */
  lemma {:induction false} StatusRoundTrip(header: string, lines: seq<StatusLine>)
    requires NulFree(header) && IsHeader(header) && forall i :: 0 <= i < |lines| ==> ValidLine(lines[i])
    ensures AreChanges(lines, Changes(Records(Terminated([header] + PrintLines(lines)))))
  {
    MeantChanges(lines);
    PrintedIsNulFree(lines);
    var records := [header] + PrintLines(lines);
    SplitTerminated(records);
    SkipHeader(header, PrintLines(lines) + [""]);
    assert records + [""] == [header] + (PrintLines(lines) + [""]);
    ReadLines(lines);
  }

  /** A move that ends the output is a change without a first path. */
  lemma LastMove(line: StatusLine)
    requires line.path != "" && line.origin == "" && Moves(line.x, line.y) && !(line.x == '#' && line.y == '#')
    ensures var changes := Changes([[line.x, line.y, ' '] + line.path]);
      |changes| == 1 && IsChange(line, changes[0])
  {
    var record := [line.x, line.y, ' '] + line.path;
    assert record[0] == line.x && record[1] == line.y && record[3..] == line.path;
    assert record[..3] == [line.x, line.y, ' '];
    var records := [record];
    assert |records[1..]| == 0;
    ChangeMeans(line);
  }

  predicate Dirties(c: Change) {
    c.staged || c.status == Modified || c.status == Deleted || c.status == Untracked
  }

  /** One record, with the one after it when that is the path a file came from. */
  method ReadRecord(records: seq<string>, index: nat) returns (found: seq<Change>, next: nat)
    requires index < |records|
    ensures index < next <= |records| && Changes(records[index..]) == found + Changes(records[next..])
  {
    var line := records[index];
    ghost var rest := records[index..];
    assert rest[0] == line && rest[1..] == records[index + 1..];
    if line == "" || IsHeader(line) { return [], index + 1; }
    var change := ParseChangeLine(line);
    next := index + 1;
    if HasOldPath(line) && next < |records| {
      assert rest[1] == records[next] && rest[2..] == records[next + 1..];
      change := change.(origin := records[next]);
      next := next + 1;
    }
    found := if change.path == "" then [] else [change];
  }

  /** The record loop of `StatusContext`. */
  method ReadStatus(out: string) returns (changes: seq<Change>, conflicted: bool, dirty: bool)
    ensures changes == Changes(Records(out))
    ensures conflicted <==> exists c :: c in changes && c.conflict
    ensures dirty <==> exists c :: c in changes && (c.staged || c.status in {Modified, Deleted, Untracked})
  {
    var records := Records(out);
    changes, conflicted, dirty := [], false, false;
    var index := 0;
    while index < |records|
      invariant 0 <= index <= |records|
      invariant changes + Changes(records[index..]) == Changes(records)
      invariant conflicted <==> exists c :: c in changes && c.conflict
      invariant dirty <==> exists c :: c in changes && Dirties(c)
    {
      var found;
      found, index := ReadRecord(records, index);
      changes := changes + found;
      if exists c :: c in found && c.conflict { conflicted := true; }
      if exists c :: c in found && Dirties(c) { dirty := true; }
    }
  }

  // ------------------------------------------------------------------ activity

  datatype ActivityPath = ActivityPath(path: string, origin: string, status: Status)

  datatype Entry = Entry(commit: string, at: int, author: string, message: string, paths: seq<ActivityPath>)

  datatype Activity = Ok(entries: seq<Entry>) | Malformed

  /** One printed path: a status code and the path, or the two paths of a move; `gap` counts the empty
      records before it. */
  datatype PathLine = PathLine(gap: nat, code: string, path: string, origin: string)

  datatype CommitLine = CommitLine(
    gap: nat, hash: string, date: string, author: string, subject: string, paths: seq<PathLine>)

  function ActivityStatus(code: string): Status {
    var trimmed := Trim(code);
    if trimmed == "" then Modified
    else if trimmed[0] == 'A' then Added
    else if trimmed[0] == 'D' then Deleted
    else if trimmed[0] == 'R' then Renamed
    else if trimmed[0] == 'C' then Copied
    else Modified
  }

  /** The first character that is not white space. */
  predicate StartsWith(code: string, c: char) {
    exists i :: 0 <= i < |code| && code[i] == c && !IsSpace(c) && forall j :: 0 <= j < i ==> IsSpace(code[j])
  }

  /** What a status code means, by its letter; anything else, nothing included, is a modification. */
  predicate IsStatus(code: string, status: Status) {
    && (status == Added <==> StartsWith(code, 'A')) && (status == Deleted <==> StartsWith(code, 'D'))
    && (status == Renamed <==> StartsWith(code, 'R')) && (status == Copied <==> StartsWith(code, 'C'))
    && status != Untracked && status != Conflicted
  }

  lemma FirstLetter(code: string, c: char)
    ensures StartsWith(code, c) <==> Trim(code) != "" && Trim(code)[0] == c
  {
    var before, after := TrimMeans(code);
    var n := |before|;
    if Trim(code) != "" {
      assert code[n] == Trim(code)[0] && !IsSpace(code[n]) && forall j :: 0 <= j < n ==> code[j] == before[j];
    } else {
      assert forall j :: 0 <= j < |code| ==> code[j] == (before + after)[j];
    }
  }

  lemma StatusMeans(code: string)
    ensures IsStatus(code, ActivityStatus(code))
  {
    FirstLetter(code, 'A');
    FirstLetter(code, 'D');
    FirstLetter(code, 'R');
    FirstLetter(code, 'C');
  }

  /** An entry says what was printed of its commit. */
  ghost predicate IsEntry(c: CommitLine, e: Entry, time: string -> Option<int>) {
    && e.commit == c.hash && time(c.date) == Some(e.at) && e.author == c.author && e.message == c.subject
    && |e.paths| == |c.paths| && forall i :: 0 <= i < |c.paths| ==>
         && e.paths[i].path == c.paths[i].path && e.paths[i].origin == c.paths[i].origin
         && IsStatus(c.paths[i].code, e.paths[i].status)
  }

  lemma {:induction false} MeantPath(paths: seq<PathLine>, i: nat)
    requires i < |paths|
    ensures |PathsMeant(paths)| == |paths| && PathsMeant(paths)[i] == PathMeant(paths[i])
  {
    if |paths| > 1 { MeantPath(paths[1..], if i > 0 then i - 1 else 0); }
  }

  lemma EntryMeans(c: CommitLine, time: string -> Option<int>)
    requires time(c.date).Some?
    ensures IsEntry(c, EntryMeant(c, time), time)
  {
    assert c.paths == [] ==> PathsMeant(c.paths) == [];
    if c.paths != [] { MeantPath(c.paths, 0); }
    forall i | 0 <= i < |c.paths|
      ensures PathsMeant(c.paths)[i] == PathMeant(c.paths[i])
      ensures IsStatus(c.paths[i].code, ActivityStatus(c.paths[i].code))
    {
      MeantPath(c.paths, i);
      StatusMeans(c.paths[i].code);
    }
  }

  ghost predicate AreEntries(commits: seq<CommitLine>, entries: seq<Entry>, time: string -> Option<int>) {
    |entries| == |commits| && forall i :: 0 <= i < |commits| ==> IsEntry(commits[i], entries[i], time)
  }

  lemma {:induction false} MeantEntries(commits: seq<CommitLine>, time: string -> Option<int>)
    requires forall i :: 0 <= i < |commits| ==> ValidCommit(commits[i], time)
    ensures AreEntries(commits, EntriesMeant(commits, time), time)
  {
    if commits != [] {
      EntryMeans(commits[0], time);
      MeantEntries(commits[1..], time);
      var rest := EntriesMeant(commits[1..], time);
      forall i | 0 <= i < |commits| ensures IsEntry(commits[i], EntriesMeant(commits, time)[i], time) {
        if i > 0 { assert commits[i] == commits[1..][i - 1] && EntriesMeant(commits, time)[i] == rest[i - 1]; }
      }
    }
  }

  predicate IsMove(status: Status) {
    status == Renamed || status == Copied
  }

  function WithPath(entries: seq<Entry>, p: ActivityPath): seq<Entry>
    requires entries != []
  {
    var last := |entries| - 1;
    entries[last := entries[last].(paths := entries[last].paths + [p])]
  }

  /** `parseActivityNUL`, with the entries read so far. */
  function ParseActivity(records: seq<string>, entries: seq<Entry>, limit: nat, time: string -> Option<int>): Activity
    decreases |records|
  {
    if records == [] then Ok(entries)
    else if records[0] == "" then ParseActivity(records[1..], entries, limit, time)
    else if |entries| < limit && |records| > 3 && |records[0]| == 40 then
      if time(records[1]).None? then Malformed
      else
        var entry := Entry(records[0], time(records[1]).value, records[2], records[3], []);
        ParseActivity(records[4..], entries + [entry], limit, time)
    else if entries == [] || |records| < 2 || records[1] == "" then Malformed
    else if !IsMove(ActivityStatus(records[0])) then
      var p := ActivityPath(records[1], "", ActivityStatus(records[0]));
      ParseActivity(records[2..], WithPath(entries, p), limit, time)
    else if |records| < 3 || records[2] == "" then Malformed
    else
      var p := ActivityPath(records[2], records[1], ActivityStatus(records[0]));
      ParseActivity(records[3..], WithPath(entries, p), limit, time)
  }

  function Gap(n: nat): seq<string> {
    if n == 0 then [] else [""] + Gap(n - 1)
  }

  function PrintPath(p: PathLine): seq<string> {
    Gap(p.gap) + if IsMove(ActivityStatus(p.code)) then [p.code, p.origin, p.path] else [p.code, p.path]
  }

  function PrintPaths(paths: seq<PathLine>): seq<string> {
    if paths == [] then [] else PrintPath(paths[0]) + PrintPaths(paths[1..])
  }

  function PrintCommit(c: CommitLine): seq<string> {
    Gap(c.gap) + [c.hash, c.date, c.author, c.subject] + PrintPaths(c.paths)
  }

  function PrintCommits(commits: seq<CommitLine>): seq<string> {
    if commits == [] then [] else PrintCommit(commits[0]) + PrintCommits(commits[1..])
  }

  /** A code that cannot be taken for a hash, and paths that are not empty. */
  predicate ValidPath(p: PathLine) {
    && p.code != "" && |p.code| != 40 && p.path != "" && (IsMove(ActivityStatus(p.code)) <==> p.origin != "")
    && NulFree(p.code) && NulFree(p.path) && NulFree(p.origin)
  }

  predicate ValidCommit(c: CommitLine, time: string -> Option<int>) {
    && |c.hash| == 40 && time(c.date).Some?
    && NulFree(c.hash) && NulFree(c.date) && NulFree(c.author) && NulFree(c.subject)
    && forall i :: 0 <= i < |c.paths| ==> ValidPath(c.paths[i])
  }

  function PathMeant(p: PathLine): ActivityPath {
    ActivityPath(p.path, p.origin, ActivityStatus(p.code))
  }

  function PathsMeant(paths: seq<PathLine>): seq<ActivityPath> {
    if paths == [] then [] else [PathMeant(paths[0])] + PathsMeant(paths[1..])
  }

  function EntryMeant(c: CommitLine, time: string -> Option<int>): Entry {
    Entry(c.hash, if time(c.date).Some? then time(c.date).value else 0, c.author, c.subject, PathsMeant(c.paths))
  }

  function EntriesMeant(commits: seq<CommitLine>, time: string -> Option<int>): seq<Entry> {
    if commits == [] then [] else [EntryMeant(commits[0], time)] + EntriesMeant(commits[1..], time)
  }

  lemma {:induction false} SkipGap(
    n: nat, rest: seq<string>, entries: seq<Entry>, limit: nat, time: string -> Option<int>)
    ensures ParseActivity(Gap(n) + rest, entries, limit, time) == ParseActivity(rest, entries, limit, time)
  {
    if n == 0 {
      assert Gap(n) + rest == rest;
    } else {
      assert (Gap(n) + rest)[1..] == Gap(n - 1) + rest;
      SkipGap(n - 1, rest, entries, limit, time);
    }
  }

  lemma ReadPath(p: PathLine, rest: seq<string>, entries: seq<Entry>, limit: nat, time: string -> Option<int>)
    requires ValidPath(p) && entries != []
    ensures ParseActivity(PrintPath(p) + rest, entries, limit, time)
      == ParseActivity(rest, WithPath(entries, PathMeant(p)), limit, time)
  {
    if IsMove(ActivityStatus(p.code)) {
      var records := [p.code, p.origin, p.path] + rest;
      assert PrintPath(p) + rest == Gap(p.gap) + records;
      assert records[3..] == rest;
      SkipGap(p.gap, records, entries, limit, time);
    } else {
      var records := [p.code, p.path] + rest;
      assert PrintPath(p) + rest == Gap(p.gap) + records;
      assert records[2..] == rest;
      SkipGap(p.gap, records, entries, limit, time);
    }
  }

  lemma {:induction false} ReadPaths(
    paths: seq<PathLine>, rest: seq<string>, before: seq<Entry>, entry: Entry, limit: nat, time: string -> Option<int>)
    requires forall i :: 0 <= i < |paths| ==> ValidPath(paths[i])
    ensures ParseActivity(PrintPaths(paths) + rest, before + [entry], limit, time)
      == ParseActivity(rest, before + [entry.(paths := entry.paths + PathsMeant(paths))], limit, time)
    decreases |paths|
  {
    if paths == [] {
      assert PrintPaths(paths) + rest == rest && entry.paths + PathsMeant(paths) == entry.paths;
    } else {
      var next := entry.(paths := entry.paths + [PathMeant(paths[0])]);
      Regroup(PrintPath(paths[0]), PrintPaths(paths[1..]), rest);
      Regroup(entry.paths, [PathMeant(paths[0])], PathsMeant(paths[1..]));
      ReadPath(paths[0], PrintPaths(paths[1..]) + rest, before + [entry], limit, time);
      assert WithPath(before + [entry], PathMeant(paths[0])) == before + [next];
      ReadPaths(paths[1..], rest, before, next, limit, time);
    }
  }

  lemma ReadCommit(c: CommitLine, rest: seq<string>, entries: seq<Entry>, limit: nat, time: string -> Option<int>)
    requires ValidCommit(c, time) && |entries| < limit
    ensures ParseActivity(PrintCommit(c) + rest, entries, limit, time)
      == ParseActivity(rest, entries + [EntryMeant(c, time)], limit, time)
  {
    var tail := PrintPaths(c.paths) + rest;
    var records := [c.hash, c.date, c.author, c.subject] + tail;
    var entry := Entry(c.hash, time(c.date).value, c.author, c.subject, []);
    assert PrintCommit(c) + rest == Gap(c.gap) + records;
    SkipGap(c.gap, records, entries, limit, time);
    assert records[4..] == tail;
    ReadPaths(c.paths, rest, entries, entry, limit, time);
    assert [] + PathsMeant(c.paths) == PathsMeant(c.paths);
  }

  lemma {:induction false} ReadCommits(
    commits: seq<CommitLine>, rest: seq<string>, entries: seq<Entry>, limit: nat, time: string -> Option<int>)
    requires (forall i :: 0 <= i < |commits| ==> ValidCommit(commits[i], time)) && |entries| + |commits| <= limit
    ensures ParseActivity(PrintCommits(commits) + rest, entries, limit, time)
      == ParseActivity(rest, entries + EntriesMeant(commits, time), limit, time)
    decreases |commits|
  {
    if commits == [] {
      assert PrintCommits(commits) + rest == rest && entries + EntriesMeant(commits, time) == entries;
    } else {
      PrintedCommits(commits, rest, entries, time);
      ReadCommit(commits[0], PrintCommits(commits[1..]) + rest, entries, limit, time);
      ReadCommits(commits[1..], rest, entries + [EntryMeant(commits[0], time)], limit, time);
    }
  }

  lemma Regroup<T>(a: seq<T>, b: seq<T>, c: seq<T>)
    ensures a + b + c == a + (b + c)
  {
  }

  lemma {:induction false} PrintedCommits(
    commits: seq<CommitLine>, rest: seq<string>, entries: seq<Entry>, time: string -> Option<int>)
    requires commits != []
    ensures PrintCommits(commits) + rest == PrintCommit(commits[0]) + (PrintCommits(commits[1..]) + rest)
    ensures entries + [EntryMeant(commits[0], time)] + EntriesMeant(commits[1..], time)
      == entries + EntriesMeant(commits, time)
  {
    Regroup(PrintCommit(commits[0]), PrintCommits(commits[1..]), rest);
    Regroup(entries, [EntryMeant(commits[0], time)], EntriesMeant(commits[1..], time));
  }

  lemma NulFreeSum(a: seq<string>, b: seq<string>)
    requires AllNulFree(a) && AllNulFree(b)
    ensures AllNulFree(a + b)
  {
  }

  lemma {:induction false} GapIsNulFree(n: nat)
    ensures AllNulFree(Gap(n))
  {
    if n > 0 { GapIsNulFree(n - 1); }
  }

  lemma {:induction false} PathsAreNulFree(paths: seq<PathLine>)
    requires forall i :: 0 <= i < |paths| ==> ValidPath(paths[i])
    ensures AllNulFree(PrintPaths(paths))
    decreases |paths|
  {
    if paths != [] {
      GapIsNulFree(paths[0].gap);
      PathsAreNulFree(paths[1..]);
    }
  }

  lemma {:induction false} CommitsAreNulFree(commits: seq<CommitLine>, time: string -> Option<int>)
    requires forall i :: 0 <= i < |commits| ==> ValidCommit(commits[i], time)
    ensures AllNulFree(PrintCommits(commits))
    decreases |commits|
  {
    if commits != [] {
      var c := commits[0];
      GapIsNulFree(c.gap);
      PathsAreNulFree(c.paths);
      NulFreeSum(Gap(c.gap), [c.hash, c.date, c.author, c.subject]);
      NulFreeSum(Gap(c.gap) + [c.hash, c.date, c.author, c.subject], PrintPaths(c.paths));
      CommitsAreNulFree(commits[1..], time);
    }
  }

  /** Reading a printed log gives back its commits and their paths, in order, up to the limit. */
  lemma {:induction false} ActivityRoundTrip(commits: seq<CommitLine>, limit: nat, time: string -> Option<int>)
    requires (forall i :: 0 <= i < |commits| ==> ValidCommit(commits[i], time)) && |commits| <= limit
    ensures var activity := ParseActivity(Records(Terminated(PrintCommits(commits))), [], limit, time);
      activity.Ok? && AreEntries(commits, activity.entries, time)
  {
    MeantEntries(commits, time);
    CommitsAreNulFree(commits, time);
    SplitTerminated(PrintCommits(commits));
    ReadCommits(commits, [""], [], limit, time);
    assert [] + EntriesMeant(commits, time) == EntriesMeant(commits, time);
    assert [""][1..] == [];
    assert ParseActivity([""], EntriesMeant(commits, time), limit, time)
      == ParseActivity([], EntriesMeant(commits, time), limit, time);
  }

  /** Records that no commit and no path can start with: a commit whose date is none, a path before
      any commit, a path that is missing, and a move without its second path. */
  predicate IsBroken(rest: seq<string>, entries: nat, limit: nat, time: string -> Option<int>) {
    && rest != [] && rest[0] != ""
    && (if |rest| > 3 && |rest[0]| == 40 && entries < limit then time(rest[1]).None?
        else
          || entries == 0 || |rest| == 1 || rest[1] == ""
          || ((StartsWith(rest[0], 'R') || StartsWith(rest[0], 'C')) && (|rest| == 2 || rest[2] == "")))
  }

  /** After any printed commits, broken records make the whole log malformed. */
  lemma BrokenIsMalformed(
    commits: seq<CommitLine>, gap: nat, rest: seq<string>, limit: nat, time: string -> Option<int>)
    requires (forall i :: 0 <= i < |commits| ==> ValidCommit(commits[i], time)) && |commits| <= limit
    requires IsBroken(rest, |commits|, limit, time)
    ensures ParseActivity(PrintCommits(commits) + (Gap(gap) + rest), [], limit, time) == Malformed
  {
    var entries := EntriesMeant(commits, time);
    MeantEntries(commits, time);
    ReadCommits(commits, Gap(gap) + rest, [], limit, time);
    assert [] + entries == entries;
    SkipGap(gap, rest, entries, limit, time);
    StatusMeans(rest[0]);
  }

  /** `parseActivityNUL`. */
  method ReadActivity(out: string, limit: nat, time: string -> Option<int>) returns (activity: Activity)
    ensures activity == ParseActivity(Records(out), [], limit, time)
  {
    var records := Records(out);
    var entries: seq<Entry>, i := [], 0;
    while i < |records|
      invariant 0 <= i <= |records|
      invariant ParseActivity(records[i..], entries, limit, time) == ParseActivity(records, [], limit, time)
    {
      ghost var rest := records[i..];
      assert forall k :: 0 <= k < |rest| ==> rest[k] == records[i + k];
      assert rest[1..] == records[i + 1..];
      if records[i] == "" {
        i := i + 1;
        continue;
      }
      if |entries| < limit && i + 3 < |records| && |records[i]| == 40 {
        var at := time(records[i + 1]);
        if at.None? { return Malformed; }
        assert rest[4..] == records[i + 4..];
        entries := entries + [Entry(records[i], at.value, records[i + 2], records[i + 3], [])];
        i := i + 4;
        continue;
      }
      if entries == [] { return Malformed; }
      var status := ActivityStatus(records[i]);
      i := i + 1;
      if i >= |records| || records[i] == "" { return Malformed; }
      var p := ActivityPath(records[i], "", status);
      assert rest[2..] == records[i + 1..];
      i := i + 1;
      if IsMove(status) {
        if i >= |records| || records[i] == "" { return Malformed; }
        p := ActivityPath(records[i], p.path, status);
        assert rest[3..] == records[i + 1..];
        i := i + 1;
      }
      entries := WithPath(entries, p);
    }
    activity := Ok(entries);
  }
}
