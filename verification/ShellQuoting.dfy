/**
  The launch script: arguments are quoted so that a POSIX shell reads them back unchanged.

  The shell's side is a reader for the quoting and token rules of the POSIX Shell Command Language,
  sections 2.2, 2.3 and 2.7. It keeps the text of `$name` and of patterns and notes that the word
  will be expanded; it gives up where a nested command or a braced parameter would begin.
 */
module ShellQuoting {
  import opened Options

  /** A word, whether any part of it was quoted, and whether the shell will expand it; the file
      descriptor of a redirection; or an operator. */
  datatype Token = Word(text: string, quoted: bool, expands: bool) | Descriptor(text: string) | Operator(text: string)

  /** What one line was read as, and what follows its newline. */
  datatype Line = Line(tokens: seq<Token>, rest: string)

  /** Where the reader is: between tokens, in a word, or inside one kind of quotes. */
  datatype Mode = Between | InWord | InSingle | InDouble

  /** What has been read: whole tokens, and the word under way. */
  datatype Reader = Reader(mode: Mode, tokens: seq<Token>, word: string, quoted: bool, expands: bool)

  predicate Blank(c: char) {
    c == ' ' || c == '\t'
  }

  predicate StartsOperator(c: char) {
    c == '&' || c == '|' || c == ';' || c == '<' || c == '>' || c == '(' || c == ')'
  }

  predicate TwoCharOperator(a: char, b: char) {
    || (a == b && (a == '&' || a == '|' || a == ';' || a == '<' || a == '>'))
    || (a == '<' && (b == '&' || b == '>')) || (a == '>' && (b == '&' || b == '|'))
  }

  /** Characters that the shell expands when they are not quoted. */
  predicate Expands(c: char) {
    c == '$' || c == '*' || c == '?' || c == '[' || c == '~'
  }

  /** A nested command or a braced parameter, which this reader does not follow. */
  predicate StartsNested(s: string)
    requires s != ""
  {
    s[0] == '`' || (s[0] == '$' && |s| > 1 && (s[1] == '(' || s[1] == '{'))
  }

  /** `$` before a quote has no agreed meaning. */
  predicate StartsDollarQuote(s: string)
    requires s != ""
  {
    s[0] == '$' && |s| > 1 && (s[1] == '\'' || s[1] == '"')
  }

  function Fresh(tokens: seq<Token>): Reader {
    Reader(Between, tokens, "", false, false)
  }

  function EndWord(r: Reader): Reader {
    if r.mode == InWord then Fresh(r.tokens + [Word(r.word, r.quoted, r.expands)]) else r
  }

  predicate IsNumber(word: string) {
    word != "" && forall i :: 0 <= i < |word| ==> '0' <= word[i] <= '9'
  }

  /** An operator ends the word before it; a number right before a redirection is its descriptor. */
  function EndBefore(r: Reader, c: char): Reader {
    if r.mode == InWord && (c == '<' || c == '>') && !r.quoted && !r.expands && IsNumber(r.word) then
      Fresh(r.tokens + [Descriptor(r.word)])
    else EndWord(r)
  }

  function Append(r: Reader, c: char): Reader {
    r.(word := r.word + [c])
  }

  function Quoting(r: Reader, mode: Mode): Reader {
    r.(mode := mode, quoted := true)
  }

  function Expanding(r: Reader): Reader {
    r.(expands := true)
  }

  /** Reads one command line, up to its newline. */
  function Read(s: string, r: Reader): Option<Line>
    decreases |s|
  {
    if s == "" then
      if r.mode == InSingle || r.mode == InDouble then None else Some(Line(EndWord(r).tokens, ""))
    else if r.mode == InSingle then Read(s[1..], if s[0] == '\'' then r.(mode := InWord) else Append(r, s[0]))
    else if StartsNested(s) then None
    else if r.mode == InDouble then
      if s[0] == '"' then Read(s[1..], r.(mode := InWord))
      else if s[0] == '$' then Read(s[1..], Append(Expanding(r), s[0]))
      else if s[0] == '\\' && |s| > 1 && s[1] == '\n' then Read(s[2..], r)
      else if s[0] == '\\' && |s| > 1 && (s[1] == '$' || s[1] == '`' || s[1] == '"' || s[1] == '\\') then
        Read(s[2..], Append(r, s[1]))
      else Read(s[1..], Append(r, s[0]))
    else if s[0] == '\n' then Some(Line(EndWord(r).tokens, s[1..]))
    else if Blank(s[0]) then Read(s[1..], EndWord(r))
    else if s[0] == '\'' then Read(s[1..], Quoting(r, InSingle))
    else if s[0] == '"' then Read(s[1..], Quoting(r, InDouble))
    else if s[0] == '\\' then
      if |s| == 1 then None
      else if s[1] == '\n' then Read(s[2..], r)
      else Read(s[2..], Append(Quoting(r, InWord), s[1]))
    else if StartsOperator(s[0]) then
      var before := EndBefore(r, s[0]);
      if |s| > 1 && TwoCharOperator(s[0], s[1]) then Read(s[2..], before.(tokens := before.tokens + [Operator(s[..2])]))
      else Read(s[1..], before.(tokens := before.tokens + [Operator(s[..1])]))
    else if s[0] == '#' && r.mode == Between then Read(AfterLine(s), r)
    else if StartsDollarQuote(s) then None
    else if Expands(s[0]) then Read(s[1..], Append(Expanding(r.(mode := InWord)), s[0]))
    else Read(s[1..], Append(r.(mode := InWord), s[0]))
  }

  /** A comment runs up to the end of the line. */
  function AfterLine(s: string): (rest: string)
    requires s != "" && s[0] != '\n'
    ensures |rest| < |s|
  {
    if |s| == 1 then "" else if s[1] == '\n' then s[1..] else AfterLine(s[1..])
  }

  /** Reads the first `n` lines of a script, each from where the one before it ended. */
  function ReadLines(s: string, n: nat): Option<(seq<seq<Token>>, string)>
    decreases n
  {
    if n == 0 then Some(([], s))
    else match Read(s, Fresh([]))
      case None => None
      case Some(line) => match ReadLines(line.rest, n - 1)
        case None => None
        case Some(more) => Some(([line.tokens] + more.0, more.1))
  }

  // ------------------------------------------------------------------ quoting

  function ReplaceQuotes(value: string): string {
    if value == "" then "" else (if value[0] == '\'' then "'\"'\"'" else [value[0]]) + ReplaceQuotes(value[1..])
  }

  function Quote(value: string): string {
    "'" + ReplaceQuotes(value) + "'"
  }

  function QuoteAll(args: seq<string>): string {
    if args == [] then "" else QuoteAll(args[..|args| - 1]) + " " + Quote(args[|args| - 1])
  }

  function CommandLine(executable: string, args: seq<string>): string {
    Quote(executable) + QuoteAll(args)
  }

  /** Inside single quotes, the replaced value is read back as the value itself. */
  lemma {:induction false} ReadReplaced(value: string, rest: string, r: Reader)
    requires r.mode == InSingle && r.quoted
    ensures Read(ReplaceQuotes(value) + rest, r) == Read(rest, r.(word := r.word + value))
    decreases |value|
  {
    if value == "" {
      assert ReplaceQuotes(value) + rest == rest;
      assert r.word + value == r.word;
    } else {
      var next := Append(r, value[0]);
      ReadFirst(value, rest, r);
      ReadReplaced(value[1..], rest, next);
      assert r.word + [value[0]] + value[1..] == r.word + value;
    }
  }

  lemma ReadFirst(value: string, rest: string, r: Reader)
    requires r.mode == InSingle && r.quoted && value != ""
    ensures Read(ReplaceQuotes(value) + rest, r) == Read(ReplaceQuotes(value[1..]) + rest, Append(r, value[0]))
  {
    var tail := ReplaceQuotes(value[1..]) + rest;
    ReplaceFirst(value, rest);
    if value[0] == '\'' {
      ReadEscape(tail, r);
    } else {
      ReadKept(value[0], tail, r);
    }
  }

  lemma ReplaceFirst(value: string, rest: string)
    requires value != ""
    ensures ReplaceQuotes(value) + rest
      == (if value[0] == '\'' then "'\"'\"'" else [value[0]]) + (ReplaceQuotes(value[1..]) + rest)
  {
  }

  lemma ReadKept(c: char, tail: string, r: Reader)
    requires r.mode == InSingle && c != '\''
    ensures Read([c] + tail, r) == Read(tail, Append(r, c))
  {
    assert ([c] + tail)[1..] == tail;
  }

  /** Five characters: the quote ends, one in double quotes follows, and a new one begins. */
  lemma ReadEscape(tail: string, r: Reader)
    requires r.mode == InSingle && r.quoted
    ensures Read("'\"'\"'" + tail, r) == Read(tail, Append(r, '\''))
  {
    var single, word := r, r.(mode := InWord);
    var s4 := "'" + tail;
    var s3 := "\"" + s4;
    var s2 := "'" + s3;
    var s1 := "\"" + s2;
    assert "'\"'\"'" + tail == "'" + s1;
    assert Read("'" + s1, r) == Read(s1, word);
    assert Read(s1, word) == Read(s2, r.(mode := InDouble));
    assert Read(s2, r.(mode := InDouble)) == Read(s3, Append(r.(mode := InDouble), '\''));
    assert Read(s3, Append(r.(mode := InDouble), '\'')) == Read(s4, Append(word, '\''));
    assert Read(s4, Append(word, '\'')) == Read(tail, Append(r, '\''));
  }

  lemma ReadQuote(value: string, rest: string, r: Reader)
    requires r.mode == Between || r.mode == InWord
    ensures Read(Quote(value) + rest, r) == Read(rest, Reader(InWord, r.tokens, r.word + value, true, r.expands))
  {
    var inside := Quoting(r, InSingle);
    assert Quote(value) + rest == "'" + (ReplaceQuotes(value) + ("'" + rest));
    assert Read("'" + (ReplaceQuotes(value) + ("'" + rest)), r) == Read(ReplaceQuotes(value) + ("'" + rest), inside);
    ReadReplaced(value, "'" + rest, inside);
    assert ("'" + rest)[1..] == rest;
  }

  // ------------------------------------------------------------------ the command line

  /** The reader after a word and the arguments that follow it. */
  function After(r: Reader, args: seq<string>): Reader {
    if args == [] then r
    else Reader(InWord, EndWord(After(r, args[..|args| - 1])).tokens, args[|args| - 1], true, false)
  }

  lemma Regroup(a: string, b: string, c: string)
    ensures (a + b) + c == a + (b + c)
  {
  }

  lemma QuoteAllLast(args: seq<string>, rest: string)
    requires args != []
    ensures QuoteAll(args) + rest == QuoteAll(args[..|args| - 1]) + (" " + (Quote(args[|args| - 1]) + rest))
  {
    var before, last := QuoteAll(args[..|args| - 1]), Quote(args[|args| - 1]);
    Regroup(before + " ", last, rest);
    Regroup(before, " ", last + rest);
  }

  lemma {:induction false} ReadAll(args: seq<string>, rest: string, r: Reader)
    requires r.mode == InWord
    ensures Read(QuoteAll(args) + rest, r) == Read(rest, After(r, args)) && After(r, args).mode == InWord
    decreases |args|
  {
    if args == [] {
      assert QuoteAll(args) + rest == rest;
    } else {
      var before, last := args[..|args| - 1], args[|args| - 1];
      var tail := Quote(last) + rest;
      QuoteAllLast(args, rest);
      ReadAll(before, " " + tail, r);
      ReadBlank(tail, After(r, before));
      ReadQuote(last, rest, EndWord(After(r, before)));
      assert "" + last == last;
    }
  }

  /** A quoted word that the shell takes as it is. */
  function Literal(text: string): Token {
    Word(text, true, false)
  }

  function Words(args: seq<string>): seq<Token> {
    if args == [] then [] else Words(args[..|args| - 1]) + [Literal(args[|args| - 1])]
  }

  lemma {:induction false} WordsAfter(r: Reader, args: seq<string>)
    requires r.mode == InWord
    ensures After(r, args).mode == InWord
    ensures EndWord(After(r, args)).tokens == r.tokens + [Word(r.word, r.quoted, r.expands)] + Words(args)
  {
    if args != [] { WordsAfter(r, args[..|args| - 1]); }
  }

  lemma {:induction false} WordsAre(args: seq<string>)
    ensures |Words(args)| == |args| && forall i :: 0 <= i < |args| ==> Words(args)[i] == Literal(args[i])
  {
    if args != [] { WordsAre(args[..|args| - 1]); }
  }

  lemma ReadToArguments(executable: string, tail: string)
    ensures Read(Quote(executable) + tail, Fresh([])) == Read(tail, Reader(InWord, [], executable, true, false))
  {
    ReadQuote(executable, tail, Fresh([]));
    assert "" + executable == executable;
  }

  lemma ReadArguments(executable: string, args: seq<string>, rest: string)
    ensures Read(QuoteAll(args) + ("\n" + rest), Reader(InWord, [], executable, true, false))
      == Some(Line([Literal(executable)] + Words(args), rest))
  {
    var r := Reader(InWord, [], executable, true, false);
    ReadAll(args, "\n" + rest, r);
    WordsAfter(r, args);
    ReadNewline(rest, After(r, args));
    assert [] + [Literal(executable)] == [Literal(executable)];
  }

  /** The shell sees the executable and the arguments, one quoted word each, whatever they contain:
      nothing is expanded, split or taken for an operator, an assignment or a reserved word. */
  lemma CommandLineIsReadBack(executable: string, args: seq<string>, rest: string)
    ensures Read(CommandLine(executable, args) + ("\n" + rest), Fresh([]))
      == Some(Line([Literal(executable)] + Words(args), rest))
    ensures var line := [Literal(executable)] + Words(args);
      && |line| == 1 + |args| && line[0] == Literal(executable)
      && forall i :: 0 <= i < |args| ==> line[1 + i] == Literal(args[i])
  {
    Regroup(Quote(executable), QuoteAll(args), "\n" + rest);
    ReadToArguments(executable, QuoteAll(args) + ("\n" + rest));
    ReadArguments(executable, args, rest);
    WordsAre(args);
  }

  // ------------------------------------------------------------------ words of the script

  /** Reading begins with a line of these tokens and leaves the rest. */
  predicate ReadsTo(s: string, tokens: seq<Token>, rest: string) {
    Read(s, Fresh([])) == Some(Line(tokens, rest))
  }

  predicate Plain(c: char) {
    && c != '\n' && c != '\'' && c != '"' && c != '\\' && c != '#' && c != '`'
    && !Blank(c) && !StartsOperator(c) && !Expands(c)
  }

  predicate AllPlain(text: string) {
    forall i :: 0 <= i < |text| ==> Plain(text[i])
  }

  lemma {:induction false} ReadPlain(text: string, rest: string, r: Reader)
    requires r.mode == InWord && AllPlain(text)
    ensures Read(text + rest, r) == Read(rest, r.(word := r.word + text))
    decreases |text|
  {
    if text == "" {
      assert text + rest == rest && r.word + text == r.word;
    } else {
      var next := Append(r, text[0]);
      assert (text + rest)[1..] == text[1..] + rest;
      ReadPlain(text[1..], rest, next);
      assert next.word + text[1..] == r.word + text;
    }
  }

  /** The first character of a word begins it. */
  lemma BeginPlain(text: string, rest: string, tokens: seq<Token>)
    requires text != "" && AllPlain(text)
    ensures Read(text + rest, Fresh(tokens)) == Read(rest, Reader(InWord, tokens, text, false, false))
  {
    assert (text + rest)[1..] == text[1..] + rest;
    var r := Reader(InWord, tokens, [text[0]], false, false);
    assert "" + [text[0]] == [text[0]];
    ReadPlain(text[1..], rest, r);
    assert r.word + text[1..] == text;
  }

  lemma ReadBlank(rest: string, r: Reader)
    requires r.mode == Between || r.mode == InWord
    ensures Read(" " + rest, r) == Read(rest, EndWord(r))
  {
    assert (" " + rest)[1..] == rest;
  }

  lemma ReadNewline(rest: string, r: Reader)
    requires r.mode == Between || r.mode == InWord
    ensures Read("\n" + rest, r) == Some(Line(EndWord(r).tokens, rest))
  {
    assert ("\n" + rest)[1..] == rest;
  }

  lemma ReadDollar(tail: string, r: Reader)
    requires (r.mode == Between || r.mode == InWord) && tail != ""
    requires tail[0] != '(' && tail[0] != '{' && tail[0] != '\'' && tail[0] != '"'
    ensures Read("$" + tail, r) == Read(tail, Expanding(r).(mode := InWord, word := r.word + "$"))
  {
    var s := "$" + tail;
    assert s[0] == '$' && s[1] == tail[0] && s[1..] == tail;
  }

  /** `$` and the name after it are kept, and the word is marked. */
  lemma ReadParameter(name: string, rest: string, r: Reader)
    requires (r.mode == Between || r.mode == InWord) && name != ""
    requires name[0] != '(' && name[0] != '{' && name[0] != '\'' && name[0] != '"'
    ensures Read("$" + (name + rest), r) == Read(name + rest, Expanding(r).(mode := InWord, word := r.word + "$"))
  {
    ReadDollar(name + rest, r);
  }

  function Bare(text: string): Token {
    Word(text, false, false)
  }

  lemma ReadWord(text: string, rest: string, tokens: seq<Token>)
    requires text != "" && AllPlain(text)
    ensures Read(text + (" " + rest), Fresh(tokens)) == Read(rest, Fresh(tokens + [Bare(text)]))
  {
    BeginPlain(text, " " + rest, tokens);
    ReadBlank(rest, Reader(InWord, tokens, text, false, false));
  }

  lemma ReadLastWord(text: string, rest: string, tokens: seq<Token>)
    requires text != "" && AllPlain(text)
    ensures Read(text + ("\n" + rest), Fresh(tokens)) == Some(Line(tokens + [Bare(text)], rest))
  {
    BeginPlain(text, "\n" + rest, tokens);
    ReadNewline(rest, Reader(InWord, tokens, text, false, false));
  }

  lemma ReadQuoted(value: string, rest: string, tokens: seq<Token>)
    ensures Read(Quote(value) + (" " + rest), Fresh(tokens)) == Read(rest, Fresh(tokens + [Literal(value)]))
  {
    ReadQuote(value, " " + rest, Fresh(tokens));
    assert "" + value == value;
    ReadBlank(rest, Reader(InWord, tokens, value, true, false));
  }

  lemma ReadOneChar(c: char, rest: string, r: Reader)
    requires (r.mode == InWord || r == Fresh(r.tokens)) && StartsOperator(c)
    requires rest != "" && !TwoCharOperator(c, rest[0])
    ensures Read([c] + rest, r) == Read(rest, Fresh(EndBefore(r, c).tokens + [Operator([c])]))
  {
    var s := [c] + rest;
    assert s[1..] == rest && s[..1] == [c];
  }

  lemma ReadTwoChars(c: char, d: char, rest: string, r: Reader)
    requires (r.mode == InWord || r == Fresh(r.tokens)) && TwoCharOperator(c, d)
    ensures Read([c, d] + rest, r) == Read(rest, Fresh(EndBefore(r, c).tokens + [Operator([c, d])]))
  {
    var s := [c, d] + rest;
    assert s[2..] == rest && s[..2] == [c, d];
  }

  lemma ReadOr(rest: string, tokens: seq<Token>)
    ensures Read("||" + (" " + rest), Fresh(tokens)) == Read(rest, Fresh(tokens + [Operator("||")]))
  {
    ReadTwoChars('|', '|', " " + rest, Fresh(tokens));
    ReadBlank(rest, Fresh(tokens + [Operator("||")]));
  }

  // ------------------------------------------------------------------ the script's own lines

  lemma {:induction false} CommentEnds(text: string, rest: string)
    requires text != "" && '\n' !in text
    ensures AfterLine(text + ("\n" + rest)) == "\n" + rest
  {
    var s := text + ("\n" + rest);
    assert s[1..] == text[1..] + ("\n" + rest);
    if |text| > 1 {
      assert text[1] in text;
      assert forall c :: c in text[1..] ==> c in text;
      CommentEnds(text[1..], rest);
    } else {
      assert text[1..] + ("\n" + rest) == "\n" + rest;
    }
  }

  const SHEBANG := "#!/bin/sh"

  lemma ReadShebang(rest: string)
    ensures Read(SHEBANG + ("\n" + rest), Fresh([])) == Some(Line([], rest))
  {
    CommentEnds(SHEBANG, rest);
    ReadNewline(rest, Fresh([]));
  }

  function ChangeDirectory(workspace: string): string {
    "cd -- " + Quote(workspace) + " || exit 1"
  }

  function LeaveOnFailure(rest: string): string {
    "||" + (" " + ("exit" + (" " + ("1" + ("\n" + rest)))))
  }

  lemma ChangeDirectoryParts(workspace: string, rest: string)
    ensures ChangeDirectory(workspace) + ("\n" + rest)
      == "cd" + (" " + ("--" + (" " + (Quote(workspace) + (" " + LeaveOnFailure(rest))))))
  {
    assert " " + LeaveOnFailure(rest) == " || exit 1" + ("\n" + rest);
    var tail := Quote(workspace) + (" || exit 1" + ("\n" + rest));
    assert "cd" + (" " + ("--" + (" " + tail))) == "cd -- " + tail;
  }

  lemma ReadLeaving(rest: string, tokens: seq<Token>)
    ensures Read(LeaveOnFailure(rest), Fresh(tokens))
      == Some(Line(tokens + [Operator("||"), Bare("exit"), Bare("1")], rest))
  {
    var more := tokens + [Operator("||")];
    ReadOr("exit" + (" " + ("1" + ("\n" + rest))), tokens);
    ReadWord("exit", "1" + ("\n" + rest), more);
    ReadLastWord("1", rest, more + [Bare("exit")]);
    assert more + [Bare("exit")] + [Bare("1")] == tokens + [Operator("||"), Bare("exit"), Bare("1")];
  }

  function Entering(workspace: string): seq<Token> {
    [Bare("cd"), Bare("--"), Literal(workspace), Operator("||"), Bare("exit"), Bare("1")]
  }

  /** The first command enters the workspace, whatever it is called, or leaves the script. */
  lemma WorkspaceIsReadBack(workspace: string, rest: string)
    ensures Read(ChangeDirectory(workspace) + ("\n" + rest), Fresh([])) == Some(Line(Entering(workspace), rest))
  {
    var quoted := Quote(workspace) + (" " + LeaveOnFailure(rest));
    ChangeDirectoryParts(workspace, rest);
    ReadWord("cd", "--" + (" " + quoted), []);
    ReadWord("--", quoted, [] + [Bare("cd")]);
    ReadQuoted(workspace, LeaveOnFailure(rest), [] + [Bare("cd")] + [Bare("--")]);
    var entered := [] + [Bare("cd")] + [Bare("--")] + [Literal(workspace)];
    ReadLeaving(rest, entered);
    assert entered + [Operator("||"), Bare("exit"), Bare("1")] == Entering(workspace);
  }

  /** An assignment of a parameter, such as `code=$?`: one word that will be expanded. */
  lemma ReadAssignment(prefix: string, rest: string, sign: char)
    requires prefix != "" && AllPlain(prefix) && (sign == '0' || sign == '?')
    ensures Read(prefix + ("$" + ([sign] + ("\n" + rest))), Fresh([]))
      == Some(Line([Word(prefix + "$" + [sign], false, true)], rest))
  {
    var end := "\n" + rest;
    var r := Reader(InWord, [], prefix, false, false);
    var named := Reader(InWord, [], prefix + "$", false, true);
    BeginPlain(prefix, "$" + ([sign] + end), []);
    ReadParameter([sign], end, r);
    assert ([sign] + end)[1..] == end;
    assert Read([sign] + end, named) == Read(end, named.(word := named.word + [sign]));
    ReadNewline(rest, named.(word := named.word + [sign]));
    assert [] + [Word(prefix + "$" + [sign], false, true)] == [Word(prefix + "$" + [sign], false, true)];
  }

  /** A command with one parameter, such as `exit $code`. */
  lemma ReadCommand(command: string, name: string, rest: string)
    requires command != "" && AllPlain(command) && name != "" && AllPlain(name) && name[0] != '{'
    ensures ReadsTo(command + (" " + ("$" + (name + ("\n" + rest)))),
                    [Bare(command), Word("$" + name, false, true)], rest)
  {
    var end := "\n" + rest;
    var tokens := [Bare(command)];
    var named := Reader(InWord, tokens, "$", false, true);
    ReadWord(command, "$" + (name + end), []);
    assert [] + [Bare(command)] == tokens && "" + "$" == "$";
    ReadParameter(name, end, Fresh(tokens));
    ReadPlain(name, end, named);
    ReadNewline(rest, named.(word := "$" + name));
    assert tokens + [Word("$" + name, false, true)] == [Bare(command), Word("$" + name, false, true)];
  }

  /** Inside double quotes, letters stand for themselves. */
  lemma {:induction false} ReadInDouble(text: string, rest: string, r: Reader)
    requires r.mode == InDouble && AllPlain(text)
    ensures Read(text + rest, r) == Read(rest, r.(word := r.word + text))
    decreases |text|
  {
    if text == "" {
      assert text + rest == rest && r.word + text == r.word;
    } else {
      var next := Append(r, text[0]);
      assert (text + rest)[1..] == text[1..] + rest;
      ReadInDouble(text[1..], rest, next);
      assert next.word + text[1..] == r.word + text;
    }
  }

  /** A parameter in double quotes: one quoted word that will be expanded, not split. */
  lemma ReadQuotedParameter(name: string, rest: string, tokens: seq<Token>)
    requires name != "" && AllPlain(name) && name[0] != '{'
    ensures Read("\"" + ("$" + (name + ("\"" + ("\n" + rest)))), Fresh(tokens))
      == Some(Line(tokens + [Word("$" + name, true, true)], rest))
  {
    var end := "\"" + ("\n" + rest);
    var s := "$" + (name + end);
    var inside := Reader(InDouble, tokens, "", true, false);
    var named := Reader(InDouble, tokens, "$", true, true);
    assert ("\"" + s)[1..] == s && s[1..] == name + end && (name + end)[0] == name[0];
    assert Read("\"" + s, Fresh(tokens)) == Read(s, inside);
    assert "" + "$" == "$";
    assert Read(s, inside) == Read(name + end, named);
    ReadInDouble(name, end, named);
    var ended := named.(word := "$" + name);
    assert end[1..] == "\n" + rest;
    assert Read(end, ended) == Read("\n" + rest, ended.(mode := InWord));
    ReadNewline(rest, ended.(mode := InWord));
  }

  lemma RemovingParts(rest: string)
    ensures "rm -f -- \"$self\"" + ("\n" + rest)
      == "rm" + (" " + ("-f" + (" " + ("--" + (" " + ("\"" + ("$" + ("self" + ("\"" + ("\n" + rest))))))))))
  {
  }

  function Removing(): seq<Token> {
    [Bare("rm"), Bare("-f"), Bare("--"), Word("$self", true, true)]
  }

  lemma ReadRemoving(rest: string)
    ensures Read("rm -f -- \"$self\"" + ("\n" + rest), Fresh([])) == Some(Line(Removing(), rest))
  {
    var self := "\"" + ("$" + ("self" + ("\"" + ("\n" + rest))));
    RemovingParts(rest);
    ReadWord("rm", "-f" + (" " + ("--" + (" " + self))), []);
    ReadWord("-f", "--" + (" " + self), [] + [Bare("rm")]);
    ReadWord("--", self, [] + [Bare("rm")] + [Bare("-f")]);
    ReadQuotedParameter("self", rest, [] + [Bare("rm")] + [Bare("-f")] + [Bare("--")]);
    assert "$" + "self" == "$self";
    assert [] + [Bare("rm")] + [Bare("-f")] + [Bare("--")] + [Word("$self", true, true)] == Removing();
  }

  // ------------------------------------------------------------------ the verification callback

  /** What the callback sends, and where to. */
  datatype Callback = Callback(body: string, url: string)

  const SILENT := ">/dev/null 2>&1"

  const ASKING := "if command -v curl " + SILENT + "; " + "then curl -sS -X POST -H " + JSON_HEADER + " " + "--data "

  const JSON_TYPE := "Content-Type: application/json"

  const JSON_HEADER := "'" + JSON_TYPE + "'"

  function CallbackLine(c: Callback): string {
    ASKING + Quote(c.body) + " " + Quote(c.url) + " " + SILENT + " || true; fi"
  }

  function CheckpointCommand(callback: Option<Callback>): string {
    if callback.Some? then CallbackLine(callback.value) else ""
  }

  /** What a silenced command ends with: output to nowhere, and errors to the same place. */
  function Silenced(): seq<Token> {
    [Operator(">"), Bare("/dev/null"), Descriptor("2"), Operator(">&"), Bare("1")]
  }

  /** Whether there is a curl, and if so what it is to do. */
  const ASKED := [Bare("if"), Bare("command"), Bare("-v"), Bare("curl")]
  const POSTED := [Bare("then"), Bare("curl"), Bare("-sS"), Bare("-X"), Bare("POST"), Bare("-H")]

  function CallbackTokens(c: Callback): seq<Token> {
    ASKED + Silenced() + [Operator(";")] + POSTED
    + [Literal(JSON_TYPE), Bare("--data"), Literal(c.body), Literal(c.url)]
    + Silenced() + [Operator("||"), Bare("true"), Operator(";"), Bare("fi")]
  }

  /** A number and a redirection: its descriptor and the operator. */
  lemma ReadDescriptor(number: string, rest: string, tokens: seq<Token>)
    requires IsNumber(number)
    ensures Read(number + (['>', '&'] + rest), Fresh(tokens))
      == Read(rest, Fresh(tokens + [Descriptor(number), Operator(">&")]))
  {
    BeginPlain(number, ['>', '&'] + rest, tokens);
    ReadTwoChars('>', '&', rest, Reader(InWord, tokens, number, false, false));
    assert tokens + [Descriptor(number)] + [Operator(">&")] == tokens + [Descriptor(number), Operator(">&")];
  }

  lemma ReadOutputTo(path: string, rest: string, tokens: seq<Token>)
    requires path != "" && AllPlain(path)
    ensures Read(['>'] + (path + (" " + rest)), Fresh(tokens))
      == Read(rest, Fresh(tokens + [Operator(">"), Bare(path)]))
  {
    ReadOneChar('>', path + (" " + rest), Fresh(tokens));
    ReadWord(path, rest, tokens + [Operator(">")]);
    assert tokens + [Operator(">")] + [Bare(path)] == tokens + [Operator(">"), Bare(path)];
  }

  lemma ReadErrorsTo(number: string, target: string, rest: string, tokens: seq<Token>)
    requires IsNumber(number) && target != "" && AllPlain(target)
    ensures Read(number + (['>', '&'] + (target + rest)), Fresh(tokens))
      == Read(rest, Reader(InWord, tokens + [Descriptor(number), Operator(">&")], target, false, false))
  {
    ReadDescriptor(number, target + rest, tokens);
    BeginPlain(target, rest, tokens + [Descriptor(number), Operator(">&")]);
  }

  lemma ReadRedirections(path: string, number: string, target: string, rest: string, tokens: seq<Token>)
    requires path != "" && AllPlain(path) && IsNumber(number) && target != "" && AllPlain(target)
    ensures Read(['>'] + (path + (" " + (number + (['>', '&'] + (target + rest))))), Fresh(tokens))
      == Read(rest, Reader(InWord, tokens + [Operator(">"), Bare(path), Descriptor(number), Operator(">&")],
                           target, false, false))
  {
    var output := tokens + [Operator(">"), Bare(path)];
    ReadOutputTo(path, number + (['>', '&'] + (target + rest)), tokens);
    ReadErrorsTo(number, target, rest, output);
    assert output + [Descriptor(number), Operator(">&")]
      == tokens + [Operator(">"), Bare(path), Descriptor(number), Operator(">&")];
  }

  /** Up to the last digit, which the next character ends. */
  lemma ReadSilent(rest: string, tokens: seq<Token>)
    ensures Read(SILENT + rest, Fresh(tokens))
      == Read(rest, Reader(InWord, tokens + Silenced()[..4], "1", false, false))
  {
    SilentParts(rest);
    ReadRedirections("/dev/null", "2", "1", rest, tokens);
    assert Silenced()[..4] == [Operator(">"), Bare("/dev/null"), Descriptor("2"), Operator(">&")];
  }

  lemma SilentParts(rest: string)
    ensures SILENT + rest == ['>'] + ("/dev/null" + (" " + ("2" + (['>', '&'] + ("1" + rest)))))
  {
  }

  lemma SilentEnds(tokens: seq<Token>, c: char)
    requires c != '<' && c != '>'
    ensures var r := Reader(InWord, tokens + Silenced()[..4], "1", false, false);
      EndWord(r) == EndBefore(r, c) == Fresh(tokens + Silenced())
  {
  }

  lemma ReadClosing(rest: string, tokens: seq<Token>)
    ensures Read(SILENT + (" || true; fi" + ("\n" + rest)), Fresh(tokens))
      == Some(Line(tokens + Silenced() + [Operator("||"), Bare("true"), Operator(";"), Bare("fi")], rest))
  {
    var fi := "fi" + ("\n" + rest);
    var r := Reader(InWord, tokens + Silenced()[..4], "1", false, false);
    var silent := tokens + Silenced();
    var tried := silent + [Operator("||")];
    assert " || true; fi" + ("\n" + rest) == " " + ("||" + (" " + ("true" + ([';'] + (" " + fi)))));
    ReadSilent(" || true; fi" + ("\n" + rest), tokens);
    SilentEnds(tokens, ' ');
    ReadBlank("||" + (" " + ("true" + ([';'] + (" " + fi)))), r);
    ReadOr("true" + ([';'] + (" " + fi)), silent);
    BeginPlain("true", [';'] + (" " + fi), tried);
    ReadOneChar(';', " " + fi, Reader(InWord, tried, "true", false, false));
    var done := tried + [Bare("true")] + [Operator(";")];
    ReadBlank(fi, Fresh(done));
    ReadLastWord("fi", rest, done);
    assert done + [Bare("fi")] == silent + [Operator("||"), Bare("true"), Operator(";"), Bare("fi")];
  }

  lemma ReadTwoWords(a: string, b: string, rest: string, tokens: seq<Token>)
    requires a != "" && AllPlain(a) && b != "" && AllPlain(b)
    ensures Read(a + (" " + (b + (" " + rest))), Fresh(tokens)) == Read(rest, Fresh(tokens + [Bare(a), Bare(b)]))
  {
    ReadWord(a, b + (" " + rest), tokens);
    ReadWord(b, rest, tokens + [Bare(a)]);
    assert tokens + [Bare(a)] + [Bare(b)] == tokens + [Bare(a), Bare(b)];
  }

  lemma AskedParts(rest: string)
    ensures "if command -v curl " + rest
      == "if" + (" " + ("command" + (" " + ("-v" + (" " + ("curl" + (" " + rest)))))))
  {
  }

  lemma ReadAsked(rest: string)
    ensures Read("if command -v curl " + rest, Fresh([])) == Read(rest, Fresh(ASKED))
  {
    AskedParts(rest);
    ReadTwoWords("if", "command", "-v" + (" " + ("curl" + (" " + rest))), []);
    ReadTwoWords("-v", "curl", rest, [] + [Bare("if"), Bare("command")]);
    assert [] + [Bare("if"), Bare("command")] + [Bare("-v"), Bare("curl")] == ASKED;
  }

  lemma ReadAsking(rest: string)
    ensures Read("if command -v curl " + (SILENT + ("; " + rest)), Fresh([]))
      == Read(rest, Fresh(ASKED + Silenced() + [Operator(";")]))
  {
    var r := Reader(InWord, ASKED + Silenced()[..4], "1", false, false);
    ReadAsked(SILENT + ("; " + rest));
    ReadSilent("; " + rest, ASKED);
    SilentEnds(ASKED, ';');
    assert "; " + rest == [';'] + (" " + rest);
    ReadOneChar(';', " " + rest, r);
    ReadBlank(rest, Fresh(ASKED + Silenced() + [Operator(";")]));
  }

  lemma PostedParts(rest: string)
    ensures "then curl -sS -X POST -H " + rest
      == "then" + (" " + ("curl" + (" " + ("-sS" + (" " + ("-X" + (" " + ("POST" + (" " + ("-H" + (" " + rest)))))))))))
  {
  }

  lemma ReadThreeWords(a: string, b: string, c: string, rest: string, tokens: seq<Token>)
    requires a != "" && AllPlain(a) && b != "" && AllPlain(b) && c != "" && AllPlain(c)
    ensures Read(a + (" " + (b + (" " + (c + (" " + rest))))), Fresh(tokens))
      == Read(rest, Fresh(tokens + [Bare(a), Bare(b), Bare(c)]))
  {
    ReadTwoWords(a, b, c + (" " + rest), tokens);
    ReadWord(c, rest, tokens + [Bare(a), Bare(b)]);
    assert tokens + [Bare(a), Bare(b)] + [Bare(c)] == tokens + [Bare(a), Bare(b), Bare(c)];
  }

  lemma ReadOptions(rest: string, tokens: seq<Token>)
    ensures Read("-X" + (" " + ("POST" + (" " + ("-H" + (" " + rest))))), Fresh(tokens))
      == Read(rest, Fresh(tokens + [Bare("-X"), Bare("POST"), Bare("-H")]))
  {
    ReadThreeWords("-X", "POST", "-H", rest, tokens);
  }

  lemma ReadPosted(rest: string, tokens: seq<Token>)
    ensures Read("then curl -sS -X POST -H " + rest, Fresh(tokens)) == Read(rest, Fresh(tokens + POSTED))
  {
    var first := [Bare("then"), Bare("curl"), Bare("-sS")];
    PostedParts(rest);
    ReadThreeWords("then", "curl", "-sS", "-X" + (" " + ("POST" + (" " + ("-H" + (" " + rest))))), tokens);
    ReadOptions(rest, tokens + first);
    assert tokens + first + [Bare("-X"), Bare("POST"), Bare("-H")] == tokens + POSTED;
  }

  lemma {:induction false} NothingToReplace(value: string)
    requires '\'' !in value
    ensures ReplaceQuotes(value) == value
  {
    if value != "" {
      assert value[0] in value;
      assert forall c :: c in value[1..] ==> c in value;
      NothingToReplace(value[1..]);
    }
  }

  /** A text without quotes that stands between two. */
  lemma ReadBetweenQuotes(value: string, rest: string, tokens: seq<Token>)
    requires '\'' !in value
    ensures Read("'" + value + "'" + (" " + rest), Fresh(tokens)) == Read(rest, Fresh(tokens + [Literal(value)]))
  {
    NothingToReplace(value);
    ReadQuoted(value, rest, tokens);
  }

  lemma ReadTwoQuoted(p: string, q: string, rest: string, tokens: seq<Token>)
    ensures Read(Quote(p) + (" " + (Quote(q) + (" " + rest))), Fresh(tokens))
      == Read(rest, Fresh(tokens + [Literal(p), Literal(q)]))
  {
    ReadQuoted(p, Quote(q) + (" " + rest), tokens);
    ReadQuoted(q, rest, tokens + [Literal(p)]);
    assert tokens + [Literal(p)] + [Literal(q)] == tokens + [Literal(p), Literal(q)];
  }

  lemma ReadSending(c: Callback, rest: string, tokens: seq<Token>)
    ensures Read("--data " + (Quote(c.body) + (" " + (Quote(c.url) + (" " + rest)))), Fresh(tokens))
      == Read(rest, Fresh(tokens + [Bare("--data"), Literal(c.body), Literal(c.url)]))
  {
    var body := Quote(c.body) + (" " + (Quote(c.url) + (" " + rest)));
    Regroup("--data", " ", body);
    assert "--data" + " " == "--data ";
    ReadWord("--data", body, tokens);
    ReadTwoQuoted(c.body, c.url, rest, tokens + [Bare("--data")]);
    assert tokens + [Bare("--data")] + [Literal(c.body), Literal(c.url)]
      == tokens + [Bare("--data"), Literal(c.body), Literal(c.url)];
  }

  lemma HeaderHasNoQuote()
    ensures '\'' !in JSON_TYPE
  {
  }

  lemma ReadPosting(c: Callback, rest: string, tokens: seq<Token>)
    ensures var sending := "--data " + (Quote(c.body) + (" " + (Quote(c.url) + (" " + rest))));
      Read("then curl -sS -X POST -H " + (JSON_HEADER + (" " + sending)), Fresh(tokens))
        == Read(rest, Fresh(tokens + POSTED + [Literal(JSON_TYPE), Bare("--data"), Literal(c.body), Literal(c.url)]))
  {
    var sending := "--data " + (Quote(c.body) + (" " + (Quote(c.url) + (" " + rest))));
    ReadPosted(JSON_HEADER + (" " + sending), tokens);
    HeaderHasNoQuote();
    ReadBetweenQuotes(JSON_TYPE, sending, tokens + POSTED);
    ReadSending(c, rest, tokens + POSTED + [Literal(JSON_TYPE)]);
    assert tokens + POSTED + [Literal(JSON_TYPE)] + [Bare("--data"), Literal(c.body), Literal(c.url)]
      == tokens + POSTED + [Literal(JSON_TYPE), Bare("--data"), Literal(c.body), Literal(c.url)];
  }

  lemma AskingParts(rest: string)
    ensures ASKING + rest == "if command -v curl " + (SILENT + ("; " +
      ("then curl -sS -X POST -H " + (JSON_HEADER + (" " + ("--data " + rest))))))
  {
    var a, b, c, d, e, f := "if command -v curl ", SILENT, "; ", "then curl -sS -X POST -H ", JSON_HEADER, " ";
    Regroup(a + b + c + d + e + f, "--data ", rest);
    Regroup(a + b + c + d + e, f, "--data " + rest);
    Regroup(a + b + c + d, e, f + ("--data " + rest));
    Regroup(a + b + c, d, e + (f + ("--data " + rest)));
    Regroup(a + b, c, d + (e + (f + ("--data " + rest))));
    Regroup(a, b, c + (d + (e + (f + ("--data " + rest)))));
  }

  lemma CallbackParts(c: Callback, end: string)
    ensures CallbackLine(c) + end
      == ASKING + (Quote(c.body) + (" " + (Quote(c.url) + (" " + (SILENT + (" || true; fi" + end))))))
  {
    var p, q := Quote(c.body), Quote(c.url);
    Regroup(ASKING + p + " " + q + " " + SILENT, " || true; fi", end);
    Regroup(ASKING + p + " " + q + " ", SILENT, " || true; fi" + end);
    Regroup(ASKING + p + " " + q, " ", SILENT + (" || true; fi" + end));
    Regroup(ASKING + p + " ", q, " " + (SILENT + (" || true; fi" + end)));
    Regroup(ASKING + p, " ", q + (" " + (SILENT + (" || true; fi" + end))));
    Regroup(ASKING, p, " " + (q + (" " + (SILENT + (" || true; fi" + end)))));
  }

  /** The callback is read as its own words and operators, with the body and the address as two quoted
      words, whatever they contain. */
  lemma CallbackIsRead(c: Callback, rest: string)
    ensures ReadsTo(CallbackLine(c) + ("\n" + rest), CallbackTokens(c), rest)
  {
    var closing := SILENT + (" || true; fi" + ("\n" + rest));
    var sending := Quote(c.body) + (" " + (Quote(c.url) + (" " + closing)));
    var asked := ASKED + Silenced() + [Operator(";")];
    CallbackParts(c, "\n" + rest);
    AskingParts(sending);
    ReadAsking("then curl -sS -X POST -H " + (JSON_HEADER + (" " + ("--data " + sending))));
    ReadPosting(c, closing, asked);
    ReadClosing(rest, asked + POSTED + [Literal(JSON_TYPE), Bare("--data"), Literal(c.body), Literal(c.url)]);
  }

  // ------------------------------------------------------------------ the script

  function Terminated(lines: seq<string>, rest: string): string {
    if lines == [] then rest else lines[0] + ("\n" + Terminated(lines[1..], rest))
  }

  /** The lines of the script up to the verification callback. */
  function StartLines(workspace: string, executable: string, args: seq<string>): seq<string> {
    [SHEBANG, ChangeDirectory(workspace), "self=$0", "rm -f -- \"$self\"", CommandLine(executable, args), "code=$?"]
  }

  /** What the shell makes of those lines. */
  function StartTokens(workspace: string, executable: string, args: seq<string>): seq<seq<Token>> {
    [[], Entering(workspace), [Word("self=$0", false, true)], Removing(), [Literal(executable)] + Words(args),
     [Word("code=$?", false, true)]]
  }

  /** What follows: the callback, if there is one, and the exit with the command's own code. */
  function FinishLines(callback: Option<Callback>): seq<string> {
    (if callback.Some? then [CallbackLine(callback.value)] else []) + ["exit $code"]
  }

  function FinishTokens(callback: Option<Callback>): seq<seq<Token>> {
    (if callback.Some? then [CallbackTokens(callback.value)] else []) + [[Bare("exit"), Word("$code", false, true)]]
  }

  predicate ReadsAs(line: string, tokens: seq<Token>, rest: string) {
    ReadsTo(line + ("\n" + rest), tokens, rest)
  }

  lemma {:induction false} LinesAreRead(lines: seq<string>, tokens: seq<seq<Token>>, rest: string)
    requires |tokens| == |lines|
    requires forall i :: 0 <= i < |lines| ==> ReadsAs(lines[i], tokens[i], Terminated(lines[i + 1..], rest))
    ensures ReadLines(Terminated(lines, rest), |lines|) == Some((tokens, rest))
  {
    if lines == [] {
      assert tokens == [];
    } else {
      assert ReadsAs(lines[0], tokens[0], Terminated(lines[1..], rest));
      forall i | 0 <= i < |lines| - 1
        ensures ReadsAs(lines[1..][i], tokens[1..][i], Terminated(lines[1..][i + 1..], rest))
      {
        assert lines[1..][i + 1..] == lines[i + 2..];
        assert ReadsAs(lines[i + 1], tokens[i + 1], Terminated(lines[i + 2..], rest));
      }
      LinesAreRead(lines[1..], tokens[1..], rest);
      assert [tokens[0]] + tokens[1..] == tokens;
    }
  }

  lemma StartIsRead(workspace: string, executable: string, args: seq<string>, rest: string)
    ensures ReadLines(Terminated(StartLines(workspace, executable, args), rest), 6)
      == Some((StartTokens(workspace, executable, args), rest))
  {
    var lines, tokens := StartLines(workspace, executable, args), StartTokens(workspace, executable, args);
    forall i | 0 <= i < 6 ensures ReadsAs(lines[i], tokens[i], Terminated(lines[i + 1..], rest)) {
      var after := Terminated(lines[i + 1..], rest);
      ReadShebang(after);
      WorkspaceIsReadBack(workspace, after);
      SelfIsRead(after);
      ReadRemoving(after);
      CommandLineIsReadBack(executable, args, after);
      CodeIsRead(after);
    }
    LinesAreRead(lines, tokens, rest);
  }

  lemma SelfIsRead(rest: string)
    ensures ReadsAs("self=$0", [Word("self=$0", false, true)], rest)
  {
    ReadAssignment("self=", rest, '0');
    assert "self=$0" + ("\n" + rest) == "self=" + ("$" + ("0" + ("\n" + rest)));
    assert "self=" + "$" + "0" == "self=$0";
  }

  lemma CodeIsRead(rest: string)
    ensures ReadsAs("code=$?", [Word("code=$?", false, true)], rest)
  {
    ReadAssignment("code=", rest, '?');
    assert "code=$?" + ("\n" + rest) == "code=" + ("$" + ("?" + ("\n" + rest)));
    assert "code=" + "$" + "?" == "code=$?";
  }

  lemma ExitIsRead(rest: string)
    ensures ReadsAs("exit $code", [Bare("exit"), Word("$code", false, true)], rest)
  {
    ReadCommand("exit", "code", rest);
    assert "exit $code" + ("\n" + rest) == "exit" + (" " + ("$" + ("code" + ("\n" + rest))));
    assert "$" + "code" == "$code";
  }

  /** After the command the shell runs the callback, if there is one, with the body and the address as
      they are, and leaves with the command's code; that is the end of the script. */
  lemma FinishIsRead(callback: Option<Callback>)
    ensures ReadLines(Terminated(FinishLines(callback), ""), |FinishLines(callback)|)
      == Some((FinishTokens(callback), ""))
  {
    var lines, tokens := FinishLines(callback), FinishTokens(callback);
    forall i | 0 <= i < |lines| ensures ReadsAs(lines[i], tokens[i], Terminated(lines[i + 1..], "")) {
      var after := Terminated(lines[i + 1..], "");
      ExitIsRead(after);
      if callback.Some? { CallbackIsRead(callback.value, after); }
    }
    LinesAreRead(lines, tokens, "");
  }

  lemma {:induction false} ReadOn(
    s: string, m: nat, n: nat, tokens: seq<seq<Token>>, rest: string, more: seq<seq<Token>>)
    requires ReadLines(s, m) == Some((tokens, rest)) && ReadLines(rest, n) == Some((more, ""))
    ensures ReadLines(s, m + n) == Some((tokens + more, ""))
    decreases m
  {
    if m == 0 {
      assert tokens + more == more;
    } else {
      var line := Read(s, Fresh([])).value;
      ReadOn(line.rest, m - 1, n, tokens[1..], rest, more);
      assert [line.tokens] + (tokens[1..] + more) == tokens + more;
    }
  }

  /** The whole script, read from its first line to its end. */
  lemma ScriptIsRead(workspace: string, executable: string, args: seq<string>, callback: Option<Callback>)
    ensures ReadLines(ScriptText(workspace, executable, args, callback), 6 + |FinishLines(callback)|)
      == Some((StartTokens(workspace, executable, args) + FinishTokens(callback), ""))
  {
    var rest := Terminated(FinishLines(callback), "");
    StartIsRead(workspace, executable, args, rest);
    FinishIsRead(callback);
    ReadOn(ScriptText(workspace, executable, args, callback), 6, |FinishLines(callback)|,
           StartTokens(workspace, executable, args), rest, FinishTokens(callback));
  }

  function Opening(workspace: string): string {
    "#!/bin/sh\ncd -- " + Quote(workspace) + ENTERED
  }

  const ENTERED := " || exit 1\nself=$0\nrm -f -- \"$self\"\n"

  lemma EnteredParts(rest: string)
    ensures ENTERED + rest == " || exit 1" + ("\n" + ("self=$0" + ("\n" + ("rm -f -- \"$self\"" + ("\n" + rest)))))
  {
  }

  /** The text before the command line is the script's first four lines. */
  lemma OpeningLines(workspace: string, rest: string)
    ensures Opening(workspace) + rest
      == SHEBANG + ("\n" + (ChangeDirectory(workspace) + ("\n" +
        ("self=$0" + ("\n" + ("rm -f -- \"$self\"" + ("\n" + rest)))))))
  {
    var quoted := Quote(workspace);
    var self := "\n" + ("self=$0" + ("\n" + ("rm -f -- \"$self\"" + ("\n" + rest))));
    Regroup("#!/bin/sh\ncd -- " + quoted, ENTERED, rest);
    EnteredParts(rest);
    Regroup("cd -- " + quoted, " || exit 1", self);
    Regroup("cd -- ", quoted, " || exit 1" + self);
    Regroup("#!/bin/sh\ncd -- ", quoted, " || exit 1" + self);
    assert "#!/bin/sh\ncd -- " == SHEBANG + "\n" + "cd -- ";
    Regroup(SHEBANG + "\n", "cd -- ", quoted + (" || exit 1" + self));
    Regroup(SHEBANG, "\n", "cd -- " + (quoted + (" || exit 1" + self)));
  }

  lemma AppendArgument(opening: string, executable: string, args: seq<string>, i: nat)
    requires i < |args|
    ensures (opening + CommandLine(executable, args[..i])) + (" " + Quote(args[i]))
      == opening + CommandLine(executable, args[..i + 1])
  {
    assert args[..i + 1][..i] == args[..i];
    assert QuoteAll(args[..i + 1]) == QuoteAll(args[..i]) + " " + Quote(args[i]);
  }

  lemma AppendFinish(command: string, callback: Option<Callback>)
    ensures var text := CheckpointCommand(callback);
      (if text != "" then command + text + "\n" else command) + "exit $code\n"
        == command + Terminated(FinishLines(callback), "")
  {
    var exit := "exit $code" + ("\n" + "");
    assert exit == "exit $code\n" && Terminated([], "") == "";
    assert ["exit $code"][1..] == [];
    assert Terminated(["exit $code"], "") == exit;
    if callback.Some? {
      var line := CallbackLine(callback.value);
      assert FinishLines(callback)[1..] == ["exit $code"];
      assert Terminated(FinishLines(callback), "") == line + ("\n" + exit);
      Regroup(command, line, "\n");
      Regroup(command, line + "\n", exit);
      Regroup(line, "\n", exit);
    } else {
      assert FinishLines(callback) == ["exit $code"];
    }
  }

  function ScriptText(workspace: string, executable: string, args: seq<string>, callback: Option<Callback>): string {
    Terminated(StartLines(workspace, executable, args), Terminated(FinishLines(callback), ""))
  }

  /** The text of the launch script. A shell that reads it from the top passes its own four lines, runs
      exactly the executable with exactly the arguments, and then finishes as described. */
  method WriteWrapper(workspace: string, executable: string, args: seq<string>, callback: Option<Callback>)
    returns (command: string)
    ensures command == ScriptText(workspace, executable, args, callback)
    ensures ReadLines(command, 6 + |FinishLines(callback)|)
      == Some((StartTokens(workspace, executable, args) + FinishTokens(callback), ""))
  {
    command := Opening(workspace) + Quote(executable);
    var i := 0;
    while i < |args|
      invariant 0 <= i <= |args|
      invariant command == Opening(workspace) + CommandLine(executable, args[..i])
    {
      AppendArgument(Opening(workspace), executable, args, i);
      command := command + (" " + Quote(args[i]));
      i := i + 1;
    }
    assert args[..i] == args;
    command := command + "\ncode=$?\n";
    AppendFinish(command, callback);
    var text := CheckpointCommand(callback);
    if text != "" { command := command + text + "\n"; }
    command := command + "exit $code\n";
    StartText(workspace, executable, args, Terminated(FinishLines(callback), ""));
    ScriptIsRead(workspace, executable, args, callback);
  }

  lemma StartText(workspace: string, executable: string, args: seq<string>, rest: string)
    ensures Opening(workspace) + CommandLine(executable, args) + "\ncode=$?\n" + rest
      == Terminated(StartLines(workspace, executable, args), rest)
  {
    var opening, line := Opening(workspace), CommandLine(executable, args);
    var end := "\n" + ("code=$?" + ("\n" + rest));
    assert "\ncode=$?\n" + rest == end;
    Regroup(opening + line, "\ncode=$?\n", rest);
    Regroup(opening, line, end);
    OpeningLines(workspace, line + end);
    TerminatedSix(workspace, executable, args, rest);
  }

  lemma TerminatedSix(workspace: string, executable: string, args: seq<string>, rest: string)
    ensures Terminated(StartLines(workspace, executable, args), rest)
      == SHEBANG + ("\n" + (ChangeDirectory(workspace) + ("\n" + ("self=$0" + ("\n" + ("rm -f -- \"$self\"" + ("\n" +
        (CommandLine(executable, args) + ("\n" + ("code=$?" + ("\n" + rest)))))))))))
  {
    var s := StartLines(workspace, executable, args);
    assert Terminated(s[6..], rest) == rest;
    assert s[5..][1..] == s[6..];
    assert Terminated(s[5..], rest) == s[5] + ("\n" + rest);
    assert s[4..][1..] == s[5..];
    assert Terminated(s[4..], rest) == s[4] + ("\n" + Terminated(s[5..], rest));
    assert s[3..][1..] == s[4..];
    assert Terminated(s[3..], rest) == s[3] + ("\n" + Terminated(s[4..], rest));
    assert s[2..][1..] == s[3..];
    assert Terminated(s[2..], rest) == s[2] + ("\n" + Terminated(s[3..], rest));
    assert s[1..][1..] == s[2..];
    assert Terminated(s[1..], rest) == s[1] + ("\n" + Terminated(s[2..], rest));
  }
}
