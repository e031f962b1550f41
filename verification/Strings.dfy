/**
  The few facts about strings that several components share.

  Strings are sequences of characters. Trimming removes white space in the sense of Unicode,
  comparison goes character by character, and splitting always gives at least one piece. Case
  folding is given by what it does to a single character, which is all the source's folding looks
  at.
 */
module Strings {
  /** White space in the sense of Unicode, which is what trimming removes. */
  predicate IsSpace(c: char) {
    || c == ' ' || '\U{0009}' <= c <= '\U{000D}' || c == '\U{0085}' || c == '\U{00A0}'
    || c == '\U{1680}' || '\U{2000}' <= c <= '\U{200A}' || c == '\U{2028}' || c == '\U{2029}'
    || c == '\U{202F}' || c == '\U{205F}' || c == '\U{3000}'
  }

  /** The code points that count as white space. */
  lemma SpacesAre(c: char)
    ensures IsSpace(c) <==>
      c as int in {32, 133, 160, 5760, 8232, 8233, 8239, 8287, 12288} || 9 <= c as int <= 13 || 8192 <= c as int <= 8202
  {
  }

  /** Trimming the string leaves nothing. */
  predicate IsBlank(s: string) {
    forall i :: 0 <= i < |s| ==> IsSpace(s[i])
  }

  function TrimLeft(s: string): string {
    if s != [] && IsSpace(s[0]) then TrimLeft(s[1..]) else s
  }

  function TrimRight(s: string): string {
    if s != [] && IsSpace(s[|s| - 1]) then TrimRight(s[..|s| - 1]) else s
  }

  function Trim(s: string): string {
    TrimRight(TrimLeft(s))
  }

  lemma {:induction false} LeftTrimmed(s: string) returns (before: string)
    ensures IsBlank(before) && s == before + TrimLeft(s)
    ensures TrimLeft(s) == "" || !IsSpace(TrimLeft(s)[0])
  {
    before := "";
    if s != "" && IsSpace(s[0]) {
      var more := LeftTrimmed(s[1..]);
      before := [s[0]] + more;
      assert s == [s[0]] + s[1..];
    }
  }

  lemma {:induction false} RightTrimmed(s: string) returns (after: string)
    ensures IsBlank(after) && s == TrimRight(s) + after
    ensures TrimRight(s) == "" || !IsSpace(TrimRight(s)[|TrimRight(s)| - 1])
  {
    after := "";
    if s != "" && IsSpace(s[|s| - 1]) {
      var more := RightTrimmed(s[..|s| - 1]);
      after := more + [s[|s| - 1]];
      assert s == s[..|s| - 1] + [s[|s| - 1]];
    }
  }

  /** Trimming takes away the white space on both sides and nothing else. */
  lemma TrimMeans(s: string) returns (before: string, after: string)
    ensures IsBlank(before) && IsBlank(after) && s == before + Trim(s) + after
    ensures Trim(s) == "" || (!IsSpace(Trim(s)[0]) && !IsSpace(Trim(s)[|Trim(s)| - 1]))
  {
    before := LeftTrimmed(s);
    after := RightTrimmed(TrimLeft(s));
    if Trim(s) != "" { assert Trim(s)[0] == TrimLeft(s)[0]; }
  }

  /** Strings compare character by character. */
  predicate StringLess(a: string, b: string) {
    b != "" && (a == "" || a[0] < b[0] || (a[0] == b[0] && StringLess(a[1..], b[1..])))
  }

  lemma {:induction false} StringOrder(a: string, b: string, c: string)
    ensures !StringLess(a, a)
    ensures StringLess(a, b) && StringLess(b, c) ==> StringLess(a, c)
    ensures a == b || StringLess(a, b) || StringLess(b, a)
  {
    if a != "" { StringOrder(a[1..], if b == "" then "" else b[1..], if c == "" then "" else c[1..]); }
    if a != "" && b != "" && a[0] == b[0] && a[1..] == b[1..] { assert a == [a[0]] + a[1..] == b; }
  }

  /** Two strings agree on their first `n` characters, and then one ends or has the lower character. */
  predicate LowerAt(a: string, b: string, n: nat) {
    n <= |a| && n < |b| && a[..n] == b[..n] && (n == |a| || a[n] < b[n])
  }

  lemma LowerAtMore(a: string, b: string, n: nat)
    requires a != "" && b != "" && a[0] == b[0]
    ensures LowerAt(a, b, n + 1) <==> LowerAt(a[1..], b[1..], n)
  {
    if n + 1 <= |a| && n + 1 <= |b| {
      assert a[..n + 1] == [a[0]] + a[1..][..n] && b[..n + 1] == [b[0]] + b[1..][..n];
    }
  }

  lemma SameStart(a: string, b: string, n: nat)
    requires LowerAt(a, b, n) && n > 0
    ensures a != "" && b != "" && a[0] == b[0]
  {
    assert a[..n][0] == b[..n][0];
  }

  /** The order of a dictionary. */
  lemma {:induction false} StringLessMeans(a: string, b: string)
    ensures StringLess(a, b) <==> exists n: nat :: LowerAt(a, b, n)
  {
    if a == "" || b == "" || a[0] != b[0] {
      assert b != "" && (a == "" || a[0] < b[0]) ==> LowerAt(a, b, 0);
      if n: nat :| LowerAt(a, b, n) {
        if n > 0 { SameStart(a, b, n); }
      }
    } else {
      StringLessMeans(a[1..], b[1..]);
      if n: nat :| LowerAt(a[1..], b[1..], n) { LowerAtMore(a, b, n); }
      if n: nat :| LowerAt(a, b, n) { if n > 0 { LowerAtMore(a, b, n - 1); } }
    }
  }

  /** Case folding, character by character. */
  function Lower(s: string, lower: char -> char): (r: string)
    ensures |r| == |s| && forall i :: 0 <= i < |s| ==> r[i] == lower(s[i])
  {
    seq(|s|, i requires 0 <= i < |s| => lower(s[i]))
  }

  /** The pieces between the separators; there is always at least one. */
  function Split(s: string, separator: char): (pieces: seq<string>)
    ensures |pieces| > 0
  {
    if s == "" then [""]
    else
      var rest := Split(s[1..], separator);
      if s[0] == separator then [""] + rest else [[s[0]] + rest[0]] + rest[1..]
  }
}
