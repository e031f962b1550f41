/**
  File names in the order a reader expects: a name is cut into runs of digits and runs of other
  characters, and runs of digits compare as numbers.
 */
module NaturalOrder {
  import opened Strings

  const MAX_INT: nat := 0x7fff_ffff_ffff_ffff

  datatype Part = Part(value: string, number: bool, numberValue: nat)

  predicate IsDigit(c: char) {
    '0' <= c <= '9'
  }

  /** Folding case neither makes nor loses a digit. */
  ghost predicate KeepsDigits(lower: char -> char) {
    forall c :: (IsDigit(c) ==> lower(c) == c) && (!IsDigit(c) ==> !IsDigit(lower(c)))
  }

  // ------------------------------------------------------------------ parts

  /** The length of the run of digits, or of other characters, that the name starts with. */
  function Run(s: string, digits: bool): (n: nat)
    ensures n <= |s| && (forall i :: 0 <= i < n ==> IsDigit(s[i]) == digits) && (n < |s| ==> IsDigit(s[n]) != digits)
  {
    if s != "" && IsDigit(s[0]) == digits then 1 + Run(s[1..], digits) else 0
  }

  function DigitValue(c: char): nat
    requires IsDigit(c)
  {
    (c as int) - ('0' as int)
  }

  function Numeral(digits: string): nat
    requires forall i :: 0 <= i < |digits| ==> IsDigit(digits[i])
  {
    if digits == "" then 0 else 10 * Numeral(digits[..|digits| - 1]) + DigitValue(digits[|digits| - 1])
  }

  /** Numbers beyond the machine's range all count as the largest one. */
  function Saturated(n: nat): nat {
    if n > MAX_INT then MAX_INT else n
  }

  function PartOf(run: string, digits: bool, lower: char -> char): Part
    requires forall i :: 0 <= i < |run| ==> IsDigit(run[i]) == digits
  {
    Part(Lower(run, lower), digits, if digits then Saturated(Numeral(run)) else 0)
  }

  function Parts(s: string, lower: char -> char): seq<Part>
    decreases |s|
  {
    if s == "" then []
    else
      var digits := IsDigit(s[0]);
      var n := Run(s, digits);
      [PartOf(s[..n], digits, lower)] + Parts(s[n..], lower)
  }

  /** A part is not empty and shows by its first character what it is. */
  predicate WellFormed(p: Part) {
    p.value != "" && IsDigit(p.value[0]) == p.number
  }

  predicate Alternates(parts: seq<Part>) {
    forall i :: 0 < i < |parts| ==> parts[i].number != parts[i - 1].number
  }

  lemma {:induction false} PartsAreWellFormed(s: string, lower: char -> char)
    requires KeepsDigits(lower)
    ensures forall p :: p in Parts(s, lower) ==> WellFormed(p)
    ensures Alternates(Parts(s, lower))
    ensures s != "" ==> Parts(s, lower) != [] && Parts(s, lower)[0].number == IsDigit(s[0])
    decreases |s|
  {
    if s != "" {
      var digits := IsDigit(s[0]);
      var n := Run(s, digits);
      PartsAreWellFormed(s[n..], lower);
      var first, rest := PartOf(s[..n], digits, lower), Parts(s[n..], lower);
      assert first.value[0] == lower(s[0]);
      var all := [first] + rest;
      forall i | 0 < i < |all| ensures all[i].number != all[i - 1].number {
        if i > 1 { assert rest[i - 1].number != rest[i - 2].number; } else { assert s[n..] != ""; }
      }
    }
  }

  // ------------------------------------------------------------------ the order

  predicate PartLess(a: Part, b: Part) {
    if a.number && b.number then a.numberValue < b.numberValue else StringLess(a.value, b.value)
  }

  /** The loop goes on to the next part. */
  predicate PartSame(a: Part, b: Part) {
    if a.number && b.number then a.numberValue == b.numberValue else a.value == b.value
  }

  predicate PartsLess(a: seq<Part>, b: seq<Part>) {
    if a == [] || b == [] then |a| < |b|
    else if PartSame(a[0], b[0]) then PartsLess(a[1..], b[1..])
    else PartLess(a[0], b[0])
  }

  predicate NaturalLess(a: string, b: string, lower: char -> char) {
    PartsLess(Parts(a, lower), Parts(b, lower))
  }

  /** One of two different parts comes first, and a text lies before or after all numbers alike. */
  lemma PartOrder(a: Part, b: Part, c: Part)
    requires WellFormed(a) && WellFormed(b) && WellFormed(c)
    ensures !PartLess(a, a) && PartSame(a, a) && (PartSame(a, b) ==> PartSame(b, a))
    ensures PartSame(a, b) || PartLess(a, b) || PartLess(b, a)
    ensures PartSame(a, b) ==> !PartLess(a, b) && !PartLess(b, a)
    ensures PartLess(a, b) && PartLess(b, c) ==> PartLess(a, c) && !PartSame(a, c)
    ensures PartSame(a, b) && PartSame(b, c) ==> PartSame(a, c)
    ensures PartSame(a, b) && PartLess(b, c) ==> PartLess(a, c) && !PartSame(a, c)
    ensures PartLess(a, b) && PartSame(b, c) ==> PartLess(a, c) && !PartSame(a, c)
  {
    StringOrder(a.value, b.value, c.value);
    StringOrder(a.value, c.value, b.value);
    StringOrder(b.value, a.value, c.value);
    StringOrder(c.value, a.value, b.value);
  }

  ghost predicate AllWellFormed(parts: seq<Part>) {
    forall p :: p in parts ==> WellFormed(p)
  }

  predicate PartsSame(a: seq<Part>, b: seq<Part>) {
    |a| == |b| && forall i :: 0 <= i < |a| ==> PartSame(a[i], b[i])
  }

  /** Exactly one holds: before, after, or the same number of parts, each the same. */
  lemma {:induction false} PartsTrichotomy(a: seq<Part>, b: seq<Part>)
    requires AllWellFormed(a) && AllWellFormed(b)
    ensures PartsSame(a, b) <==> !PartsLess(a, b) && !PartsLess(b, a)
    ensures !(PartsLess(a, b) && PartsLess(b, a))
  {
    if a != [] && b != [] {
      PartOrder(a[0], b[0], a[0]);
      PartOrder(b[0], a[0], b[0]);
      PartsTrichotomy(a[1..], b[1..]);
      assert a == [a[0]] + a[1..] && b == [b[0]] + b[1..];
      if PartsSame(a, b) {
        forall i | 0 <= i < |a| - 1 ensures PartSame(a[1..][i], b[1..][i]) { assert PartSame(a[i + 1], b[i + 1]); }
      }
    }
  }

  lemma {:induction false} PartsTransitive(a: seq<Part>, b: seq<Part>, c: seq<Part>)
    requires AllWellFormed(a) && AllWellFormed(b) && AllWellFormed(c)
    ensures PartsLess(a, b) && PartsLess(b, c) ==> PartsLess(a, c)
    ensures PartsLess(a, b) ==> PartsLess(a, c) || PartsLess(c, b)
  {
    if a != [] && b != [] && c != [] {
      var x, y, z := a[0], b[0], c[0];
      PartOrder(x, y, z);
      PartOrder(x, z, y);
      PartOrder(z, x, y);
      PartOrder(z, y, x);
      PartOrder(y, z, x);
      PartsTransitive(a[1..], b[1..], c[1..]);
    }
  }

  /** The order is a strict weak one on all names, so that sorting by it is well defined. */
  lemma NaturalLessIsAWeakOrder(a: string, b: string, c: string, lower: char -> char)
    requires KeepsDigits(lower)
    ensures !NaturalLess(a, a, lower)
    ensures NaturalLess(a, b, lower) && NaturalLess(b, c, lower) ==> NaturalLess(a, c, lower)
    ensures NaturalLess(a, b, lower) ==> NaturalLess(a, c, lower) || NaturalLess(c, b, lower)
  {
    PartsAreWellFormed(a, lower);
    PartsAreWellFormed(b, lower);
    PartsAreWellFormed(c, lower);
    PartsTrichotomy(Parts(a, lower), Parts(a, lower));
    PartsTransitive(Parts(a, lower), Parts(b, lower), Parts(c, lower));
  }

  /** Two names tie exactly when they differ only in case, in leading zeros, or in numbers too large. */
  lemma NaturalTies(a: string, b: string, lower: char -> char)
    requires KeepsDigits(lower)
    ensures !NaturalLess(a, b, lower) && !NaturalLess(b, a, lower) <==> PartsSame(Parts(a, lower), Parts(b, lower))
  {
    PartsAreWellFormed(a, lower);
    PartsAreWellFormed(b, lower);
    PartsTrichotomy(Parts(a, lower), Parts(b, lower));
  }

  // ------------------------------------------------------------------ the loops

  method ScanRun(input: string, start: nat, digits: bool) returns (i: nat)
    requires start <= |input|
    ensures i == start + Run(input[start..], digits) <= |input|
  {
    i := start;
    while i < |input| && IsDigit(input[i]) == digits
      invariant start <= i <= |input|
      invariant start + Run(input[start..], digits) == i + Run(input[i..], digits)
    {
      assert input[i..][1..] == input[i + 1..];
      i := i + 1;
    }
  }

  lemma NextPart(input: string, start: nat, i: nat, lower: char -> char)
    requires start < |input| && i == start + Run(input[start..], IsDigit(input[start])) <= |input|
    ensures start < i && forall k :: start <= k < i ==> IsDigit(input[k]) == IsDigit(input[start])
    ensures Parts(input[start..], lower)
      == [PartOf(input[start..i], IsDigit(input[start]), lower)] + Parts(input[i..], lower)
  {
    var rest := input[start..];
    assert input[start..i] == rest[..i - start] && rest[i - start..] == input[i..];
    forall k | start <= k < i ensures IsDigit(input[k]) == IsDigit(input[start]) {
      assert rest[k - start] == input[k];
    }
  }

  method TakePart(input: string, start: nat, lower: char -> char) returns (part: Part, i: nat)
    requires start < |input|
    ensures start < i <= |input| && Parts(input[start..], lower) == [part] + Parts(input[i..], lower)
  {
    var digits := IsDigit(input[start]);
    i := ScanRun(input, start, digits);
    NextPart(input, start, i, lower);
    part := PartOf(input[start..i], digits, lower);
  }

  method NaturalParts(input: string, lower: char -> char) returns (parts: seq<Part>)
    ensures parts == Parts(input, lower)
  {
    parts := [];
    var i := 0;
    while i < |input|
      invariant 0 <= i <= |input|
      invariant parts + Parts(input[i..], lower) == Parts(input, lower)
    {
      var part;
      part, i := TakePart(input, i, lower);
      parts := parts + [part];
    }
  }

  lemma PartsLessFrom(a: seq<Part>, b: seq<Part>, i: nat)
    requires i < |a| && i < |b|
    ensures PartsLess(a[i..], b[i..])
      <==> if PartSame(a[i], b[i]) then PartsLess(a[i + 1..], b[i + 1..]) else PartLess(a[i], b[i])
  {
    assert a[i..][1..] == a[i + 1..] && b[i..][1..] == b[i + 1..];
  }

  method NaturalLessThan(left: string, right: string, lower: char -> char) returns (less: bool)
    ensures less == NaturalLess(left, right, lower)
  {
    var a := NaturalParts(left, lower);
    var b := NaturalParts(right, lower);
    less := CompareParts(a, b);
  }

  method CompareParts(a: seq<Part>, b: seq<Part>) returns (less: bool)
    ensures less == PartsLess(a, b)
  {
    var i := 0;
    while i < |a| && i < |b|
      invariant 0 <= i <= |a| && i <= |b|
      invariant PartsLess(a, b) == PartsLess(a[i..], b[i..])
    {
      var x, y := a[i], b[i];
      PartsLessFrom(a, b, i);
      if x.number && y.number {
        if x.numberValue != y.numberValue { return x.numberValue < y.numberValue; }
      } else if x.value != y.value {
        return StringLess(x.value, y.value);
      }
      i := i + 1;
    }
    less := |a| < |b|;
  }
}
