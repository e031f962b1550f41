/**
  The natural order of names, told by runs of characters and by digits instead of by values: what
  the first runs of two names decide, and how the digits of two numbers compare.
 */
module NaturalNames {
  import opened Strings
  import opened NaturalOrder

  // ------------------------------------------------------------------ numbers as digits

  const LARGEST: nat := 9223372036854775807

  /** A number in decimal notation, and nothing for zero. */
  function Decimal(n: nat): (s: string)
    ensures AllDigits(s) && (s != "" ==> s[0] != '0')
  {
    if n == 0 then "" else Decimal(n / 10) + [('0' as int + n % 10) as char]
  }

  predicate AllDigits(s: string) {
    forall i :: 0 <= i < |s| ==> '0' <= s[i] <= '9'
  }

  /** The digits without leading zeros; nothing is left of zero. */
  function Significant(s: string): (r: string)
    ensures |r| <= |s| && r == s[|s| - |r|..] && (r != "" ==> r[0] != '0')
    ensures forall i :: 0 <= i < |s| - |r| ==> s[i] == '0'
  {
    if s != "" && s[0] == '0' then Significant(s[1..]) else s
  }

  /** Fewer significant digits, or as many and the first that differs is lower. */
  predicate DigitsLess(a: string, b: string) {
    |a| < |b| || (|a| == |b| && StringLess(a, b))
  }

  /** The lower number comes first; those beyond the largest one do not differ. */
  predicate NumberBefore(a: string, b: string) {
    DigitsLess(Significant(a), Significant(b)) && DigitsLess(Significant(a), Decimal(LARGEST))
  }

  function Power(n: nat): nat {
    if n == 0 then 1 else 10 * Power(n - 1)
  }

  lemma {:induction false} PowerGrows(m: nat, n: nat)
    requires m <= n
    ensures 0 < Power(m) <= Power(n)
  {
    if m < n { PowerGrows(m, n - 1); } else if m > 0 { PowerGrows(m - 1, m - 1); }
  }

  lemma {:induction false} NumeralIsBounded(s: string)
    requires AllDigits(s)
    ensures Numeral(s) < Power(|s|)
  {
    if s != "" { NumeralIsBounded(s[..|s| - 1]); }
  }

  lemma {:induction false} NumeralIsLarge(s: string)
    requires AllDigits(s) && s != "" && s[0] != '0'
    ensures Power(|s| - 1) <= Numeral(s)
  {
    if |s| > 1 { NumeralIsLarge(s[..|s| - 1]); }
  }

  lemma {:induction false} ZerosDoNotCount(s: string)
    requires AllDigits(s) && s != "" && s[0] == '0'
    ensures Numeral(s) == Numeral(s[1..])
  {
    if |s| > 1 {
      var init := s[..|s| - 1];
      ZerosDoNotCount(init);
      assert s[1..][..|s| - 2] == init[1..];
    }
  }

  lemma {:induction false} SignificantValue(s: string)
    requires AllDigits(s)
    ensures AllDigits(Significant(s)) && Numeral(Significant(s)) == Numeral(s)
  {
    if s != "" && s[0] == '0' {
      ZerosDoNotCount(s);
      SignificantValue(s[1..]);
    }
  }

  lemma {:induction false} LastDecides(a: string, b: string, c: char, d: char)
    requires |a| == |b|
    ensures StringLess(a + [c], b + [d]) <==> StringLess(a, b) || (a == b && c < d)
  {
    if a != "" {
      LastDecides(a[1..], b[1..], c, d);
      assert (a + [c])[1..] == a[1..] + [c] && (b + [d])[1..] == b[1..] + [d];
      assert a == [a[0]] + a[1..] && b == [b[0]] + b[1..];
    }
  }

  lemma {:induction false} EqualLengths(a: string, b: string)
    requires AllDigits(a) && AllDigits(b) && |a| == |b|
    ensures Numeral(a) < Numeral(b) <==> StringLess(a, b)
    decreases |a|
  {
    if a != "" {
      var n := |a| - 1;
      EqualLengths(a[..n], b[..n]);
      EqualLengths(b[..n], a[..n]);
      StringOrder(a[..n], b[..n], a[..n]);
      LastDecides(a[..n], b[..n], a[n], b[n]);
      assert a == a[..n] + [a[n]] && b == b[..n] + [b[n]];
      assert Numeral(a[..n]) == Numeral(b[..n]) ==> a[..n] == b[..n];
    }
  }

  lemma ShorterIsLess(a: string, b: string)
    requires AllDigits(a) && AllDigits(b) && |a| < |b| && b[0] != '0'
    ensures Numeral(a) < Numeral(b)
  {
    NumeralIsBounded(a);
    NumeralIsLarge(b);
    PowerGrows(|a|, |b| - 1);
  }

  lemma NumeralsCompare(a: string, b: string)
    requires AllDigits(a) && AllDigits(b) && (a == "" || a[0] != '0') && (b == "" || b[0] != '0')
    ensures Numeral(a) < Numeral(b) <==> DigitsLess(a, b)
  {
    if |a| == |b| {
      EqualLengths(a, b);
    } else if |a| < |b| {
      ShorterIsLess(a, b);
    } else {
      ShorterIsLess(b, a);
    }
  }

  /** Reading a number in decimal notation gives the number. */
  lemma {:induction false} NumeralOfDecimal(n: nat)
    ensures Numeral(Decimal(n)) == n
  {
    if n > 0 {
      NumeralOfDecimal(n / 10);
      var c := ('0' as int + n % 10) as char;
      assert (Decimal(n / 10) + [c])[..|Decimal(n / 10)|] == Decimal(n / 10);
    }
  }

  lemma NumbersCompare(a: string, b: string)
    requires AllDigits(a) && AllDigits(b)
    ensures Saturated(Numeral(a)) < Saturated(Numeral(b)) <==> NumberBefore(a, b)
  {
    SignificantValue(a);
    SignificantValue(b);
    NumeralOfDecimal(LARGEST);
    SignificantCompare(Significant(a), Significant(b), Decimal(LARGEST));
  }

  lemma SignificantCompare(a: string, b: string, largest: string)
    requires AllDigits(a) && AllDigits(b) && AllDigits(largest) && Numeral(largest) == MAX_INT
    requires (a == "" || a[0] != '0') && (b == "" || b[0] != '0') && (largest == "" || largest[0] != '0')
    ensures Saturated(Numeral(a)) < Saturated(Numeral(b)) <==> DigitsLess(a, b) && DigitsLess(a, largest)
  {
    NumeralsCompare(a, b);
    NumeralsCompare(a, largest);
  }

  // ------------------------------------------------------------------ names

  /** The first `n` characters are all digits or all not, and what follows them is different. */
  predicate IsRun(s: string, n: nat) {
    && 0 < n <= |s| && (forall i :: 0 <= i < n ==> IsDigit(s[i]) == IsDigit(s[0]))
    && (n < |s| ==> IsDigit(s[n]) != IsDigit(s[0]))
  }

  lemma FirstPart(s: string, n: nat, lower: char -> char)
    requires IsRun(s, n)
    ensures Parts(s, lower) == [PartOf(s[..n], IsDigit(s[0]), lower)] + Parts(s[n..], lower)
  {
    assert Run(s, IsDigit(s[0])) == n;
  }

  lemma FirstsDecide(p: Part, a: seq<Part>, q: Part, b: seq<Part>)
    ensures PartsLess([p] + a, [q] + b) <==> if PartSame(p, q) then PartsLess(a, b) else PartLess(p, q)
  {
    assert ([p] + a)[1..] == a && ([q] + b)[1..] == b;
  }

  lemma FirstRuns(a: string, n: nat, b: string, m: nat, lower: char -> char)
    requires IsRun(a, n) && IsRun(b, m)
    ensures var p, q := PartOf(a[..n], IsDigit(a[0]), lower), PartOf(b[..m], IsDigit(b[0]), lower);
      NaturalLess(a, b, lower) <==> if PartSame(p, q) then NaturalLess(a[n..], b[m..], lower) else PartLess(p, q)
  {
    FirstPart(a, n, lower);
    FirstPart(b, m, lower);
    FirstsDecide(PartOf(a[..n], IsDigit(a[0]), lower), Parts(a[n..], lower),
                 PartOf(b[..m], IsDigit(b[0]), lower), Parts(b[m..], lower));
  }

  /** An empty name comes before all others. */
  lemma EmptyIsFirst(a: string, b: string, lower: char -> char)
    requires a == "" || b == ""
    ensures NaturalLess(a, b, lower) <==> a == "" && b != ""
  {
  }

  lemma NumberParts(x: string, y: string, lower: char -> char)
    requires AllDigits(x) && AllDigits(y)
    ensures PartLess(PartOf(x, true, lower), PartOf(y, true, lower)) <==> NumberBefore(x, y)
    ensures PartSame(PartOf(x, true, lower), PartOf(y, true, lower)) <==> !NumberBefore(x, y) && !NumberBefore(y, x)
  {
    NumbersCompare(x, y);
    NumbersCompare(y, x);
  }

  lemma TextParts(x: string, digits: bool, y: string, others: bool, lower: char -> char)
    requires !digits || !others
    requires forall i :: 0 <= i < |x| ==> IsDigit(x[i]) == digits
    requires forall i :: 0 <= i < |y| ==> IsDigit(y[i]) == others
    ensures var p, q := PartOf(x, digits, lower), PartOf(y, others, lower);
      && (PartLess(p, q) <==> StringLess(Lower(x, lower), Lower(y, lower)))
      && (PartSame(p, q) <==> Lower(x, lower) == Lower(y, lower))
      && (PartSame(p, q) ==> !PartLess(p, q))
  {
    StringOrder(Lower(x, lower), Lower(y, lower), Lower(x, lower));
  }

  /** The first runs decide, numbers by value and anything else by its lower-case characters; where
      they do not, what follows them does. */
  lemma NaturalLessMeans(a: string, n: nat, b: string, m: nat, lower: char -> char)
    requires IsRun(a, n) && IsRun(b, m)
    ensures var x, y := a[..n], b[..m];
      NaturalLess(a, b, lower) <==>
        if IsDigit(a[0]) && IsDigit(b[0]) then
          NumberBefore(x, y) || (!NumberBefore(y, x) && NaturalLess(a[n..], b[m..], lower))
        else
          || StringLess(Lower(x, lower), Lower(y, lower))
          || (Lower(x, lower) == Lower(y, lower) && NaturalLess(a[n..], b[m..], lower))
  {
    FirstRuns(a, n, b, m, lower);
    if IsDigit(a[0]) && IsDigit(b[0]) {
      NumberParts(a[..n], b[..m], lower);
    } else {
      TextParts(a[..n], IsDigit(a[0]), b[..m], IsDigit(b[0]), lower);
    }
  }
}
