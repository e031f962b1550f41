/** The few facts about lists, sets and counts that several components share. */
module Collections {
  function Take<T>(s: seq<T>, n: nat): seq<T> {
    if |s| <= n then s else s[..n]
  }

  lemma LastTaken<T>(s: seq<T>, i: nat)
    requires i < |s|
    ensures s[..i + 1][..i] == s[..i] && s[..i + 1][i] == s[i]
  {
  }

  predicate Distinct<T(==)>(s: seq<T>) {
    forall i, j :: 0 <= i < j < |s| ==> s[i] != s[j]
  }

  lemma SubsetSize<T>(small: set<T>, large: set<T>)
    requires small <= large
    ensures |small| <= |large|
  {
    assert large == small + (large - small);
  }

  /** A counter that has not been written counts nothing. */
  function Tally(counts: map<string, nat>, key: string): nat {
    if key in counts then counts[key] else 0
  }

  /** Some of the first `n` positions, in order. */
  predicate IsPick(picks: seq<nat>, n: nat) {
    (forall k :: 0 <= k < |picks| ==> picks[k] < n) && forall k, l :: 0 <= k < l < |picks| ==> picks[k] < picks[l]
  }

  function Pick(picks: seq<nat>, n: nat, take: bool): seq<nat> {
    if take then picks + [n] else picks
  }

  lemma PickNext(picks: seq<nat>, n: nat, take: bool)
    requires IsPick(picks, n)
    ensures IsPick(Pick(picks, n, take), n + 1)
    ensures forall i :: 0 <= i <= n ==> (i in Pick(picks, n, take) <==> if i == n then take else i in picks)
  {
  }
}
