/**
  Item search: candidates are ranked as they arrive, and the list is sorted and cut whenever it
  grows beyond a bound, so that memory stays bounded while nothing that matters is lost.
 */
module TopKSearch {
  import opened Strings
  import opened Collections
  import opened Sorting

  const MAX_QUERY: nat := 200
  const MAX_CANDIDATES: nat := 1000

  datatype Item = Item(id: string, identifier: string, title: string)

  datatype SearchResult = SearchResult(id: string, title: string, score: int)

  datatype Query = Query(text: string, wantsItems: bool, limit: int)

  datatype Outcome = Found(results: seq<SearchResult>) | TooLong

  // ------------------------------------------------------------------ the order of results

  predicate Less(a: SearchResult, b: SearchResult, lower: char -> char) {
    if a.score != b.score then a.score > b.score else StringLess(Lower(a.title, lower), Lower(b.title, lower))
  }

  function Better(lower: char -> char): (SearchResult, SearchResult) -> bool {
    (a, b) => Less(a, b, lower)
  }

  /** The order of results is a strict weak one. */
  lemma BetterIsAnOrder(lower: char -> char)
    ensures WeakOrder(Better(lower))
  {
    forall a, b, c ensures OrderedTriple(Better(lower), a, b, c) {
      var x, y, z := Lower(a.title, lower), Lower(b.title, lower), Lower(c.title, lower);
      StringOrder(x, y, z);
      StringOrder(z, x, y);
      StringOrder(x, z, y);
      StringOrder(z, y, x);
    }
  }

  // ------------------------------------------------------------------ the search

  function FirstNonEmpty(a: string, b: string): string {
    if !IsBlank(a) then a else if !IsBlank(b) then b else ""
  }

  function ResultOf(item: Item, score: int): SearchResult {
    SearchResult(item.id, FirstNonEmpty(item.title, item.identifier), score)
  }

  /** Every item with a score, in the order in which the items come. */
  function Candidates(items: seq<Item>, text: string, rank: (Item, string) -> int): seq<SearchResult> {
    if items == [] then []
    else
      var last := items[|items| - 1];
      var score := rank(last, text);
      Candidates(items[..|items| - 1], text, rank) + if score == 0 then [] else [ResultOf(last, score)]
  }

  function Limit(limit: int): nat {
    if limit <= 0 then 20 else if limit > 100 then 100 else limit
  }

  /** The bounded list is the front of the whole list, sorted or on its way to be. */
  ghost predicate Tracks(results: seq<SearchResult>, all: seq<SearchResult>, lower: char -> char) {
    && |results| == (if |all| <= MAX_CANDIDATES then |all| else MAX_CANDIDATES)
    && Sort(results, Better(lower)) == Take(Sort(all, Better(lower)), MAX_CANDIDATES)
  }

  lemma TracksOneMore(results: seq<SearchResult>, all: seq<SearchResult>, x: SearchResult, lower: char -> char)
    requires Tracks(results, all, lower)
    ensures Take(Sort(results + [x], Better(lower)), MAX_CANDIDATES)
      == Take(Sort(all + [x], Better(lower)), MAX_CANDIDATES)
  {
    assert (results + [x])[..|results|] == results && (all + [x])[..|all|] == all;
    BetterIsAnOrder(lower);
    SortSorts(all, Better(lower));
    CutBeforeInsert(Sort(all, Better(lower)), x, MAX_CANDIDATES, Better(lower));
  }

  lemma CutIsSorted(s: seq<SearchResult>, k: nat, lower: char -> char)
    requires k <= |s|
    ensures Sort(Sort(s, Better(lower))[..k], Better(lower)) == Sort(s, Better(lower))[..k]
  {
    BetterIsAnOrder(lower);
    SortSorts(s, Better(lower));
    SortedStays(Sort(s, Better(lower))[..k], Better(lower));
  }

  /** `consider`. */
  method Consider(
    results: seq<SearchResult>, ghost all: seq<SearchResult>, item: Item, text: string, rank: (Item, string) -> int,
    lower: char -> char)
    returns (next: seq<SearchResult>)
    requires Tracks(results, all, lower)
    ensures var score := rank(item, text);
      Tracks(next, if score == 0 then all else all + [ResultOf(item, score)], lower)
  {
    next := results;
    var score := rank(item, text);
    if score == 0 { return; }
    TracksOneMore(results, all, ResultOf(item, score), lower);
    next := results + [ResultOf(item, score)];
    if |next| > MAX_CANDIDATES {
      CutIsSorted(next, MAX_CANDIDATES, lower);
      next := Sort(next, Better(lower));
      next := next[..MAX_CANDIDATES];
    }
  }

  method Gather(items: seq<Item>, text: string, rank: (Item, string) -> int, lower: char -> char)
    returns (results: seq<SearchResult>)
    ensures Tracks(results, Candidates(items, text, rank), lower)
  {
    results := [];
    var i := 0;
    while i < |items|
      invariant 0 <= i <= |items|
      invariant Tracks(results, Candidates(items[..i], text, rank), lower)
    {
      assert items[..i + 1][..i] == items[..i];
      ghost var all := Candidates(items[..i], text, rank);
      assert all + [] == all;
      results := Consider(results, all, items[i], text, rank, lower);
      i := i + 1;
    }
    assert items[..i] == items;
  }

  // ------------------------------------------------------------------ what a search finds

  /** A result says which item it is, by its title or else its identifier, and how well it matches. */
  predicate IsResult(item: Item, text: string, rank: (Item, string) -> int, r: SearchResult) {
    && r.id == item.id && r.score == rank(item, text) && r.score != 0
    && (if !IsBlank(item.title) then r.title == item.title
        else if !IsBlank(item.identifier) then r.title == item.identifier
        else r.title == "")
  }

  /** The better match first, then by title whatever its case, then as the items come. */
  predicate RanksBefore(a: SearchResult, i: nat, b: SearchResult, j: nat, lower: char -> char) {
    || a.score > b.score
    || (a.score == b.score && StringLess(Lower(a.title, lower), Lower(b.title, lower)))
    || (a.score == b.score && Lower(a.title, lower) == Lower(b.title, lower) && i < j)
  }

  /** No item that matches is missing, unless there are as many results as asked for and all rank
      before it. */
  ghost predicate IsBeaten(
    results: seq<SearchResult>, picks: seq<nat>, item: Item, i: nat, text: string, rank: (Item, string) -> int,
    lower: char -> char)
    requires |picks| == |results|
  {
    forall r :: IsResult(item, text, rank, r) ==>
      forall k :: 0 <= k < |results| ==> RanksBefore(results[k], picks[k], r, i, lower)
  }

  ghost predicate BestOf(
    items: seq<Item>, text: string, rank: (Item, string) -> int, lower: char -> char, n: nat,
    results: seq<SearchResult>, picks: seq<nat>)
  {
    && |picks| == |results| <= n
    && (forall k :: 0 <= k < |results| ==> picks[k] < |items| && IsResult(items[picks[k]], text, rank, results[k]))
    && (forall k, l :: 0 <= k < l < |results| ==> RanksBefore(results[k], picks[k], results[l], picks[l], lower))
    && forall i :: 0 <= i < |items| && i !in picks && rank(items[i], text) != 0 ==>
         |results| == n && IsBeaten(results, picks, items[i], i, text, rank, lower)
  }

  /** A search that asks for no number gets 20 results, and none gets more than 100. */
  predicate IsLimit(asked: int, n: nat) {
    n == if asked <= 0 then 20 else if asked <= 100 then asked else 100
  }

  ghost predicate IsFound(
    items: seq<Item>, text: string, rank: (Item, string) -> int, lower: char -> char, asked: int,
    results: seq<SearchResult>)
  {
    exists n: nat, picks: seq<nat> :: IsLimit(asked, n) && BestOf(items, text, rank, lower, n, results, picks)
  }

  predicate CandidatesOf(
    items: seq<Item>, n: nat, text: string, rank: (Item, string) -> int, all: seq<SearchResult>, picks: seq<nat>)
    requires n <= |items|
  {
    && IsPick(picks, n) && |picks| == |all|
    && (forall k :: 0 <= k < |all| ==> IsResult(items[picks[k]], text, rank, all[k]))
    && forall i :: 0 <= i < n ==> (i in picks <==> rank(items[i], text) != 0)
  }

  lemma {:induction false} CandidatesPicked(items: seq<Item>, n: nat, text: string, rank: (Item, string) -> int)
    returns (picks: seq<nat>)
    requires n <= |items|
    ensures CandidatesOf(items, n, text, rank, Candidates(items[..n], text, rank), picks)
  {
    picks := [];
    if n > 0 {
      picks := CandidatesPicked(items, n - 1, text, rank);
      assert items[..n][..n - 1] == items[..n - 1];
      var score := rank(items[n - 1], text);
      assert score != 0 ==> IsResult(items[n - 1], text, rank, ResultOf(items[n - 1], score));
      PickNext(picks, n - 1, score != 0);
      picks := Pick(picks, n - 1, score != 0);
    }
  }

  /** Every candidate once, in the order of the ranking. */
  ghost predicate Ranked(
    items: seq<Item>, text: string, rank: (Item, string) -> int, lower: char -> char, all: seq<SearchResult>,
    picks: seq<nat>)
  {
    && |picks| == |all|
    && (forall k :: 0 <= k < |all| ==> picks[k] < |items| && IsResult(items[picks[k]], text, rank, all[k]))
    && (forall k, l :: 0 <= k < l < |all| ==> RanksBefore(all[k], picks[k], all[l], picks[l], lower))
    && forall i :: 0 <= i < |items| && rank(items[i], text) != 0 ==> i in picks
  }

  lemma RanksInOrder(a: SearchResult, i: nat, b: SearchResult, j: nat, lower: char -> char)
    requires !Better(lower)(b, a) && (!Better(lower)(a, b) ==> i < j)
    ensures RanksBefore(a, i, b, j, lower)
  {
    var x, y := Lower(a.title, lower), Lower(b.title, lower);
    StringOrder(x, y, x);
  }

  lemma Composed(picks: seq<nat>, origins: seq<nat>, ranks: seq<nat>, i: nat)
    requires |ranks| == |origins| && i in picks && Reaches(origins, |picks|)
    requires forall k :: 0 <= k < |ranks| ==> origins[k] < |picks| && ranks[k] == picks[origins[k]]
    ensures i in ranks
  {
    var c :| 0 <= c < |picks| && picks[c] == i;
    assert c in origins;
    var k :| 0 <= k < |origins| && origins[k] == c;
    assert ranks[k] == i;
  }

  lemma RankedFrom(
    items: seq<Item>, text: string, rank: (Item, string) -> int, lower: char -> char, all: seq<SearchResult>,
    picks: seq<nat>, sorted: seq<SearchResult>, origins: seq<nat>)
    returns (ranks: seq<nat>)
    requires CandidatesOf(items, |items|, text, rank, all, picks)
    requires Origins(all, sorted, origins, Better(lower)) && Sorted(sorted, Better(lower))
    requires Reaches(origins, |all|)
    ensures Ranked(items, text, rank, lower, sorted, ranks)
  {
    ranks := seq(|sorted|, k requires 0 <= k < |sorted| => picks[origins[k]]);
    forall k, l | 0 <= k < l < |sorted| ensures RanksBefore(sorted[k], ranks[k], sorted[l], ranks[l], lower) {
      RanksInOrder(sorted[k], ranks[k], sorted[l], ranks[l], lower);
    }
    forall i | 0 <= i < |items| && rank(items[i], text) != 0 ensures i in ranks {
      Composed(picks, origins, ranks, i);
    }
  }

  lemma AllRanked(items: seq<Item>, text: string, rank: (Item, string) -> int, lower: char -> char)
    returns (ranks: seq<nat>)
    ensures Ranked(items, text, rank, lower, Sort(Candidates(items, text, rank), Better(lower)), ranks)
  {
    var all := Candidates(items, text, rank);
    assert items[..|items|] == items;
    var picks := CandidatesPicked(items, |items|, text, rank);
    var origins := SortOrigins(all, Better(lower));
    BetterIsAnOrder(lower);
    SortSorts(all, Better(lower));
    ranks := RankedFrom(items, text, rank, lower, all, picks, Sort(all, Better(lower)), origins);
  }

  lemma OneResult(item: Item, text: string, rank: (Item, string) -> int, a: SearchResult, b: SearchResult)
    requires IsResult(item, text, rank, a) && IsResult(item, text, rank, b)
    ensures a == b
  {
  }

  lemma BestAreFirst(
    items: seq<Item>, text: string, rank: (Item, string) -> int, lower: char -> char, all: seq<SearchResult>,
    ranks: seq<nat>, n: nat)
    requires Ranked(items, text, rank, lower, all, ranks)
    ensures BestOf(items, text, rank, lower, n, Take(all, n), Take(ranks, n))
  {
    var results, picks := Take(all, n), Take(ranks, n);
    forall i | 0 <= i < |items| && i !in picks && rank(items[i], text) != 0
      ensures |results| == n && IsBeaten(results, picks, items[i], i, text, rank, lower)
    {
      assert i in ranks;
      var l :| 0 <= l < |ranks| && ranks[l] == i;
      assert forall k :: 0 <= k < |picks| ==> picks[k] == ranks[k];
      forall r | IsResult(items[i], text, rank, r)
        ensures forall k :: 0 <= k < |results| ==> RanksBefore(results[k], picks[k], r, i, lower)
      {
        OneResult(items[i], text, rank, r, all[l]);
      }
    }
  }

  lemma SearchFinds(items: seq<Item>, text: string, rank: (Item, string) -> int, lower: char -> char, asked: int)
    ensures IsFound(items, text, rank, lower, asked,
                    Take(Sort(Candidates(items, text, rank), Better(lower)), Limit(asked)))
  {
    var ranks := AllRanked(items, text, rank, lower);
    BestAreFirst(items, text, rank, lower, Sort(Candidates(items, text, rank), Better(lower)), ranks, Limit(asked));
    assert IsLimit(asked, Limit(asked));
  }

  ghost predicate IsAnswer(
    query: Query, items: seq<Item>, rank: (Item, string) -> int, lower: char -> char, outcome: Outcome)
  {
    var text := Lower(Trim(query.text), lower);
    if text == "" || !query.wantsItems then outcome == Found([])
    else if |text| > 200 then outcome == TooLong
    else outcome.Found? && IsFound(items, text, rank, lower, query.limit, outcome.results)
  }

  function FrontOfAll(query: Query, items: seq<Item>, rank: (Item, string) -> int, lower: char -> char): Outcome {
    var text := Lower(Trim(query.text), lower);
    if text == "" || !query.wantsItems then Found([])
    else if |text| > MAX_QUERY then TooLong
    else Found(Take(Sort(Candidates(items, text, rank), Better(lower)), Limit(query.limit)))
  }

  lemma FrontIsAnswer(query: Query, items: seq<Item>, rank: (Item, string) -> int, lower: char -> char)
    ensures IsAnswer(query, items, rank, lower, FrontOfAll(query, items, rank, lower))
  {
    SearchFinds(items, Lower(Trim(query.text), lower), rank, lower, query.limit);
  }

  /** The first results of one stable sort of everything that scores, however many items there are. */
  method Search(query: Query, items: seq<Item>, rank: (Item, string) -> int, lower: char -> char)
    returns (outcome: Outcome)
    ensures outcome == FrontOfAll(query, items, rank, lower)
    ensures IsAnswer(query, items, rank, lower, outcome)
  {
    FrontIsAnswer(query, items, rank, lower);
    var text := Lower(Trim(query.text), lower);
    if text == "" || !query.wantsItems { return Found([]); }
    if |text| > MAX_QUERY { return TooLong; }
    var results := Gather(items, text, rank, lower);
    results := Sort(results, Better(lower));
    var limit := Limit(query.limit);
    if |results| > limit { results := results[..limit]; }
    outcome := Found(results);
  }
}
