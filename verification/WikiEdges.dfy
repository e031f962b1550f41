/** Which edges the graph of a wiki has: when there is one for every link, and a wiki that lacks one. */
module WikiEdges {
  import opened Options
  import opened NulKeys
  import opened Sorting
  import opened Relationships
  import opened WikiGraph
  import opened PageLinks

  /** Links between different pages have different joined keys. */
  ghost predicate LinksToldApart(pages: seq<Page>, paths: Paths) {
    forall p, q, u, v {:trigger Points(pages, p, q, paths), Points(pages, u, v, paths)} ::
      (&& 0 <= p < |pages| && 0 <= q < |pages| && 0 <= u < |pages| && 0 <= v < |pages|
       && Points(pages, p, q, paths) && Points(pages, u, v, paths)
       && MapKey(EdgeOf((p, q), pages)) == MapKey(EdgeOf((u, v), pages))) ==> p == u && q == v
  }

  lemma EdgeOfLink(pages: seq<Page>, paths: Paths, p: nat, q: nat)
    requires DistinctSlugs(pages) && p < |pages| && q < |pages| && Inside(AllArcs(pages, paths), |pages|)
    ensures EdgeOf((p, q), pages) in TrueEdges(AllArcs(pages, paths), pages) <==> LinksTo(pages, p, q, paths)
  {
    var arcs := AllArcs(pages, paths);
    ArcsAreExactlyLinks(pages, paths, p, q);
    if EdgeOf((p, q), pages) in TrueEdges(arcs, pages) {
      var a :| a in arcs && EdgeOf(a, pages) == EdgeOf((p, q), pages);
      assert a.0 == p && a.1 == q && a == (p, q);
    }
  }

  lemma LinkOfEdge(pages: seq<Page>, paths: Paths, e: Edge) returns (p: nat, q: nat)
    requires Inside(AllArcs(pages, paths), |pages|) && e in TrueEdges(AllArcs(pages, paths), pages)
    ensures p < |pages| && q < |pages| && LinksTo(pages, p, q, paths) && e == EdgeOf((p, q), pages)
  {
    var a :| a in AllArcs(pages, paths) && e == EdgeOf(a, pages);
    p, q := a.0, a.1;
    assert a == (p, q);
    ArcsAreExactlyLinks(pages, paths, p, q);
  }

  lemma ToldApartMeansKeys(pages: seq<Page>, paths: Paths)
    requires DistinctSlugs(pages) && Inside(AllArcs(pages, paths), |pages|)
    ensures LinksToldApart(pages, paths) <==> KeysTellApart(TrueEdges(AllArcs(pages, paths), pages))
  {
    var edges := TrueEdges(AllArcs(pages, paths), pages);
    if LinksToldApart(pages, paths) {
      forall a, b | a in edges && b in edges && MapKey(a) == MapKey(b) ensures a == b {
        var p, q := LinkOfEdge(pages, paths, a);
        var u, v := LinkOfEdge(pages, paths, b);
        PointsIsLinksTo(pages, p, q, paths);
        PointsIsLinksTo(pages, u, v, paths);
      }
    }
    if KeysTellApart(edges) {
      forall p: nat, q: nat, u: nat, v: nat |
        && p < |pages| && q < |pages| && u < |pages| && v < |pages|
        && Points(pages, p, q, paths) && Points(pages, u, v, paths)
        && MapKey(EdgeOf((p, q), pages)) == MapKey(EdgeOf((u, v), pages))
        ensures p == u && q == v
      {
        PointsIsLinksTo(pages, p, q, paths);
        PointsIsLinksTo(pages, u, v, paths);
        EdgeOfLink(pages, paths, p, q);
        EdgeOfLink(pages, paths, u, v);
        assert EdgeOf((p, q), pages) == EdgeOf((u, v), pages);
      }
    }
  }

  lemma MissingEdge(pages: seq<Page>, paths: Paths, edges: seq<Edge>)
    requires DistinctSlugs(pages) && Inside(AllArcs(pages, paths), |pages|)
    requires IsEdgeList(edges, EdgeMap(AllArcs(pages, paths), pages)) && !LinksToldApart(pages, paths)
    ensures exists p, q ::
      0 <= p < |pages| && 0 <= q < |pages| && Points(pages, p, q, paths)
        && Edge(pages[p].slug, pages[q].slug) !in edges
  {
    var arcs := AllArcs(pages, paths);
    ToldApartMeansKeys(pages, paths);
    EdgesAreComplete(arcs, pages);
    EdgeMapHolds(arcs, pages);
    assert EdgeMap(arcs, pages).Values <= TrueEdges(arcs, pages);
    var e :| e in TrueEdges(arcs, pages) && e !in EdgeMap(arcs, pages).Values;
    var p, q := LinkOfEdge(pages, paths, e);
    PointsIsLinksTo(pages, p, q, paths);
    assert e == Edge(pages[p].slug, pages[q].slug);
  }

  /** The graph of a wiki has an edge for every link that resolves if and only if links between
      different pages have different joined keys. */
  lemma GraphIsComplete(pages: seq<Page>, paths: Paths, edges: seq<Edge>)
    requires var c := Canonical(pages);
      Inside(AllArcs(c, paths), |c|) && IsEdgeList(edges, EdgeMap(AllArcs(c, paths), c))
    ensures var c := Canonical(pages);
      LinksToldApart(c, paths) <==>
        forall p, q :: 0 <= p < |c| && 0 <= q < |c| && Points(c, p, q, paths) ==> Edge(c[p].slug, c[q].slug) in edges
  {
    var c := Canonical(pages);
    var arcs := AllArcs(c, paths);
    FirstsAreDistinct(Sort(pages, By(PathKey)));
    if LinksToldApart(c, paths) {
      ToldApartMeansKeys(c, paths);
      EdgesAreComplete(arcs, c);
      forall p: nat, q: nat | p < |c| && q < |c| && Points(c, p, q, paths)
        ensures Edge(c[p].slug, c[q].slug) in edges
      {
        PointsIsLinksTo(c, p, q, paths);
        EdgeOfLink(c, paths, p, q);
        assert EdgeOf((p, q), c) in EdgeMap(arcs, c).Values;
      }
    } else {
      MissingEdge(c, paths, edges);
    }
  }

  /** One fact, seen three ways: a link of `p` leads to `q`, `p` is among the backlinks of `q`, and
      there is an edge. */
  lemma GraphMeaning(pages: seq<Page>, paths: Paths, edges: seq<Edge>, p: nat, q: nat)
    requires var c := Canonical(pages);
      && p < |c| && q < |c| && Inside(AllArcs(c, paths), |c|) && IsEdgeList(edges, EdgeMap(AllArcs(c, paths), c))
      && LinksToldApart(c, paths)
    ensures var c := Canonical(pages);
      var r := Resolved(c, paths);
      && (c[p].slug in r[q].backlinks <==> Points(c, p, q, paths))
      && (Edge(c[p].slug, c[q].slug) in edges <==> Points(c, p, q, paths))
  {
    var c := Canonical(pages);
    var arcs := AllArcs(c, paths);
    FirstsAreDistinct(Sort(pages, By(PathKey)));
    PointsIsLinksTo(c, p, q, paths);
    BacklinksAreLinks(c, paths, p, q);
    ToldApartMeansKeys(c, paths);
    EdgesAreComplete(arcs, c);
    EdgeOfLink(c, paths, p, q);
    assert EdgeOf((p, q), c) in EdgeMap(arcs, c).Values <==> EdgeOf((p, q), c) in TrueEdges(arcs, c);
  }

  /** Slugs without NUL characters are enough. */
  lemma NulFreeSlugsAreToldApart(pages: seq<Page>, paths: Paths)
    requires DistinctSlugs(pages) && Inside(AllArcs(pages, paths), |pages|)
    requires forall p :: 0 <= p < |pages| ==> NulFree(pages[p].slug)
    ensures LinksToldApart(pages, paths)
  {
    NulFreeSlugsTellApart(AllArcs(pages, paths), pages);
    ToldApartMeansKeys(pages, paths);
  }

  // ------------------------------------------------------------------ a wiki that lacks an edge

  /** Paths that need no arithmetic. */
  const PLAIN := Paths((path: string) => path, (source: string, target: string) => target)

  function Wiki(): seq<Page> {
    [Page("a", "1.md", "", "", [Link("2.md", "", false)], []),
     Page("b\0c", "2.md", "", "", [], []),
     Page("a\0b", "3.md", "", "", [Link("4.md", "", false)], []),
     Page("c", "4.md", "", "", [], [])]
  }

  lemma FirstCharDecides(x: string, y: string)
    requires x != "" && y != "" && x[0] < y[0]
    ensures !KeyLess([y], [x])
  {
  }

  lemma WikiIsSorted()
    ensures Sorted(Wiki(), By(PathKey))
  {
    var w := Wiki();
    assert w[0].path[0] == '1' && w[1].path[0] == '2' && w[2].path[0] == '3' && w[3].path[0] == '4';
    forall i, j | 0 <= i < j < |w| ensures !By(PathKey)(w[j], w[i]) {
      assert w[i].path[0] < w[j].path[0];
      FirstCharDecides(w[i].path, w[j].path);
      assert PathKey(w[i]) == [w[i].path] && PathKey(w[j]) == [w[j].path];
    }
  }

  lemma WikiIsDistinct()
    ensures DistinctSlugs(Wiki())
  {
    var w := Wiki();
    assert w[0].slug[0] == 'a' && w[1].slug[0] == 'b' && w[2].slug[0] == 'a' && w[3].slug[0] == 'c';
    assert |w[0].slug| == 1 && |w[2].slug| == 3;
  }

  lemma WikiIsCanonical()
    ensures DistinctSlugs(Wiki()) && Canonical(Wiki()) == Wiki()
  {
    WikiIsSorted();
    WikiIsDistinct();
    SortedStays(Wiki(), By(PathKey));
    DistinctStay(Wiki());
    assert Cleared(Wiki()) == Wiki();
  }

  /** With all paths different, a page is found by its own. */
  lemma {:induction false} FoundByPath(pages: seq<Page>, i: nat)
    requires i < |pages| && forall k :: i < k < |pages| ==> pages[k].path != pages[i].path
    ensures pages[i].path in ByPath(pages, PLAIN) && ByPath(pages, PLAIN)[pages[i].path] == i
  {
    if i < |pages| - 1 { FoundByPath(pages[..|pages| - 1], i); }
  }

  lemma PathLink(pages: seq<Page>, p: nat, q: nat)
    requires p < |pages| && q < |pages| && |pages[p].links| == 1
    requires pages[p].links[0].raw == pages[q].path && IsMarkdown(pages[q].path)
    requires forall k :: 0 <= k < |pages| ==> pages[k].slug != pages[q].path
    requires forall k :: q < k < |pages| ==> pages[k].path != pages[q].path
    ensures TargetOf(pages, p, 0, PLAIN) == Some(q)
  {
    BySlugKnows(pages, pages[q].path);
    FoundByPath(pages, q);
  }

  lemma WikiTargets()
    ensures TargetOf(Wiki(), 0, 0, PLAIN) == Some(1) && TargetOf(Wiki(), 2, 0, PLAIN) == Some(3)
  {
    var w := Wiki();
    assert forall k :: 0 <= k < 4 ==> w[k].slug[0] != '2' && w[k].slug[0] != '4';
    assert w[1].path[0] == '2' && w[2].path[0] == '3' && w[3].path[0] == '4';
    PathLink(w, 0, 1);
    PathLink(w, 2, 3);
  }

  lemma WikiLinks()
    ensures LinksTo(Wiki(), 0, 1, PLAIN) && LinksTo(Wiki(), 2, 3, PLAIN)
    ensures forall p, q :: 0 <= p < 4 && LinksTo(Wiki(), p, q, PLAIN) ==> (p == 0 && q == 1) || (p == 2 && q == 3)
  {
    WikiTargets();
    forall p: nat, q: nat | p < 4 && LinksTo(Wiki(), p, q, PLAIN) ensures (p == 0 && q == 1) || (p == 2 && q == 3) {
      var k :| 0 <= k < |Wiki()[p].links| && TargetOf(Wiki(), p, k, PLAIN) == Some(q);
      assert k == 0 && (p == 0 || p == 2);
    }
  }

  lemma WikiLinksTo()
    ensures LinksTo(Wiki(), 0, 1, PLAIN) && LinksTo(Wiki(), 2, 3, PLAIN)
    ensures MapKey(EdgeOf((0, 1), Wiki())) == MapKey(EdgeOf((2, 3), Wiki()))
  {
    WikiLinks();
    JoinConfusesNul();
  }

  lemma EdgeKeyOfWiki(e: Edge)
    requires Inside(AllArcs(Wiki(), PLAIN), 4) && e in TrueEdges(AllArcs(Wiki(), PLAIN), Wiki())
    ensures MapKey(e) == MapKey(EdgeOf((0, 1), Wiki()))
  {
    var p, q := LinkOfEdge(Wiki(), PLAIN, e);
    WikiLinks();
    WikiLinksTo();
    assert (p == 0 && q == 1) || (p == 2 && q == 3);
  }

  /** Every entry of the map is under the one joined key. */
  lemma WikiHasOneKey()
    ensures Inside(AllArcs(Wiki(), PLAIN), 4)
    ensures EdgeMap(AllArcs(Wiki(), PLAIN), Wiki()).Keys == {MapKey(EdgeOf((0, 1), Wiki()))}
  {
    var w, arcs := Wiki(), AllArcs(Wiki(), PLAIN);
    ArcsAreExactlyLinks(w, PLAIN, 0, 1);
    WikiLinksTo();
    EdgeMapHolds(arcs, w);
    assert EdgeOf((0, 1), w) in TrueEdges(arcs, w);
    forall k | k in EdgeMap(arcs, w) ensures k == MapKey(EdgeOf((0, 1), w)) { EdgeKeyOfWiki(EdgeMap(arcs, w)[k]); }
  }

  /** Two links resolve and are backlinks, and the graph has one edge. */
  lemma WikiLacksAnEdge(edges: seq<Edge>)
    requires var c := Canonical(Wiki());
      Inside(AllArcs(c, PLAIN), |c|) && IsEdgeList(edges, EdgeMap(AllArcs(c, PLAIN), c))
    ensures var r := Resolved(Canonical(Wiki()), PLAIN);
      |r| == 4 && "a" in r[1].backlinks && "a\0b" in r[3].backlinks && |edges| == 1
  {
    var w := Wiki();
    WikiIsCanonical();
    WikiLinksTo();
    BacklinksAreLinks(w, PLAIN, 0, 1);
    BacklinksAreLinks(w, PLAIN, 2, 3);
    WikiHasOneKey();
    OneEdge(edges, EdgeMap(AllArcs(w, PLAIN), w), MapKey(EdgeOf((0, 1), w)));
  }

  lemma OneEdge(edges: seq<Edge>, m: map<string, Edge>, k: string)
    requires IsEdgeList(edges, m) && m.Keys == {k}
    ensures |edges| == 1
  {
    assert m[k] in m.Values && m[k] in edges;
    forall i | 0 <= i < |edges| ensures edges[i] == m[k] {
      assert edges[i] in edges;
      var other :| other in m && m[other] == edges[i];
    }
    ByIsAnOrder(EdgeKey);
    IncreasingIsUnique(edges, [m[k]], By(EdgeKey));
  }
}
