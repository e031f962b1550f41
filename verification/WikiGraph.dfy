/** The loops that resolve a wiki and cut its graph to size, against what resolution is to give. */
module WikiGraph {
  import opened Collections
  import opened Options
  import opened Sorting
  import opened Relationships
  import opened PageLinks

  const MAX_GRAPH_NODES: nat := 2000
  const MAX_GRAPH_EDGES: nat := 10000

  // ------------------------------------------------------------------ indexes

  /** A slug has an index exactly when a page has it. */
  lemma {:induction false} BySlugKnows(pages: seq<Page>, slug: string)
    ensures slug in BySlug(pages) <==> slug in Slugs(pages)
  {
    if pages != [] {
      var rest, last := pages[..|pages| - 1], pages[|pages| - 1];
      BySlugKnows(rest, slug);
      SlugsOfSum(rest, last);
      assert pages == rest + [last];
    }
  }

  method KeepFirsts(pages: seq<Page>) returns (canonical: seq<Page>, bySlug: map<string, nat>)
    ensures canonical == FirstOfEach(pages) && bySlug == BySlug(canonical)
  {
    canonical, bySlug := [], map[];
    var i := 0;
    while i < |pages|
      invariant 0 <= i <= |pages|
      invariant canonical == FirstOfEach(pages[..i]) && bySlug == BySlug(canonical)
    {
      LastTaken(pages, i);
      var page := pages[i].(backlinks := []);
      BySlugKnows(canonical, page.slug);
      if page.slug !in bySlug {
        bySlug := bySlug[page.slug := |canonical|];
        assert (canonical + [page])[..|canonical|] == canonical;
        canonical := canonical + [page];
      }
      i := i + 1;
    }
    assert pages[..i] == pages;
  }

  method IndexPaths(pages: seq<Page>, paths: Paths) returns (byPath: map<string, nat>)
    ensures byPath == ByPath(pages, paths)
  {
    byPath := map[];
    var i := 0;
    while i < |pages|
      invariant 0 <= i <= |pages|
      invariant byPath == ByPath(pages[..i], paths)
    {
      LastTaken(pages, i);
      byPath := byPath[paths.normal(pages[i].path) := i];
      i := i + 1;
    }
    assert pages[..i] == pages;
  }

  // ------------------------------------------------------------------ following the links

  /** Page `p` when the links before the `k`-th one of page `i` have been followed. */
  function PageAt(pages: seq<Page>, p: nat, i: nat, k: nat, paths: Paths): Page
    requires p < |pages| && i <= |pages| && (k > 0 ==> i < |pages| && k <= |pages[i].links|)
  {
    ArcsAreLinks(pages, i, k, paths);
    pages[p].(links := LinksAt(pages, p, if p < i then |pages[p].links| else if p == i then k else 0, paths),
              backlinks := Sources(Arcs(pages, i, k, paths), pages, p))
  }

  ghost predicate Following(pages: seq<Page>, now: seq<Page>, edges: map<string, Edge>, i: nat, k: nat, paths: Paths)
    requires i <= |pages| && (k > 0 ==> i < |pages| && k <= |pages[i].links|)
  {
    && |now| == |pages| && (forall p :: 0 <= p < |pages| ==> now[p] == PageAt(pages, p, i, k, paths))
    && Inside(Arcs(pages, i, k, paths), |pages|) && edges == EdgeMap(Arcs(pages, i, k, paths), pages)
  }

  lemma SourcesOneMore(arcs: seq<Arc>, arc: Arc, pages: seq<Page>, q: nat)
    requires Inside(arcs + [arc], |pages|)
    ensures Inside(arcs, |pages|)
    ensures Sources(arcs + [arc], pages, q) == Sources(arcs, pages, q) + if arc.1 == q then [pages[arc.0].slug] else []
    ensures EdgeMap(arcs + [arc], pages) == EdgeMap(arcs, pages)[MapKey(EdgeOf(arc, pages)) := EdgeOf(arc, pages)]
  {
    assert (arcs + [arc])[..|arcs|] == arcs;
    assert forall a :: a in arcs ==> a in arcs + [arc];
  }

  /** One more arc, if the link leads anywhere. */
  lemma ArcsOneMore(pages: seq<Page>, i: nat, k: nat, paths: Paths, p: nat)
    requires i < |pages| && k < |pages[i].links|
    ensures Inside(Arcs(pages, i, k, paths), |pages|) && Inside(Arcs(pages, i, k + 1, paths), |pages|)
    ensures var before, after, t := Arcs(pages, i, k, paths), Arcs(pages, i, k + 1, paths),
      TargetOf(pages, i, k, paths);
      && Sources(after, pages, p) == Sources(before, pages, p) + (if t == Some(p) then [pages[i].slug] else [])
      && EdgeMap(after, pages) == var m := EdgeMap(before, pages);
        if t.Some? then m[MapKey(EdgeOf((i, t.value), pages)) := EdgeOf((i, t.value), pages)] else m
  {
    ArcsAreLinks(pages, i, k, paths);
    ArcsAreLinks(pages, i, k + 1, paths);
    var t := TargetOf(pages, i, k, paths);
    if t.Some? {
      SourcesOneMore(Arcs(pages, i, k, paths), (i, t.value), pages, p);
    } else {
      assert Arcs(pages, i, k, paths) + [] == Arcs(pages, i, k, paths);
    }
  }

  lemma LinksOneMore(pages: seq<Page>, i: nat, k: nat, paths: Paths)
    requires i < |pages| && k < |pages[i].links|
    ensures LinksAt(pages, i, k + 1, paths)
      == LinksAt(pages, i, k, paths)[k := Followed(pages[i].links[k], TargetOf(pages, i, k, paths), pages)]
  {
  }

  lemma PageAtOneMore(pages: seq<Page>, p: nat, i: nat, k: nat, paths: Paths)
    requires p < |pages| && i < |pages| && k < |pages[i].links|
    ensures var before, after, t := PageAt(pages, p, i, k, paths), PageAt(pages, p, i, k + 1, paths),
      TargetOf(pages, i, k, paths);
      && after.links == (if p == i then before.links[k := Followed(pages[i].links[k], t, pages)] else before.links)
      && after.backlinks == before.backlinks + (if t == Some(p) then [pages[i].slug] else [])
  {
    ArcsOneMore(pages, i, k, paths, p);
    if p == i { LinksOneMore(pages, i, k, paths); }
  }

  /** A link that leads nowhere changes nothing. One that leads to page `q` is marked with its slug,
      `q` gets a backlink, and there is an edge. */
  ghost predicate LinkDone(
    pages: seq<Page>, now: seq<Page>, next: seq<Page>, edges: map<string, Edge>, more: map<string, Edge>,
    i: nat, k: nat, paths: Paths)
    requires i < |pages| == |now| == |next| && k < |pages[i].links| && k < |now[i].links|
  {
    var source, raw := pages[i], pages[i].links[k].raw;
    && (LeadsNowhere(pages, source.path, raw, paths) ==> next == now && more == edges)
    && forall q :: 0 <= q < |pages| && LeadsTo(pages, source.path, raw, q, paths) ==>
      && more == edges[source.slug + "\0" + pages[q].slug := Edge(source.slug, pages[q].slug)]
      && |next[i].links| == |now[i].links| && next[i].links[k] == Link(raw, pages[q].slug, true)
      && (forall l :: 0 <= l < |now[i].links| && l != k ==> next[i].links[l] == now[i].links[l])
      && next[q].backlinks == now[q].backlinks + [source.slug]
      && forall p :: 0 <= p < |now| ==>
        && next[p] == now[p].(links := next[p].links, backlinks := next[p].backlinks)
        && (p != i ==> next[p].links == now[p].links) && (p != q ==> next[p].backlinks == now[p].backlinks)
  }

  lemma SomewhereOrNowhere(pages: seq<Page>, i: nat, k: nat, paths: Paths)
    requires DistinctSlugs(pages) && i < |pages| && k < |pages[i].links|
    ensures var raw, t := pages[i].links[k].raw, TargetOf(pages, i, k, paths);
      && (LeadsNowhere(pages, pages[i].path, raw, paths) <==> t == None)
      && forall q :: 0 <= q < |pages| && LeadsTo(pages, pages[i].path, raw, q, paths) ==> t == Some(q)
  {
    var t := TargetOf(pages, i, k, paths);
    if t.Some? { LinkLeads(pages, i, k, t.value, paths); }
    forall q | 0 <= q < |pages| && LeadsTo(pages, pages[i].path, pages[i].links[k].raw, q, paths)
      ensures t == Some(q)
    {
      LinkLeads(pages, i, k, q, paths);
    }
  }

  /** What one link changes in page `p`, in terms of its target. */
  predicate PageStep(pages: seq<Page>, before: Page, after: Page, p: nat, i: nat, k: nat, paths: Paths)
    requires i < |pages| && k < |pages[i].links| && (p == i ==> k < |before.links|)
  {
    var t := TargetOf(pages, i, k, paths);
    && after == before.(links := after.links, backlinks := after.backlinks)
    && after.links == (if p == i then before.links[k := Followed(pages[i].links[k], t, pages)] else before.links)
    && after.backlinks == before.backlinks + if t == Some(p) then [pages[i].slug] else []
  }

  lemma LinkIsDone(
    pages: seq<Page>, now: seq<Page>, next: seq<Page>, edges: map<string, Edge>, more: map<string, Edge>,
    i: nat, k: nat, paths: Paths)
    requires DistinctSlugs(pages) && i < |pages| && k < |pages[i].links|
    requires Following(pages, now, edges, i, k, paths) && Following(pages, next, more, i, k + 1, paths)
    ensures |now[i].links| == |pages[i].links| && LinkDone(pages, now, next, edges, more, i, k, paths)
  {
    SomewhereOrNowhere(pages, i, k, paths);
    ArcsOneMore(pages, i, k, paths, 0);
    assert now[i] == PageAt(pages, i, i, k, paths);
    forall p | 0 <= p < |now| ensures PageStep(pages, now[p], next[p], p, i, k, paths) {
      PageAtOneMore(pages, p, i, k, paths);
      assert now[p] == PageAt(pages, p, i, k, paths) && next[p] == PageAt(pages, p, i, k + 1, paths);
    }
    if TargetOf(pages, i, k, paths) == None {
      assert now[i].links[k := pages[i].links[k]] == now[i].links;
      assert forall p :: 0 <= p < |now| ==> next[p] == now[p];
    }
  }

  /** One link: it is marked, its target gets a backlink, and the edge is recorded. */
  method FollowLink(
    ghost pages: seq<Page>, now: seq<Page>, edges: map<string, Edge>, i: nat, k: nat, bySlug: map<string, nat>,
    byPath: map<string, nat>, paths: Paths)
    returns (next: seq<Page>, more: map<string, Edge>)
    requires i < |pages| && k < |pages[i].links| && Following(pages, now, edges, i, k, paths)
    requires DistinctSlugs(pages) && bySlug == BySlug(pages) && byPath == ByPath(pages, paths)
    ensures Following(pages, next, more, i, k + 1, paths)
    ensures |next| == |now| == |pages| && |now[i].links| == |pages[i].links|
    ensures LinkDone(pages, now, next, edges, more, i, k, paths)
  {
    next, more := now, edges;
    ghost var t := TargetOf(pages, i, k, paths);
    assert now[i] == PageAt(pages, i, i, k, paths) && now[i].links[k] == pages[i].links[k];
    var target := ResolveTarget(now[i].links[k].raw, now[i].path, bySlug, byPath, paths);
    assert target == t;
    if target.Some? {
      var j := target.value;
      assert now[j] == PageAt(pages, j, i, k, paths);
      var link := now[i].links[k].(target := now[j].slug, resolved := true);
      next := next[i := next[i].(links := next[i].links[k := link])];
      next := next[j := next[j].(backlinks := next[j].backlinks + [now[i].slug])];
      var e := Edge(now[i].slug, now[j].slug);
      more := more[MapKey(e) := e];
    }
    ArcsOneMore(pages, i, k, paths, 0);
    forall p | 0 <= p < |pages| ensures next[p] == PageAt(pages, p, i, k + 1, paths) {
      PageAtOneMore(pages, p, i, k, paths);
      assert now[p] == PageAt(pages, p, i, k, paths);
      assert next[p].links == PageAt(pages, p, i, k + 1, paths).links;
      assert next[p].backlinks == PageAt(pages, p, i, k + 1, paths).backlinks;
    }
    LinkIsDone(pages, now, next, edges, more, i, k, paths);
  }

  lemma NextPage(pages: seq<Page>, now: seq<Page>, edges: map<string, Edge>, i: nat, paths: Paths)
    requires i < |pages| && Following(pages, now, edges, i, |pages[i].links|, paths)
    ensures Following(pages, now, edges, i + 1, 0, paths)
  {
    forall p | 0 <= p < |pages|
      ensures PageAt(pages, p, i + 1, 0, paths) == PageAt(pages, p, i, |pages[i].links|, paths)
    {
      assert PageAt(pages, p, i + 1, 0, paths).links == PageAt(pages, p, i, |pages[i].links|, paths).links;
    }
  }

  lemma FirstPage(pages: seq<Page>, paths: Paths)
    requires pages == Cleared(pages)
    ensures Following(pages, pages, map[], 0, 0, paths)
  {
    forall p | 0 <= p < |pages| ensures pages[p] == PageAt(pages, p, 0, 0, paths) {
      assert pages[p].links == LinksAt(pages, p, 0, paths);
      assert pages[p] == Cleared(pages)[p];
    }
  }

  method FollowAll(pages: seq<Page>, bySlug: map<string, nat>, byPath: map<string, nat>, paths: Paths)
    returns (now: seq<Page>, edges: map<string, Edge>)
    requires DistinctSlugs(pages) && pages == Cleared(pages)
    requires bySlug == BySlug(pages) && byPath == ByPath(pages, paths)
    ensures Following(pages, now, edges, |pages|, 0, paths)
  {
    now, edges := pages, map[];
    FirstPage(pages, paths);
    var i := 0;
    while i < |pages|
      invariant 0 <= i <= |pages| && Following(pages, now, edges, i, 0, paths)
    {
      var k := 0;
      while k < |pages[i].links|
        invariant 0 <= k <= |pages[i].links| && Following(pages, now, edges, i, k, paths)
      {
        now, edges := FollowLink(pages, now, edges, i, k, bySlug, byPath, paths);
        k := k + 1;
      }
      NextPage(pages, now, edges, i, paths);
      i := i + 1;
    }
  }

  // ------------------------------------------------------------------ backlinks and edges

  method UniqueSorted(values: seq<string>) returns (result: seq<string>)
    ensures result == UniqueStrings(values)
  {
    var seen: set<string> := {};
    result := [];
    var i := 0;
    while i < |values|
      invariant 0 <= i <= |values|
      invariant result == Dedupe(values[..i]) && forall x :: x in seen <==> x in result
    {
      LastTaken(values, i);
      if values[i] !in seen {
        seen := seen + {values[i]};
        result := result + [values[i]];
      }
      i := i + 1;
    }
    assert values[..i] == values;
    result := Sort(result, By(StringKey));
  }

  method SortBacklinks(pages: seq<Page>, now: seq<Page>, ghost edges: map<string, Edge>, paths: Paths)
    returns (result: seq<Page>)
    requires Following(pages, now, edges, |pages|, 0, paths)
    ensures result == Resolved(pages, paths)
  {
    result := now;
    var i := 0;
    while i < |now|
      invariant 0 <= i <= |now| == |result|
      invariant forall p :: 0 <= p < i ==> result[p] == Resolved(pages, paths)[p]
      invariant forall p :: i <= p < |now| ==> result[p] == now[p]
    {
      var backlinks := UniqueSorted(result[i].backlinks);
      assert now[i] == PageAt(pages, i, |pages|, 0, paths);
      result := result[i := result[i].(backlinks := backlinks)];
      i := i + 1;
    }
  }

  /** The order in which a map gives its values is not known; sorting makes up for it. */
  method CollectEdges(m: map<string, Edge>) returns (edges: seq<Edge>)
    requires forall k :: k in m ==> MapKey(m[k]) == k
    ensures IsEdgeList(edges, m)
  {
    edges := [];
    var todo := m.Keys;
    while todo != {}
      invariant todo <= m.Keys && Distinct(edges)
      invariant forall e :: e in edges <==> MapKey(e) in m.Keys - todo && m[MapKey(e)] == e
      decreases |todo|
    {
      var k :| k in todo;
      var before := edges;
      edges := edges + [m[k]];
      assert m[k] !in before;
      todo := todo - {k};
    }
    ByIsAnOrder(EdgeKey);
    SortContains(edges, By(EdgeKey));
    SortSorts(edges, By(EdgeKey));
    SortKeepsDistinct(edges, By(EdgeKey));
    forall a: Edge, b: Edge | a != b ensures EdgeKey(a) != EdgeKey(b) { EdgeKeysDiffer(a, b); }
    edges := Sort(edges, By(EdgeKey));
    KeysIncrease(edges, EdgeKey);
    assert forall e :: e in m.Values ==> MapKey(e) in m;
  }

  lemma EdgeKeysDiffer(a: Edge, b: Edge)
    requires a != b
    ensures EdgeKey(a) != EdgeKey(b)
  {
    assert EdgeKey(a)[0] == a.source && EdgeKey(a)[1] == a.target;
    assert EdgeKey(b)[0] == b.source && EdgeKey(b)[1] == b.target;
  }

  // ------------------------------------------------------------------ the graph

  method CountDegrees(edges: seq<Edge>) returns (inbound: map<string, nat>, outbound: map<string, nat>)
    ensures forall slug :: Tally(inbound, slug) == InDegree(edges, slug)
    ensures forall slug :: Tally(outbound, slug) == OutDegree(edges, slug)
  {
    inbound, outbound := map[], map[];
    var i := 0;
    while i < |edges|
      invariant 0 <= i <= |edges|
      invariant forall slug :: Tally(inbound, slug) == InDegree(edges[..i], slug)
      invariant forall slug :: Tally(outbound, slug) == OutDegree(edges[..i], slug)
    {
      var e := edges[i];
      assert edges[..i + 1] == edges[..i] + [e];
      forall slug
        ensures InDegree(edges[..i + 1], slug) == InDegree(edges[..i], slug) + if e.target == slug then 1 else 0
        ensures OutDegree(edges[..i + 1], slug) == OutDegree(edges[..i], slug) + if e.source == slug then 1 else 0
      {
        DegreesOfSum(edges[..i], e, slug);
      }
      outbound := outbound[e.source := Tally(outbound, e.source) + 1];
      inbound := inbound[e.target := Tally(inbound, e.target) + 1];
      i := i + 1;
    }
    assert edges[..i] == edges;
  }

  method BuildGraph(pages: seq<Page>, edges: seq<Edge>) returns (graph: Graph)
    ensures graph == GraphOf(pages, edges)
  {
    var inbound, outbound := CountDegrees(edges);
    var nodes: seq<Node>, seen: set<string> := [], {};
    var i := 0;
    while i < |pages|
      invariant 0 <= i <= |pages|
      invariant nodes == NodesOf(pages[..i], edges) && seen == Slugs(pages[..i])
    {
      LastTaken(pages, i);
      var p := pages[i];
      assert pages[..i + 1] == pages[..i] + [p];
      SlugsOfSum(pages[..i], p);
      if p.slug !in seen {
        seen := seen + {p.slug};
        nodes := nodes + [Node(p.slug, p.title, p.domain, Tally(inbound, p.slug), Tally(outbound, p.slug))];
      }
      i := i + 1;
    }
    assert pages[..i] == pages;
    nodes := Sort(nodes, By(NodeKey));
    graph := Graph(nodes, edges, |nodes|, |edges|, false);
  }

  method ResolveRelationships(pages: seq<Page>, paths: Paths) returns (resolved: seq<Page>, graph: Graph)
    ensures resolved == Resolved(Canonical(pages), paths)
    ensures var c := Canonical(pages);
      Inside(AllArcs(c, paths), |c|) && IsEdgeList(graph.edges, EdgeMap(AllArcs(c, paths), c))
    ensures graph == GraphOf(resolved, graph.edges)
    ensures var c := Canonical(pages);
      IsCanonical(pages, c) && PagesDone(c, resolved, paths) && GraphDone(c, graph, paths)
  {
    CanonicalIs(pages);
    PagesAreDone(Canonical(pages), paths);
    var canonical, bySlug := KeepFirsts(Sort(pages, By(PathKey)));
    ClearedFirsts(Sort(pages, By(PathKey)));
    var byPath := IndexPaths(canonical, paths);
    var now, m := FollowAll(canonical, bySlug, byPath, paths);
    resolved := SortBacklinks(canonical, now, m, paths);
    EdgeMapHolds(AllArcs(canonical, paths), canonical);
    var edges := CollectEdges(m);
    graph := BuildGraph(resolved, edges);
    GraphIsDone(canonical, edges, paths);
  }

  lemma {:induction false} ClearedFirsts(pages: seq<Page>)
    ensures FirstOfEach(pages) == Cleared(FirstOfEach(pages))
  {
    if pages != [] { ClearedFirsts(pages[..|pages| - 1]); }
  }

  // ------------------------------------------------------------------ cutting the graph to size

  function Ids(nodes: seq<Node>): set<string> {
    set i | 0 <= i < |nodes| :: nodes[i].id
  }

  /** The edges between nodes of the set, in order. */
  function Among(edges: seq<Edge>, allowed: set<string>): seq<Edge> {
    if edges == [] then []
    else
      var last := edges[|edges| - 1];
      Among(edges[..|edges| - 1], allowed) + if last.source in allowed && last.target in allowed then [last] else []
  }

  /** The graph as it is served: whole, or cut and marked. */
  function Served(g: Graph): Graph {
    if |g.nodes| <= MAX_GRAPH_NODES && |g.edges| <= MAX_GRAPH_EDGES then
      g.(totalNodes := |g.nodes|, totalEdges := |g.edges|)
    else
      var nodes := Take(g.nodes, MAX_GRAPH_NODES);
      Graph(nodes, Take(Among(g.edges, Ids(nodes)), MAX_GRAPH_EDGES), |g.nodes|, |g.edges|, true)
  }

  lemma {:induction false} AmongIs(edges: seq<Edge>, allowed: set<string>)
    ensures forall e :: e in Among(edges, allowed) <==> e in edges && e.source in allowed && e.target in allowed
    ensures |Among(edges, allowed)| <= |edges|
  {
    if edges != [] {
      AmongIs(edges[..|edges| - 1], allowed);
      assert edges == edges[..|edges| - 1] + [edges[|edges| - 1]];
    }
  }

  /** A served graph is bounded and closed, and loses an edge between its nodes only when it is full. */
  lemma ServedIsClosed(g: Graph)
    requires !g.truncated && forall e :: e in g.edges ==> e.source in Ids(g.nodes) && e.target in Ids(g.nodes)
    ensures var s := Served(g);
      && |s.nodes| <= MAX_GRAPH_NODES && |s.edges| <= MAX_GRAPH_EDGES
      && (forall e :: e in s.edges ==> e in g.edges && e.source in Ids(s.nodes) && e.target in Ids(s.nodes))
      && (forall e :: e in g.edges && e.source in Ids(s.nodes) && e.target in Ids(s.nodes) ==>
            e in s.edges || |s.edges| == MAX_GRAPH_EDGES)
      && s.totalNodes == |g.nodes| && s.totalEdges == |g.edges|
      && (s.truncated <==> s.nodes != g.nodes || s.edges != g.edges)
  {
    var s := Served(g);
    if s.truncated { AmongIs(g.edges, Ids(s.nodes)); }
  }

  /** An edge of the whole graph that joins two nodes of the served one. */
  predicate MayStay(whole: Graph, g: Graph, e: Edge) {
    e in whole.edges && e.source in Ids(g.nodes) && e.target in Ids(g.nodes)
  }

  /** The graph is whole, or the first 2000 nodes and the first 10000 of the edges between them. */
  ghost predicate ServedDone(whole: Graph, g: Graph) {
    && g.totalNodes == |whole.nodes| && g.totalEdges == |whole.edges|
    && (g.truncated <==> |whole.nodes| > 2000 || |whole.edges| > 10000)
    && g.nodes == (if |whole.nodes| > 2000 then whole.nodes[..2000] else whole.nodes)
    && (if !g.truncated then g.edges == whole.edges
        else
          && |g.edges| <= 10000 && EdgesIncrease(g.edges) && (forall e :: e in g.edges ==> MayStay(whole, g, e))
          && forall e :: MayStay(whole, g, e) && e !in g.edges ==> |g.edges| == 10000 && LaterThanAll(g.edges, e))
  }

  predicate LaterThanAll(edges: seq<Edge>, e: Edge) {
    forall kept :: kept in edges ==> EdgeBefore(kept, e)
  }

  lemma {:induction false} AmongIncreases(edges: seq<Edge>, allowed: set<string>)
    requires EdgesIncrease(edges)
    ensures EdgesIncrease(Among(edges, allowed))
  {
    if edges != [] {
      var n := |edges| - 1;
      AmongIncreases(edges[..n], allowed);
      AmongIs(edges[..n], allowed);
      forall e | e in Among(edges[..n], allowed) ensures EdgeBefore(e, edges[n]) {
        var i :| 0 <= i < n && edges[i] == e;
      }
    }
  }

  lemma TakenFirst(edges: seq<Edge>, n: nat, e: Edge)
    requires EdgesIncrease(edges) && e in edges && e !in Take(edges, n)
    ensures |Take(edges, n)| == n && LaterThanAll(Take(edges, n), e)
  {
    var i :| 0 <= i < |edges| && edges[i] == e;
    assert forall j :: 0 <= j < |Take(edges, n)| ==> Take(edges, n)[j] == edges[j];
  }

  lemma ServedIsDone(whole: Graph)
    requires EdgesIncrease(whole.edges) && !whole.truncated
    ensures ServedDone(whole, Served(whole))
  {
    var g := Served(whole);
    var among := Among(whole.edges, Ids(g.nodes));
    AmongIs(whole.edges, Ids(g.nodes));
    AmongIncreases(whole.edges, Ids(g.nodes));
    if g.truncated {
      forall e | MayStay(whole, g, e) && e !in g.edges ensures |g.edges| == 10000 && LaterThanAll(g.edges, e) {
        TakenFirst(among, 10000, e);
      }
    }
  }

  method CutGraph(whole: Graph) returns (graph: Graph)
    ensures graph == Served(whole)
  {
    graph := whole.(totalNodes := |whole.nodes|, totalEdges := |whole.edges|);
    if |graph.nodes| <= MAX_GRAPH_NODES && |graph.edges| <= MAX_GRAPH_EDGES { return; }
    graph := graph.(truncated := true);
    if |graph.nodes| > MAX_GRAPH_NODES { graph := graph.(nodes := graph.nodes[..MAX_GRAPH_NODES]); }
    var allowed: set<string>, i := {}, 0;
    while i < |graph.nodes|
      invariant 0 <= i <= |graph.nodes| && allowed == Ids(graph.nodes[..i])
    {
      IdsOneMore(graph.nodes, i);
      allowed := allowed + {graph.nodes[i].id};
      i := i + 1;
    }
    assert graph.nodes[..i] == graph.nodes;
    var edges := KeepEdges(whole.edges, allowed);
    graph := graph.(edges := edges);
  }

  lemma IdsOneMore(nodes: seq<Node>, i: nat)
    requires i < |nodes|
    ensures Ids(nodes[..i + 1]) == Ids(nodes[..i]) + {nodes[i].id}
  {
    var before, after := nodes[..i], nodes[..i + 1];
    assert forall k :: 0 <= k < i ==> after[k] == before[k];
    assert after[i] == nodes[i];
    forall id ensures id in Ids(after) <==> id in Ids(before) + {nodes[i].id} {
      if id in Ids(before) {
        var k :| 0 <= k < i && before[k].id == id;
        assert after[k].id == id;
      }
    }
  }

  lemma {:induction false} AmongGrows(edges: seq<Edge>, allowed: set<string>, i: nat)
    requires i <= |edges|
    ensures |Among(edges[..i], allowed)| <= |Among(edges, allowed)|
    ensures Among(edges, allowed)[..|Among(edges[..i], allowed)|] == Among(edges[..i], allowed)
    decreases |edges|
  {
    if i < |edges| {
      var rest := edges[..|edges| - 1];
      AmongGrows(rest, allowed, i);
      assert rest[..i] == edges[..i];
    } else {
      assert edges[..i] == edges;
    }
  }

  /** The loop stops as soon as the list is full. */
  method KeepEdges(all: seq<Edge>, allowed: set<string>) returns (edges: seq<Edge>)
    ensures edges == Take(Among(all, allowed), MAX_GRAPH_EDGES)
  {
    edges := [];
    var i := 0;
    while i < |all|
      invariant 0 <= i <= |all| && edges == Among(all[..i], allowed) && |edges| < MAX_GRAPH_EDGES
    {
      LastTaken(all, i);
      if all[i].source in allowed && all[i].target in allowed {
        edges := edges + [all[i]];
        if |edges| == MAX_GRAPH_EDGES {
          AmongGrows(all, allowed, i + 1);
          return;
        }
      }
      i := i + 1;
    }
    assert all[..i] == all;
  }

  /** `GraphContext` resolves the stored pages once more; they already are resolved. */
  method GraphContext(stored: seq<Page>, paths: Paths) returns (graph: Graph)
    ensures var c := Canonical(stored);
      && Inside(AllArcs(c, paths), |c|)
      && exists edges :: IsEdgeList(edges, EdgeMap(AllArcs(c, paths), c))
           && graph == Served(GraphOf(Resolved(c, paths), edges))
    ensures exists c, whole :: IsCanonical(stored, c) && GraphDone(c, whole, paths) && ServedDone(whole, graph)
  {
    var resolved, whole := ResolveRelationships(stored, paths);
    graph := CutGraph(whole);
    assert graph == Served(GraphOf(resolved, whole.edges));
    ServedIsDone(whole);
    assert GraphDone(Canonical(stored), whole, paths);
  }

  lemma {:induction false} NodeIds(pages: seq<Page>, edges: seq<Edge>)
    ensures forall id :: id in Slugs(pages) <==> exists n :: n in NodesOf(pages, edges) && n.id == id
  {
    if pages != [] {
      var rest, last := pages[..|pages| - 1], pages[|pages| - 1];
      NodeIds(rest, edges);
      SlugsOfSum(rest, last);
      assert pages == rest + [last];
      var nodes := NodesOf(pages, edges);
      if last.slug !in Slugs(rest) {
        assert nodes[|nodes| - 1] == NodeOf(last, edges);
        assert forall n :: n in NodesOf(rest, edges) ==> n in nodes;
      }
    }
  }

  lemma SameIds(nodes: seq<Node>, all: seq<Node>, id: string)
    requires forall n :: n in nodes <==> n in all
    ensures id in Ids(nodes) <==> exists n :: n in all && n.id == id
  {
    if id in Ids(nodes) {
      var i :| 0 <= i < |nodes| && nodes[i].id == id;
      assert nodes[i] in all;
    }
    if n :| n in all && n.id == id {
      var i :| 0 <= i < |nodes| && nodes[i] == n;
    }
  }

  lemma GraphIds(pages: seq<Page>, edges: seq<Edge>)
    ensures Ids(GraphOf(pages, edges).nodes) == Slugs(pages)
  {
    var nodes, all := GraphOf(pages, edges).nodes, NodesOf(pages, edges);
    NodeIds(pages, edges);
    SortContains(all, By(NodeKey));
    forall id ensures id in Ids(nodes) <==> id in Slugs(pages) { SameIds(nodes, all, id); }
  }

  /** Before it is cut, the graph of a wiki is closed, so that cutting it leaves a closed graph. */
  lemma WholeGraphIsClosed(pages: seq<Page>, paths: Paths, edges: seq<Edge>)
    requires var c := Canonical(pages);
      Inside(AllArcs(c, paths), |c|) && IsEdgeList(edges, EdgeMap(AllArcs(c, paths), c))
    ensures var g := GraphOf(Resolved(Canonical(pages), paths), edges);
      && (forall e :: e in g.edges ==> e.source in Ids(g.nodes) && e.target in Ids(g.nodes))
      && TotalInbound(g.nodes) == |g.edges| == TotalOutbound(g.nodes)
  {
    var c := Canonical(pages);
    var r := Resolved(c, paths);
    ResolvedSameInputs(c, paths);
    SameNodes(c, r, edges);
    GraphIds(r, edges);
    GraphDegrees(c, paths, edges);
    EdgeMapHolds(AllArcs(c, paths), c);
    forall e | e in edges ensures e.source in Slugs(r) && e.target in Slugs(r) {
      assert e in EdgeMap(AllArcs(c, paths), c).Values;
      EndsArePages(AllArcs(c, paths), c, e);
    }
  }
}
