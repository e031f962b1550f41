/**
  Wiki links: which page a link leads to, the backlinks of every page, and the graph. Warnings are
  not modelled, and neither are the fields of a page that only travel along.
 */
module Relationships {
  import opened Options
  import opened NulKeys
  import opened Sorting

  datatype Link = Link(raw: string, target: string, resolved: bool)

  datatype Page = Page(
    slug: string, path: string, title: string, domain: string, links: seq<Link>, backlinks: seq<string>)

  datatype Edge = Edge(source: string, target: string)

  datatype Node = Node(id: string, title: string, domain: string, inbound: nat, outbound: nat)

  datatype Graph = Graph(nodes: seq<Node>, edges: seq<Edge>, totalNodes: nat, totalEdges: nat, truncated: bool)

  /** Path arithmetic: normalising a path, and resolving a relative one against a page's directory. */
  datatype Paths = Paths(normal: string -> string, join: (string, string) -> string)

  function PathKey(p: Page): SortKey { [p.path] }

  function StringKey(s: string): SortKey { [s] }

  function EdgeKey(e: Edge): SortKey { [e.source, e.target] }

  function NodeKey(n: Node): SortKey { [n.domain, n.title, n.id] }

  // ------------------------------------------------------------------ which page a link leads to

  function BySlug(pages: seq<Page>): map<string, nat> {
    if pages == [] then map[] else BySlug(pages[..|pages| - 1])[pages[|pages| - 1].slug := |pages| - 1]
  }

  /** Of two pages with the same normalised path the later one counts. */
  function ByPath(pages: seq<Page>, paths: Paths): map<string, nat> {
    if pages == [] then map[]
    else ByPath(pages[..|pages| - 1], paths)[paths.normal(pages[|pages| - 1].path) := |pages| - 1]
  }

  predicate IsMarkdown(target: string) {
    var n := |target|;
    n >= 3 && target[n - 3] == '.' && (target[n - 2] == 'm' || target[n - 2] == 'M')
    && (target[n - 1] == 'd' || target[n - 1] == 'D')
  }

  function Lookup(index: map<string, nat>, key: string): Option<nat> {
    if key in index then Some(index[key]) else None
  }

  /** `resolveTarget`: a slug, or else the path of a page. */
  function ResolveTarget(raw: string, source: string, bySlug: map<string, nat>, byPath: map<string, nat>, paths: Paths)
    : Option<nat>
  {
    if raw in bySlug then Some(bySlug[raw])
    else if IsMarkdown(raw) then Lookup(byPath, paths.normal(paths.join(source, raw)))
    else None
  }

  function TargetOf(pages: seq<Page>, i: nat, k: nat, paths: Paths): (target: Option<nat>)
    requires i < |pages| && k < |pages[i].links|
    ensures target.Some? ==> target.value < |pages|
  {
    IndexesAreInside(pages, paths);
    ResolveTarget(pages[i].links[k].raw, pages[i].path, BySlug(pages), ByPath(pages, paths), paths)
  }

  lemma {:induction false} IndexesAreInside(pages: seq<Page>, paths: Paths)
    ensures forall slug :: slug in BySlug(pages) ==>
      BySlug(pages)[slug] < |pages| && pages[BySlug(pages)[slug]].slug == slug
    ensures forall path :: path in ByPath(pages, paths) ==>
      ByPath(pages, paths)[path] < |pages| && paths.normal(pages[ByPath(pages, paths)[path]].path) == path
  {
    if pages != [] { IndexesAreInside(pages[..|pages| - 1], paths); }
  }

  // ------------------------------------------------------------------ arcs

  type Arc = (nat, nat)

  /** The resolved links of the first `i` pages and of the first `k` links of the next, in order. */
  function Arcs(pages: seq<Page>, i: nat, k: nat, paths: Paths): seq<Arc>
    requires i <= |pages| && (k > 0 ==> i < |pages| && k <= |pages[i].links|)
    decreases i, k
  {
    if k > 0 then
      var target := TargetOf(pages, i, k - 1, paths);
      Arcs(pages, i, k - 1, paths) + if target.Some? then [(i, target.value)] else []
    else if i > 0 then Arcs(pages, i - 1, |pages[i - 1].links|, paths)
    else []
  }

  function AllArcs(pages: seq<Page>, paths: Paths): seq<Arc> {
    Arcs(pages, |pages|, 0, paths)
  }

  predicate Inside(arcs: seq<Arc>, n: nat) {
    forall a :: a in arcs ==> a.0 < n && a.1 < n
  }

  /** Some link of page `p` leads to page `q`. */
  predicate LinksTo(pages: seq<Page>, p: nat, q: nat, paths: Paths)
    requires p < |pages|
  {
    exists k :: 0 <= k < |pages[p].links| && TargetOf(pages, p, k, paths) == Some(q)
  }

  lemma {:induction false} ArcsAreLinks(pages: seq<Page>, i: nat, k: nat, paths: Paths)
    requires i <= |pages| && (k > 0 ==> i < |pages| && k <= |pages[i].links|)
    ensures Inside(Arcs(pages, i, k, paths), |pages|)
    ensures forall a :: a in Arcs(pages, i, k, paths) ==> a.0 < |pages| && LinksTo(pages, a.0, a.1, paths)
    decreases i, k
  {
    if k > 0 {
      ArcsAreLinks(pages, i, k - 1, paths);
    } else if i > 0 {
      ArcsAreLinks(pages, i - 1, |pages[i - 1].links|, paths);
    }
  }

  lemma {:induction false} LinksAreArcs(pages: seq<Page>, i: nat, k: nat, paths: Paths, p: nat, l: nat)
    requires i <= |pages| && (k > 0 ==> i < |pages| && k <= |pages[i].links|)
    requires p < |pages| && l < |pages[p].links| && TargetOf(pages, p, l, paths).Some?
    requires p < i || (p == i && l < k)
    ensures (p, TargetOf(pages, p, l, paths).value) in Arcs(pages, i, k, paths)
    decreases i, k
  {
    if k > 0 {
      if p < i || l < k - 1 { LinksAreArcs(pages, i, k - 1, paths, p, l); }
    } else if i > 0 {
      LinksAreArcs(pages, i - 1, |pages[i - 1].links|, paths, p, l);
    }
  }

  /** The arcs are exactly the pairs of pages that a link joins. */
  lemma ArcsAreExactlyLinks(pages: seq<Page>, paths: Paths, p: nat, q: nat)
    requires p < |pages|
    ensures (p, q) in AllArcs(pages, paths) <==> LinksTo(pages, p, q, paths)
    ensures Inside(AllArcs(pages, paths), |pages|)
  {
    ArcsAreLinks(pages, |pages|, 0, paths);
    if LinksTo(pages, p, q, paths) {
      var k :| 0 <= k < |pages[p].links| && TargetOf(pages, p, k, paths) == Some(q);
      LinksAreArcs(pages, |pages|, 0, paths, p, k);
    }
  }

  // ------------------------------------------------------------------ canonical pages

  function Slugs(pages: seq<Page>): set<string> {
    set i | 0 <= i < |pages| :: pages[i].slug
  }

  /** The first page of each slug. */
  function FirstOfEach(pages: seq<Page>): seq<Page> {
    if pages == [] then []
    else
      var before, last := FirstOfEach(pages[..|pages| - 1]), pages[|pages| - 1];
      if last.slug in Slugs(before) then before else before + [last.(backlinks := [])]
  }

  predicate DistinctSlugs(pages: seq<Page>) {
    forall i, j :: 0 <= i < j < |pages| ==> pages[i].slug != pages[j].slug
  }

  lemma {:induction false} FirstsAreDistinct(pages: seq<Page>)
    ensures DistinctSlugs(FirstOfEach(pages))
    ensures Slugs(FirstOfEach(pages)) == Slugs(pages)
  {
    if pages != [] {
      var rest, last := pages[..|pages| - 1], pages[|pages| - 1];
      FirstsAreDistinct(rest);
      var before := FirstOfEach(rest);
      SlugsOfSum(rest, last);
      SlugsOfSum(before, last.(backlinks := []));
      assert pages == rest + [last];
      if last.slug !in Slugs(before) {
        forall i | 0 <= i < |before| ensures before[i].slug != last.slug {
          assert before[i].slug in Slugs(before);
        }
      }
    }
  }

  lemma SlugsOfSum(pages: seq<Page>, p: Page)
    ensures Slugs(pages + [p]) == Slugs(pages) + {p.slug}
  {
    var all := pages + [p];
    forall slug ensures slug in Slugs(all) <==> slug in Slugs(pages) + {p.slug} {
      if slug in Slugs(pages) {
        var i :| 0 <= i < |pages| && pages[i].slug == slug;
        assert all[i].slug == slug;
      }
      assert all[|pages|] == p;
    }
  }

  lemma NotAfter(pages: seq<Page>, q: Page)
    requires Sorted(pages, By(PathKey)) && pages != [] && q in pages[..|pages| - 1]
    ensures !KeyLess(PathKey(pages[|pages| - 1]), PathKey(q))
  {
    var k :| 0 <= k < |pages| - 1 && pages[k] == q;
    assert !By(PathKey)(pages[|pages| - 1], pages[k]);
  }

  lemma {:induction false} FirstsStaySorted(pages: seq<Page>)
    requires Sorted(pages, By(PathKey))
    ensures Sorted(FirstOfEach(pages), By(PathKey))
    ensures forall p :: p in FirstOfEach(pages) ==> exists q :: q in pages && q.path == p.path
  {
    if pages != [] {
      var rest, last := pages[..|pages| - 1], pages[|pages| - 1];
      FirstsStaySorted(rest);
      var before := FirstOfEach(rest);
      forall b | b in before ensures !By(PathKey)(last.(backlinks := []), b) {
        var q :| q in rest && q.path == b.path;
        NotAfter(pages, q);
        assert PathKey(last.(backlinks := [])) == PathKey(last) && PathKey(b) == PathKey(q);
      }
      SortedMore(before, last.(backlinks := []), By(PathKey));
    }
  }

  function Cleared(pages: seq<Page>): (r: seq<Page>)
    ensures |r| == |pages| && forall i :: 0 <= i < |pages| ==> r[i] == pages[i].(backlinks := [])
  {
    seq(|pages|, i requires 0 <= i < |pages| => pages[i].(backlinks := []))
  }

  lemma {:induction false} DistinctStay(pages: seq<Page>)
    requires DistinctSlugs(pages)
    ensures FirstOfEach(pages) == Cleared(pages)
  {
    if pages != [] {
      var rest, last := pages[..|pages| - 1], pages[|pages| - 1];
      DistinctStay(rest);
      FirstsAreDistinct(rest);
      forall i | 0 <= i < |rest| ensures rest[i].slug != last.slug { assert pages[i] == rest[i]; }
    }
  }

  /** `ResolveRelationships` starts from the pages in path order, one for each slug. */
  function Canonical(pages: seq<Page>): seq<Page> {
    FirstOfEach(Sort(pages, By(PathKey)))
  }

  // ------------------------------------------------------------------ what resolution gives

  function Followed(link: Link, target: Option<nat>, pages: seq<Page>): Link
    requires target.Some? ==> target.value < |pages|
  {
    if target.Some? then link.(target := pages[target.value].slug, resolved := true) else link
  }

  /** The links of page `p` once the first `m` are followed. */
  function LinksAt(pages: seq<Page>, p: nat, m: nat, paths: Paths): (links: seq<Link>)
    requires p < |pages|
    ensures |links| == |pages[p].links|
  {
    seq(|pages[p].links|, k requires 0 <= k < |pages[p].links| =>
      if k < m then Followed(pages[p].links[k], TargetOf(pages, p, k, paths), pages) else pages[p].links[k])
  }

  /** The sources of the arcs that end in `q`, one for each link. */
  function Sources(arcs: seq<Arc>, pages: seq<Page>, q: nat): seq<string>
    requires Inside(arcs, |pages|)
  {
    if arcs == [] then []
    else
      var last := arcs[|arcs| - 1];
      Sources(arcs[..|arcs| - 1], pages, q) + if last.1 == q then [pages[last.0].slug] else []
  }

  function EdgeOf(arc: Arc, pages: seq<Page>): Edge
    requires arc.0 < |pages| && arc.1 < |pages|
  {
    Edge(pages[arc.0].slug, pages[arc.1].slug)
  }

  function MapKey(e: Edge): string {
    Join(e.source, e.target)
  }

  function EdgeMap(arcs: seq<Arc>, pages: seq<Page>): map<string, Edge>
    requires Inside(arcs, |pages|)
  {
    if arcs == [] then map[]
    else
      var e := EdgeOf(arcs[|arcs| - 1], pages);
      EdgeMap(arcs[..|arcs| - 1], pages)[MapKey(e) := e]
  }

  function Dedupe(values: seq<string>): seq<string> {
    if values == [] then []
    else
      var before, last := Dedupe(values[..|values| - 1]), values[|values| - 1];
      if last in before then before else before + [last]
  }

  function UniqueStrings(values: seq<string>): seq<string> {
    Sort(Dedupe(values), By(StringKey))
  }

  lemma {:induction false} Deduped(values: seq<string>)
    ensures forall x :: x in Dedupe(values) <==> x in values
    ensures forall i, j :: 0 <= i < j < |Dedupe(values)| ==> Dedupe(values)[i] != Dedupe(values)[j]
  {
    if values != [] {
      Deduped(values[..|values| - 1]);
      assert values == values[..|values| - 1] + [values[|values| - 1]];
    }
  }

  lemma UniqueStringsAre(values: seq<string>)
    ensures Increasing(UniqueStrings(values), By(StringKey))
    ensures forall x :: x in UniqueStrings(values) <==> x in values
  {
    Deduped(values);
    ByIsAnOrder(StringKey);
    SortSorts(Dedupe(values), By(StringKey));
    SortContains(Dedupe(values), By(StringKey));
    SortKeepsDistinct(Dedupe(values), By(StringKey));
    KeysIncrease(UniqueStrings(values), StringKey);
  }

  /** The pages with every link followed and their backlinks filled in. */
  function Resolved(pages: seq<Page>, paths: Paths): (r: seq<Page>)
    ensures |r| == |pages|
  {
    ArcsAreLinks(pages, |pages|, 0, paths);
    seq(|pages|, p requires 0 <= p < |pages| =>
      pages[p].(links := LinksAt(pages, p, |pages[p].links|, paths),
                backlinks := UniqueStrings(Sources(AllArcs(pages, paths), pages, p))))
  }

  lemma {:induction false} SourcesAre(arcs: seq<Arc>, pages: seq<Page>, q: nat, slug: string)
    requires Inside(arcs, |pages|)
    ensures slug in Sources(arcs, pages, q) <==> exists a :: a in arcs && a.1 == q && pages[a.0].slug == slug
  {
    if arcs != [] {
      var rest, last := arcs[..|arcs| - 1], arcs[|arcs| - 1];
      SourcesAre(rest, pages, q, slug);
      assert arcs == rest + [last];
      assert last in arcs;
    }
  }

  /** A page is in another's backlinks if and only if one of its links leads there. */
  lemma BacklinksAreLinks(pages: seq<Page>, paths: Paths, p: nat, q: nat)
    requires DistinctSlugs(pages) && p < |pages| && q < |pages|
    ensures pages[p].slug in Resolved(pages, paths)[q].backlinks <==> LinksTo(pages, p, q, paths)
    ensures Increasing(Resolved(pages, paths)[q].backlinks, By(StringKey))
  {
    var arcs := AllArcs(pages, paths);
    ArcsAreExactlyLinks(pages, paths, p, q);
    UniqueStringsAre(Sources(arcs, pages, q));
    SourcesAre(arcs, pages, q, pages[p].slug);
    if a :| a in arcs && a.1 == q && pages[a.0].slug == pages[p].slug {
      assert a.0 == p;
      assert a == (p, q);
    }
  }

  // ------------------------------------------------------------------ edges

  function TrueEdges(arcs: seq<Arc>, pages: seq<Page>): set<Edge>
    requires Inside(arcs, |pages|)
  {
    set a | a in arcs :: EdgeOf(a, pages)
  }

  ghost predicate KeysTellApart(edges: set<Edge>) {
    forall a, b :: a in edges && b in edges && MapKey(a) == MapKey(b) ==> a == b
  }

  lemma {:induction false} EdgeMapHolds(arcs: seq<Arc>, pages: seq<Page>)
    requires Inside(arcs, |pages|)
    ensures forall k :: k in EdgeMap(arcs, pages) ==>
      MapKey(EdgeMap(arcs, pages)[k]) == k && EdgeMap(arcs, pages)[k] in TrueEdges(arcs, pages)
    ensures forall e :: e in TrueEdges(arcs, pages) ==> MapKey(e) in EdgeMap(arcs, pages)
  {
    if arcs != [] {
      var rest, last := arcs[..|arcs| - 1], arcs[|arcs| - 1];
      EdgeMapHolds(rest, pages);
      assert arcs == rest + [last];
      assert TrueEdges(arcs, pages) == TrueEdges(rest, pages) + {EdgeOf(last, pages)};
    }
  }

  /** The graph has every edge if and only if no two edges share a joined key. */
  lemma EdgesAreComplete(arcs: seq<Arc>, pages: seq<Page>)
    requires Inside(arcs, |pages|)
    ensures EdgeMap(arcs, pages).Values == TrueEdges(arcs, pages) <==> KeysTellApart(TrueEdges(arcs, pages))
  {
    EdgeMapHolds(arcs, pages);
    var m, edges := EdgeMap(arcs, pages), TrueEdges(arcs, pages);
    if m.Values == edges {
      forall a, b | a in edges && b in edges && MapKey(a) == MapKey(b) ensures a == b {
        var ka :| ka in m && m[ka] == a;
        var kb :| kb in m && m[kb] == b;
      }
    }
    if KeysTellApart(edges) {
      forall e | e in edges ensures e in m.Values { assert m[MapKey(e)] == e; }
    }
  }

  /** Slugs without NUL characters are enough. */
  lemma NulFreeSlugsTellApart(arcs: seq<Arc>, pages: seq<Page>)
    requires Inside(arcs, |pages|) && forall p :: 0 <= p < |pages| ==> NulFree(pages[p].slug)
    ensures KeysTellApart(TrueEdges(arcs, pages))
  {
    forall a, b | a in TrueEdges(arcs, pages) && b in TrueEdges(arcs, pages) && MapKey(a) == MapKey(b) ensures a == b {
      JoinIsInjective(a.source, a.target, b.source, b.target);
    }
  }

  // ------------------------------------------------------------------ the graph

  function InDegree(edges: seq<Edge>, slug: string): nat {
    if edges == [] then 0
    else InDegree(edges[..|edges| - 1], slug) + if edges[|edges| - 1].target == slug then 1 else 0
  }

  function OutDegree(edges: seq<Edge>, slug: string): nat {
    if edges == [] then 0
    else OutDegree(edges[..|edges| - 1], slug) + if edges[|edges| - 1].source == slug then 1 else 0
  }

  function NodeOf(p: Page, edges: seq<Edge>): Node {
    Node(p.slug, p.title, p.domain, InDegree(edges, p.slug), OutDegree(edges, p.slug))
  }

  /** One node for each slug. */
  function NodesOf(pages: seq<Page>, edges: seq<Edge>): seq<Node> {
    if pages == [] then []
    else
      var rest, last := pages[..|pages| - 1], pages[|pages| - 1];
      if last.slug in Slugs(rest) then NodesOf(rest, edges) else NodesOf(rest, edges) + [NodeOf(last, edges)]
  }

  function GraphOf(pages: seq<Page>, edges: seq<Edge>): Graph {
    Graph(Sort(NodesOf(pages, edges), By(NodeKey)), edges, |NodesOf(pages, edges)|, |edges|, false)
  }

  /** The edges of the map, in order. */
  ghost predicate IsEdgeList(edges: seq<Edge>, m: map<string, Edge>) {
    Increasing(edges, By(EdgeKey)) && forall e :: e in edges <==> e in m.Values
  }

  function TotalInbound(nodes: seq<Node>): nat {
    if nodes == [] then 0 else TotalInbound(nodes[..|nodes| - 1]) + nodes[|nodes| - 1].inbound
  }

  function TotalOutbound(nodes: seq<Node>): nat {
    if nodes == [] then 0 else TotalOutbound(nodes[..|nodes| - 1]) + nodes[|nodes| - 1].outbound
  }

  lemma {:induction false} InsertKeepsTotals(nodes: seq<Node>, n: Node)
    ensures TotalInbound(Insert(nodes, n, By(NodeKey))) == TotalInbound(nodes) + n.inbound
    ensures TotalOutbound(Insert(nodes, n, By(NodeKey))) == TotalOutbound(nodes) + n.outbound
  {
    if nodes != [] && KeyLess(NodeKey(n), NodeKey(nodes[|nodes| - 1])) {
      var rest, last := nodes[..|nodes| - 1], nodes[|nodes| - 1];
      InsertKeepsTotals(rest, n);
      assert (Insert(rest, n, By(NodeKey)) + [last])[..|Insert(rest, n, By(NodeKey))|] == Insert(rest, n, By(NodeKey));
    } else {
      assert (nodes + [n])[..|nodes|] == nodes;
    }
  }

  lemma {:induction false} SortKeepsTotals(nodes: seq<Node>)
    ensures TotalInbound(Sort(nodes, By(NodeKey))) == TotalInbound(nodes)
    ensures TotalOutbound(Sort(nodes, By(NodeKey))) == TotalOutbound(nodes)
  {
    if nodes != [] {
      SortKeepsTotals(nodes[..|nodes| - 1]);
      InsertKeepsTotals(Sort(nodes[..|nodes| - 1], By(NodeKey)), nodes[|nodes| - 1]);
    }
  }

  lemma TotalsOfSum(nodes: seq<Node>, n: Node)
    ensures TotalInbound(nodes + [n]) == TotalInbound(nodes) + n.inbound
    ensures TotalOutbound(nodes + [n]) == TotalOutbound(nodes) + n.outbound
  {
    assert (nodes + [n])[..|nodes|] == nodes;
  }

  lemma {:induction false} NoEdgesNoDegrees(pages: seq<Page>)
    ensures TotalInbound(NodesOf(pages, [])) == 0 && TotalOutbound(NodesOf(pages, [])) == 0
  {
    if pages != [] {
      var rest, last := pages[..|pages| - 1], pages[|pages| - 1];
      NoEdgesNoDegrees(rest);
      TotalsOfSum(NodesOf(rest, []), NodeOf(last, []));
    }
  }

  lemma DegreesOfSum(edges: seq<Edge>, e: Edge, slug: string)
    ensures InDegree(edges + [e], slug) == InDegree(edges, slug) + if e.target == slug then 1 else 0
    ensures OutDegree(edges + [e], slug) == OutDegree(edges, slug) + if e.source == slug then 1 else 0
  {
    assert (edges + [e])[..|edges|] == edges;
  }

  lemma OneNodeMore(pages: seq<Page>, edges: seq<Edge>)
    requires pages != []
    ensures var rest, last := pages[..|pages| - 1], pages[|pages| - 1];
      var first := last.slug !in Slugs(rest);
      && Slugs(pages) == Slugs(rest) + {last.slug}
      && TotalInbound(NodesOf(pages, edges))
        == TotalInbound(NodesOf(rest, edges)) + (if first then InDegree(edges, last.slug) else 0)
      && TotalOutbound(NodesOf(pages, edges))
        == TotalOutbound(NodesOf(rest, edges)) + (if first then OutDegree(edges, last.slug) else 0)
  {
    var rest, last := pages[..|pages| - 1], pages[|pages| - 1];
    SlugsOfSum(rest, last);
    assert pages == rest + [last];
    TotalsOfSum(NodesOf(rest, edges), NodeOf(last, edges));
  }

  /** The second list has the degrees of the first, and one edge more. */
  ghost predicate OneMore(edges: seq<Edge>, more: seq<Edge>, e: Edge) {
    forall slug ::
      && InDegree(more, slug) == InDegree(edges, slug) + (if e.target == slug then 1 else 0)
      && OutDegree(more, slug) == OutDegree(edges, slug) + (if e.source == slug then 1 else 0)
  }

  /** One edge more adds one to the totals wherever its ends are pages. */
  lemma {:induction false} OneEdgeMore(pages: seq<Page>, edges: seq<Edge>, more: seq<Edge>, e: Edge)
    requires OneMore(edges, more, e)
    ensures TotalInbound(NodesOf(pages, more))
      == TotalInbound(NodesOf(pages, edges)) + if e.target in Slugs(pages) then 1 else 0
    ensures TotalOutbound(NodesOf(pages, more))
      == TotalOutbound(NodesOf(pages, edges)) + if e.source in Slugs(pages) then 1 else 0
    decreases |pages|
  {
    if pages != [] {
      OneEdgeMore(pages[..|pages| - 1], edges, more, e);
      OneNodeMore(pages, edges);
      OneNodeMore(pages, more);
    }
  }

  lemma {:induction false} DegreesSum(pages: seq<Page>, edges: seq<Edge>)
    requires forall e :: e in edges ==> e.source in Slugs(pages) && e.target in Slugs(pages)
    ensures TotalInbound(NodesOf(pages, edges)) == |edges| && TotalOutbound(NodesOf(pages, edges)) == |edges|
    decreases |edges|
  {
    if edges == [] {
      NoEdgesNoDegrees(pages);
    } else {
      var rest, last := edges[..|edges| - 1], edges[|edges| - 1];
      DegreesSum(pages, rest);
      assert edges == rest + [last];
      forall slug
        ensures InDegree(edges, slug) == InDegree(rest, slug) + if last.target == slug then 1 else 0
        ensures OutDegree(edges, slug) == OutDegree(rest, slug) + if last.source == slug then 1 else 0
      {
        DegreesOfSum(rest, last, slug);
      }
      OneEdgeMore(pages, rest, edges, last);
    }
  }

  lemma EndsArePages(arcs: seq<Arc>, pages: seq<Page>, e: Edge)
    requires Inside(arcs, |pages|) && e in TrueEdges(arcs, pages)
    ensures e.source in Slugs(pages) && e.target in Slugs(pages)
  {
    var a :| a in arcs && e == EdgeOf(a, pages);
  }

  /** In the graph of resolved pages the inbound and the outbound degrees each add up to the edges. */
  lemma {:induction false} GraphDegrees(pages: seq<Page>, paths: Paths, edges: seq<Edge>)
    requires Inside(AllArcs(pages, paths), |pages|) && IsEdgeList(edges, EdgeMap(AllArcs(pages, paths), pages))
    ensures TotalInbound(GraphOf(pages, edges).nodes) == |edges|
    ensures TotalOutbound(GraphOf(pages, edges).nodes) == |edges|
  {
    var arcs := AllArcs(pages, paths);
    EdgeMapHolds(arcs, pages);
    forall e | e in edges ensures e.source in Slugs(pages) && e.target in Slugs(pages) {
      assert e in EdgeMap(arcs, pages).Values;
      EndsArePages(arcs, pages, e);
    }
    DegreesSum(pages, edges);
    SortKeepsTotals(NodesOf(pages, edges));
  }

  // ------------------------------------------------------------------ resolving again

  /** Resolution looks at nothing else. */
  ghost predicate SameInputs(a: seq<Page>, b: seq<Page>) {
    |a| == |b| && forall i :: 0 <= i < |a| ==> SamePage(a[i], b[i])
  }

  ghost predicate SamePage(a: Page, b: Page) {
    && a.slug == b.slug && a.path == b.path && a.title == b.title && a.domain == b.domain
    && |a.links| == |b.links| && forall k :: 0 <= k < |a.links| ==> a.links[k].raw == b.links[k].raw
  }

  lemma {:induction false} SameIndexes(a: seq<Page>, b: seq<Page>, paths: Paths)
    requires SameInputs(a, b)
    ensures BySlug(a) == BySlug(b) && ByPath(a, paths) == ByPath(b, paths)
  {
    if a != [] { SameIndexes(a[..|a| - 1], b[..|b| - 1], paths); }
  }

  lemma SameTargets(a: seq<Page>, b: seq<Page>, i: nat, k: nat, paths: Paths)
    requires SameInputs(a, b) && i < |a| && k < |a[i].links|
    ensures k < |b[i].links| && TargetOf(a, i, k, paths) == TargetOf(b, i, k, paths)
  {
    SameIndexes(a, b, paths);
    assert SamePage(a[i], b[i]);
  }

  lemma {:induction false} SameArcs(a: seq<Page>, b: seq<Page>, i: nat, k: nat, paths: Paths)
    requires SameInputs(a, b) && i <= |a| && (k > 0 ==> i < |a| && k <= |a[i].links|)
    ensures k > 0 ==> k <= |b[i].links|
    ensures Arcs(a, i, k, paths) == Arcs(b, i, k, paths)
    decreases i, k
  {
    if k > 0 {
      assert SamePage(a[i], b[i]);
      SameArcs(a, b, i, k - 1, paths);
      SameTargets(a, b, i, k - 1, paths);
    } else if i > 0 {
      assert SamePage(a[i - 1], b[i - 1]);
      SameArcs(a, b, i - 1, |a[i - 1].links|, paths);
    }
  }

  lemma {:induction false} SameSources(arcs: seq<Arc>, a: seq<Page>, b: seq<Page>, q: nat)
    requires SameInputs(a, b) && Inside(arcs, |a|)
    ensures Sources(arcs, a, q) == Sources(arcs, b, q) && EdgeMap(arcs, a) == EdgeMap(arcs, b)
  {
    if arcs != [] {
      SameSources(arcs[..|arcs| - 1], a, b, q);
      assert SamePage(a[arcs[|arcs| - 1].0], b[arcs[|arcs| - 1].0]);
      assert SamePage(a[arcs[|arcs| - 1].1], b[arcs[|arcs| - 1].1]);
    }
  }

  lemma ResolvedSameInputs(pages: seq<Page>, paths: Paths)
    ensures SameInputs(pages, Resolved(pages, paths)) && SameInputs(pages, Cleared(Resolved(pages, paths)))
  {
  }

  lemma ResolvedPageAgain(pages: seq<Page>, paths: Paths, p: nat)
    requires p < |pages|
    ensures Resolved(Cleared(Resolved(pages, paths)), paths)[p] == Resolved(pages, paths)[p]
  {
    var r := Resolved(pages, paths);
    var again := Cleared(r);
    ResolvedSameInputs(pages, paths);
    SameArcs(pages, again, |pages|, 0, paths);
    ArcsAreLinks(pages, |pages|, 0, paths);
    SameSources(AllArcs(pages, paths), pages, again, p);
    forall k | 0 <= k < |pages[p].links|
      ensures LinksAt(again, p, |again[p].links|, paths)[k] == r[p].links[k]
    {
      SameTargets(pages, again, p, k, paths);
      var t := TargetOf(pages, p, k, paths);
      assert t.Some? ==> SamePage(pages[t.value], again[t.value]);
    }
    assert LinksAt(again, p, |again[p].links|, paths) == r[p].links;
  }

  lemma SameSlugs(a: seq<Page>, b: seq<Page>)
    requires SameInputs(a, b)
    ensures Slugs(a) == Slugs(b)
  {
    assert forall i :: 0 <= i < |a| ==> SamePage(a[i], b[i]);
  }

  lemma {:induction false} SameNodes(a: seq<Page>, b: seq<Page>, edges: seq<Edge>)
    requires SameInputs(a, b)
    ensures NodesOf(a, edges) == NodesOf(b, edges)
  {
    if a != [] {
      var n := |a| - 1;
      SameNodes(a[..n], b[..n], edges);
      SameSlugs(a[..n], b[..n]);
      assert SamePage(a[n], b[n]);
    }
  }

  lemma CanonicalAgain(pages: seq<Page>, paths: Paths)
    ensures var r := Resolved(Canonical(pages), paths); DistinctSlugs(r) && Canonical(r) == Cleared(r)
  {
    var c := Canonical(pages);
    var r := Resolved(c, paths);
    ByIsAnOrder(PathKey);
    SortSorts(pages, By(PathKey));
    FirstsAreDistinct(Sort(pages, By(PathKey)));
    FirstsStaySorted(Sort(pages, By(PathKey)));
    forall i, j | 0 <= i < j < |r| ensures !KeyLess(PathKey(r[j]), PathKey(r[i])) && r[i].slug != r[j].slug {
      assert r[i].path == c[i].path && r[j].path == c[j].path;
      assert !KeyLess(PathKey(c[j]), PathKey(c[i]));
    }
    SortedStays(r, By(PathKey));
    DistinctStay(r);
  }

  /** Resolving the result again changes neither the pages nor the graph. */
  lemma ResolvingIsIdempotent(pages: seq<Page>, paths: Paths, edges: seq<Edge>, again: seq<Edge>)
    requires var c := Canonical(pages);
      Inside(AllArcs(c, paths), |c|) && IsEdgeList(edges, EdgeMap(AllArcs(c, paths), c))
    requires var c := Canonical(Resolved(Canonical(pages), paths));
      Inside(AllArcs(c, paths), |c|) && IsEdgeList(again, EdgeMap(AllArcs(c, paths), c))
    ensures var r := Resolved(Canonical(pages), paths);
      && Resolved(Canonical(r), paths) == r && again == edges
      && GraphOf(Resolved(Canonical(r), paths), again) == GraphOf(r, edges)
  {
    var c := Canonical(pages);
    var r := Resolved(c, paths);
    CanonicalAgain(pages, paths);
    forall p | 0 <= p < |r| ensures Resolved(Canonical(r), paths)[p] == r[p] { ResolvedPageAgain(c, paths, p); }
    assert Resolved(Canonical(r), paths) == r;
    ResolvedSameInputs(c, paths);
    SameArcs(c, Canonical(r), |c|, 0, paths);
    SameSources(AllArcs(c, paths), c, Canonical(r), 0);
    ByIsAnOrder(EdgeKey);
    IncreasingIsUnique(edges, again, By(EdgeKey));
  }
}
