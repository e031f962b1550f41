/** What the pages of a wiki say about each other, told page by page and without the indexes. */
module PageLinks {
  import opened Options
  import opened Strings
  import opened Sorting
  import opened Relationships

  // ------------------------------------------------------------------ where a link leads

  predicate IsSlug(pages: seq<Page>, raw: string) {
    exists i :: 0 <= i < |pages| && pages[i].slug == raw
  }

  predicate EndsInMd(raw: string) {
    |raw| >= 3 && raw[|raw| - 3..] in {".md", ".mD", ".Md", ".MD"}
  }

  /** `q` is the last page with this normalised path. */
  predicate LastAt(pages: seq<Page>, path: string, q: nat, paths: Paths) {
    && q < |pages| && paths.normal(pages[q].path) == path
    && forall later :: q < later < |pages| ==> paths.normal(pages[later].path) != path
  }

  /** A link whose raw target is a slug leads to the page with that slug. Any other one that ends in
      ".md" leads to the last page at the path it names from its source, and the rest lead nowhere. */
  predicate LeadsTo(pages: seq<Page>, source: string, raw: string, q: nat, paths: Paths) {
    if IsSlug(pages, raw) then q < |pages| && pages[q].slug == raw
    else EndsInMd(raw) && LastAt(pages, paths.normal(paths.join(source, raw)), q, paths)
  }

  lemma MarkdownEnding(raw: string)
    ensures IsMarkdown(raw) <==> EndsInMd(raw)
  {
    if |raw| >= 3 {
      var end := raw[|raw| - 3..];
      assert end == [raw[|raw| - 3], raw[|raw| - 2], raw[|raw| - 1]];
    }
  }

  lemma {:induction false} SlugIsIndexed(pages: seq<Page>, slug: string)
    ensures slug in BySlug(pages) <==> IsSlug(pages, slug)
  {
    if pages != [] {
      var rest, last := pages[..|pages| - 1], pages[|pages| - 1];
      SlugIsIndexed(rest, slug);
      if IsSlug(rest, slug) {
        var i :| 0 <= i < |rest| && rest[i].slug == slug;
        assert pages[i].slug == slug;
      }
      if IsSlug(pages, slug) && slug != last.slug {
        var i :| 0 <= i < |pages| && pages[i].slug == slug;
        assert rest[i].slug == slug;
      }
    }
  }

  lemma {:induction false} PathIsIndexed(pages: seq<Page>, path: string, q: nat, paths: Paths)
    ensures path in ByPath(pages, paths) && ByPath(pages, paths)[path] == q <==> LastAt(pages, path, q, paths)
  {
    if pages != [] {
      var n := |pages| - 1;
      PathIsIndexed(pages[..n], path, q, paths);
      if paths.normal(pages[n].path) == path {
        assert LastAt(pages, path, q, paths) <==> q == n;
      } else {
        assert LastAt(pages, path, q, paths) <==> LastAt(pages[..n], path, q, paths);
      }
    }
  }

  lemma SlugLeads(pages: seq<Page>, raw: string, q: nat)
    requires DistinctSlugs(pages) && IsSlug(pages, raw)
    ensures raw in BySlug(pages) && (BySlug(pages)[raw] == q <==> q < |pages| && pages[q].slug == raw)
  {
    SlugIsIndexed(pages, raw);
    SlugIndex(pages, raw);
  }

  lemma {:induction false} SlugIndex(pages: seq<Page>, slug: string)
    requires slug in BySlug(pages)
    ensures BySlug(pages)[slug] < |pages| && pages[BySlug(pages)[slug]].slug == slug
  {
    if slug != pages[|pages| - 1].slug { SlugIndex(pages[..|pages| - 1], slug); }
  }

  /** A link leads exactly where the pages say. */
  lemma LinkLeads(pages: seq<Page>, p: nat, k: nat, q: nat, paths: Paths)
    requires DistinctSlugs(pages) && p < |pages| && k < |pages[p].links|
    ensures TargetOf(pages, p, k, paths) == Some(q) <==> LeadsTo(pages, pages[p].path, pages[p].links[k].raw, q, paths)
  {
    var raw, source := pages[p].links[k].raw, pages[p].path;
    SlugIsIndexed(pages, raw);
    if IsSlug(pages, raw) {
      SlugLeads(pages, raw, q);
    } else {
      MarkdownEnding(raw);
      PathIsIndexed(pages, paths.normal(paths.join(source, raw)), q, paths);
    }
  }

  /** Some link of page `p` leads to page `q`. */
  predicate Points(pages: seq<Page>, p: nat, q: nat, paths: Paths)
    requires p < |pages|
  {
    exists k :: 0 <= k < |pages[p].links| && LeadsTo(pages, pages[p].path, pages[p].links[k].raw, q, paths)
  }

  lemma PointsIsLinksTo(pages: seq<Page>, p: nat, q: nat, paths: Paths)
    requires DistinctSlugs(pages) && p < |pages|
    ensures LinksTo(pages, p, q, paths) <==> Points(pages, p, q, paths)
  {
    forall k | 0 <= k < |pages[p].links|
      ensures TargetOf(pages, p, k, paths) == Some(q)
        <==> LeadsTo(pages, pages[p].path, pages[p].links[k].raw, q, paths)
    {
      LinkLeads(pages, p, k, q, paths);
    }
  }

  predicate LeadsNowhere(pages: seq<Page>, source: string, raw: string, paths: Paths) {
    forall q :: 0 <= q < |pages| ==> !LeadsTo(pages, source, raw, q, paths)
  }

  /** What following makes of a link. */
  ghost predicate IsFollowed(pages: seq<Page>, source: string, link: Link, now: Link, paths: Paths) {
    && now.raw == link.raw
    && (forall q :: 0 <= q < |pages| && LeadsTo(pages, source, link.raw, q, paths) ==>
          now.resolved && now.target == pages[q].slug)
    && (LeadsNowhere(pages, source, link.raw, paths) ==> now == link)
  }

  lemma FollowedIs(pages: seq<Page>, p: nat, k: nat, paths: Paths)
    requires DistinctSlugs(pages) && p < |pages| && k < |pages[p].links|
    ensures IsFollowed(pages, pages[p].path, pages[p].links[k],
                       Followed(pages[p].links[k], TargetOf(pages, p, k, paths), pages), paths)
  {
    forall q: nat
      ensures TargetOf(pages, p, k, paths) == Some(q)
        <==> LeadsTo(pages, pages[p].path, pages[p].links[k].raw, q, paths)
    {
      LinkLeads(pages, p, k, q, paths);
    }
  }

  // ------------------------------------------------------------------ which pages there are

  /** Of the pages with this slug, the one of the least path, and among equal paths the first. */
  predicate IsFirst(pages: seq<Page>, i: nat) {
    i < |pages| && forall j :: 0 <= j < |pages| && j != i && pages[j].slug == pages[i].slug ==>
      StringLess(pages[i].path, pages[j].path) || (pages[i].path == pages[j].path && i < j)
  }

  /** One page for each slug, in path order, and what of each slug is kept. */
  ghost predicate IsCanonical(pages: seq<Page>, c: seq<Page>) {
    && DistinctSlugs(c) && (forall i, j :: 0 <= i < j < |c| ==> !StringLess(c[j].path, c[i].path))
    && (forall i :: 0 <= i < |pages| ==> IsSlug(c, pages[i].slug))
    && (forall k :: 0 <= k < |c| ==> exists i: nat :: IsFirst(pages, i) && c[k] == pages[i].(backlinks := []))
  }

  lemma {:induction false} FirstsAreFirst(s: seq<Page>, k: nat) returns (m: nat)
    requires k < |FirstOfEach(s)|
    ensures m < |s| && FirstOfEach(s)[k] == s[m].(backlinks := [])
    ensures forall i :: 0 <= i < m ==> s[i].slug != s[m].slug
  {
    var n := |s| - 1;
    var before := FirstOfEach(s[..n]);
    if k < |before| {
      m := FirstsAreFirst(s[..n], k);
    } else {
      m := n;
      FirstsAreDistinct(s[..n]);
      forall i | 0 <= i < n ensures s[i].slug != s[n].slug { assert s[..n][i].slug in Slugs(s[..n]); }
    }
  }

  /** `s` holds the pages in path order, those with equal paths as they were. */
  ghost predicate InPathOrder(pages: seq<Page>, s: seq<Page>, origins: seq<nat>) {
    && |s| == |origins| && (forall i :: 0 <= i < |s| ==> origins[i] < |pages| && s[i] == pages[origins[i]])
    && Reaches(origins, |pages|)
    && (forall i, j :: 0 <= i < j < |s| ==> PathBefore(s[i], origins[i], s[j], origins[j]))
  }

  predicate PathBefore(a: Page, i: nat, b: Page, j: nat) {
    StringLess(a.path, b.path) || (a.path == b.path && i < j)
  }

  lemma FirstInOrder(pages: seq<Page>, s: seq<Page>, origins: seq<nat>, m: nat)
    requires InPathOrder(pages, s, origins) && m < |s| && forall i :: 0 <= i < m ==> s[i].slug != s[m].slug
    ensures IsFirst(pages, origins[m])
  {
    var i := origins[m];
    forall j | 0 <= j < |pages| && j != i && pages[j].slug == pages[i].slug
      ensures StringLess(pages[i].path, pages[j].path) || (pages[i].path == pages[j].path && i < j)
    {
      assert j in origins;
      var n :| 0 <= n < |origins| && origins[n] == j;
      assert s[n].slug == s[m].slug && m < n;
      assert PathBefore(s[m], origins[m], s[n], origins[n]);
    }
  }

  lemma PathOrder(a: Page, b: Page)
    ensures By(PathKey)(a, b) <==> StringLess(a.path, b.path)
  {
    assert PathKey(a) == [a.path] && PathKey(b) == [b.path];
    KeyOfOne(a.path, b.path);
  }

  lemma PathsInOrder(pages: seq<Page>) returns (origins: seq<nat>)
    ensures InPathOrder(pages, Sort(pages, By(PathKey)), origins)
  {
    var s := Sort(pages, By(PathKey));
    ByIsAnOrder(PathKey);
    SortSorts(pages, By(PathKey));
    origins := SortOrigins(pages, By(PathKey));
    forall i, j | 0 <= i < j < |s| ensures PathBefore(s[i], origins[i], s[j], origins[j]) {
      assert !By(PathKey)(s[j], s[i]);
      PathOrder(s[j], s[i]);
      PathOrder(s[i], s[j]);
      StringOrder(s[i].path, s[j].path, s[i].path);
    }
  }

  lemma SlugIsThere(pages: seq<Page>, slug: string)
    ensures slug in Slugs(pages) <==> IsSlug(pages, slug)
  {
  }

  lemma KeptIsFirst(pages: seq<Page>, s: seq<Page>, origins: seq<nat>, k: nat)
    requires InPathOrder(pages, s, origins) && k < |FirstOfEach(s)|
    ensures exists i: nat :: IsFirst(pages, i) && FirstOfEach(s)[k] == pages[i].(backlinks := [])
  {
    var m := FirstsAreFirst(s, k);
    FirstInOrder(pages, s, origins, m);
  }

  lemma SlugIsKept(pages: seq<Page>, s: seq<Page>, origins: seq<nat>, i: nat)
    requires InPathOrder(pages, s, origins) && i < |pages|
    ensures IsSlug(FirstOfEach(s), pages[i].slug)
  {
    assert i in origins;
    var m :| 0 <= m < |origins| && origins[m] == i;
    assert s[m].slug in Slugs(s);
    FirstsAreDistinct(s);
    SlugIsThere(FirstOfEach(s), pages[i].slug);
  }

  /** Resolution starts from one page for each slug. */
  lemma CanonicalIs(pages: seq<Page>)
    ensures IsCanonical(pages, Canonical(pages))
  {
    var s, c := Sort(pages, By(PathKey)), Canonical(pages);
    var origins := PathsInOrder(pages);
    FirstsAreDistinct(s);
    ByIsAnOrder(PathKey);
    SortSorts(pages, By(PathKey));
    FirstsStaySorted(s);
    forall i, j | 0 <= i < j < |c| ensures !StringLess(c[j].path, c[i].path) { PathOrder(c[j], c[i]); }
    forall i | 0 <= i < |pages| ensures IsSlug(c, pages[i].slug) { SlugIsKept(pages, s, origins, i); }
    forall k | 0 <= k < |c| ensures exists i: nat :: IsFirst(pages, i) && c[k] == pages[i].(backlinks := []) {
      KeptIsFirst(pages, s, origins, k);
    }
  }

  // ------------------------------------------------------------------ pages and backlinks

  ghost predicate IsBacklink(pages: seq<Page>, slug: string, q: nat, paths: Paths) {
    exists p :: 0 <= p < |pages| && pages[p].slug == slug && Points(pages, p, q, paths)
  }

  predicate StringsIncrease(s: seq<string>) {
    forall i, j :: 0 <= i < j < |s| ==> StringLess(s[i], s[j])
  }

  /** A page when all links have been followed. */
  ghost predicate PageDone(pages: seq<Page>, q: nat, r: Page, paths: Paths)
    requires q < |pages|
  {
    var page := pages[q];
    && r == page.(links := r.links, backlinks := r.backlinks) && |r.links| == |page.links|
    && (forall k :: 0 <= k < |r.links| ==> IsFollowed(pages, page.path, page.links[k], r.links[k], paths))
    && StringsIncrease(r.backlinks)
    && (forall slug :: slug in r.backlinks <==> IsBacklink(pages, slug, q, paths))
  }

  ghost predicate PagesDone(pages: seq<Page>, r: seq<Page>, paths: Paths) {
    |r| == |pages| && forall q :: 0 <= q < |r| ==> PageDone(pages, q, r[q], paths)
  }

  lemma BacklinkSlug(pages: seq<Page>, q: nat, paths: Paths, slug: string)
    requires DistinctSlugs(pages) && q < |pages| && Inside(AllArcs(pages, paths), |pages|)
    ensures slug in Sources(AllArcs(pages, paths), pages, q) <==> IsBacklink(pages, slug, q, paths)
  {
    var arcs := AllArcs(pages, paths);
    SourcesAre(arcs, pages, q, slug);
    forall p | 0 <= p < |pages| ensures (p, q) in arcs <==> Points(pages, p, q, paths) {
      ArcsAreExactlyLinks(pages, paths, p, q);
      PointsIsLinksTo(pages, p, q, paths);
    }
    if a :| a in arcs && a.1 == q && pages[a.0].slug == slug {
      assert a == (a.0, q);
    }
    if IsBacklink(pages, slug, q, paths) {
      var p :| 0 <= p < |pages| && pages[p].slug == slug && Points(pages, p, q, paths);
      assert (p, q) in arcs && (p, q).1 == q && pages[(p, q).0].slug == slug;
    }
  }

  lemma StringKeysIncrease(s: seq<string>)
    requires Increasing(s, By(StringKey))
    ensures StringsIncrease(s)
  {
    forall i, j | 0 <= i < j < |s| ensures StringLess(s[i], s[j]) {
      assert By(StringKey)(s[i], s[j]);
      assert StringKey(s[i]) == [s[i]] && StringKey(s[j]) == [s[j]];
      KeyOfOne(s[i], s[j]);
    }
  }

  lemma PageIsDone(pages: seq<Page>, q: nat, paths: Paths)
    requires DistinctSlugs(pages) && q < |pages|
    ensures PageDone(pages, q, Resolved(pages, paths)[q], paths)
  {
    var r, arcs := Resolved(pages, paths)[q], AllArcs(pages, paths);
    ArcsAreLinks(pages, |pages|, 0, paths);
    forall k | 0 <= k < |r.links| ensures IsFollowed(pages, pages[q].path, pages[q].links[k], r.links[k], paths) {
      FollowedIs(pages, q, k, paths);
    }
    UniqueStringsAre(Sources(arcs, pages, q));
    StringKeysIncrease(r.backlinks);
    forall slug ensures slug in r.backlinks <==> IsBacklink(pages, slug, q, paths) {
      BacklinkSlug(pages, q, paths, slug);
    }
  }

  /** Resolution, told over the pages alone. */
  lemma PagesAreDone(pages: seq<Page>, paths: Paths)
    requires DistinctSlugs(pages)
    ensures PagesDone(pages, Resolved(pages, paths), paths)
  {
    forall q | 0 <= q < |pages| ensures PageDone(pages, q, Resolved(pages, paths)[q], paths) {
      PageIsDone(pages, q, paths);
    }
  }

  // ------------------------------------------------------------------ the graph

  predicate EdgeBefore(a: Edge, b: Edge) {
    StringLess(a.source, b.source) || (a.source == b.source && StringLess(a.target, b.target))
  }

  predicate NodeBefore(a: Node, b: Node) {
    || StringLess(a.domain, b.domain)
    || (a.domain == b.domain && (StringLess(a.title, b.title) || (a.title == b.title && StringLess(a.id, b.id))))
  }

  predicate EdgesIncrease(edges: seq<Edge>) {
    forall i, j :: 0 <= i < j < |edges| ==> EdgeBefore(edges[i], edges[j])
  }

  predicate NodesIncrease(nodes: seq<Node>) {
    forall i, j :: 0 <= i < j < |nodes| ==> NodeBefore(nodes[i], nodes[j])
  }

  ghost predicate IsLinkEdge(pages: seq<Page>, e: Edge, paths: Paths) {
    exists p, q :: 0 <= p < |pages| && 0 <= q < |pages| && Points(pages, p, q, paths)
      && e == Edge(pages[p].slug, pages[q].slug)
  }

  function Into(edges: seq<Edge>, slug: string): set<Edge> {
    set e | e in edges && e.target == slug
  }

  function OutOf(edges: seq<Edge>, slug: string): set<Edge> {
    set e | e in edges && e.source == slug
  }

  /** A node stands for a page and counts the edges that end and start there. */
  predicate IsNode(p: Page, edges: seq<Edge>, n: Node) {
    && n.id == p.slug && n.title == p.title && n.domain == p.domain
    && n.inbound == |Into(edges, p.slug)| && n.outbound == |OutOf(edges, p.slug)|
  }

  ghost predicate IsPageNode(pages: seq<Page>, edges: seq<Edge>, n: Node) {
    exists p :: 0 <= p < |pages| && IsNode(pages[p], edges, n)
  }

  ghost predicate GraphDone(pages: seq<Page>, g: Graph, paths: Paths) {
    && (forall e :: e in g.edges ==> IsLinkEdge(pages, e, paths))
    && EdgesIncrease(g.edges)
    && |g.nodes| == |pages| && (forall n :: n in g.nodes ==> IsPageNode(pages, g.edges, n))
    && NodesIncrease(g.nodes)
    && g.totalNodes == |g.nodes| && g.totalEdges == |g.edges| && !g.truncated
  }

  lemma LinkEdge(pages: seq<Page>, e: Edge, paths: Paths)
    requires DistinctSlugs(pages) && Inside(AllArcs(pages, paths), |pages|)
    requires e in TrueEdges(AllArcs(pages, paths), pages)
    ensures IsLinkEdge(pages, e, paths)
  {
    var a :| a in AllArcs(pages, paths) && e == EdgeOf(a, pages);
    assert a == (a.0, a.1);
    ArcsAreExactlyLinks(pages, paths, a.0, a.1);
    PointsIsLinksTo(pages, a.0, a.1, paths);
  }

  lemma EdgesInOrder(edges: seq<Edge>)
    requires Increasing(edges, By(EdgeKey))
    ensures EdgesIncrease(edges)
  {
    forall i, j | 0 <= i < j < |edges| ensures EdgeBefore(edges[i], edges[j]) {
      var a, b := edges[i], edges[j];
      assert By(EdgeKey)(a, b);
      assert EdgeKey(a) == [a.source, a.target] && EdgeKey(b) == [b.source, b.target];
      KeyOfTwo(a.source, a.target, b.source, b.target);
    }
  }

  lemma IntoOneMore(edges: seq<Edge>, e: Edge, slug: string)
    requires e !in edges
    ensures |Into(edges + [e], slug)| == |Into(edges, slug)| + if e.target == slug then 1 else 0
  {
    var before, after := Into(edges, slug), Into(edges + [e], slug);
    assert forall x :: x in edges + [e] <==> x in edges || x == e;
    if e.target == slug { assert after == before + {e}; } else { assert after == before; }
  }

  lemma OutOneMore(edges: seq<Edge>, e: Edge, slug: string)
    requires e !in edges
    ensures |OutOf(edges + [e], slug)| == |OutOf(edges, slug)| + if e.source == slug then 1 else 0
  {
    var before, after := OutOf(edges, slug), OutOf(edges + [e], slug);
    assert forall x :: x in edges + [e] <==> x in edges || x == e;
    if e.source == slug { assert after == before + {e}; } else { assert after == before; }
  }

  lemma EdgesDiffer(a: Edge, b: Edge)
    requires EdgeBefore(a, b)
    ensures a != b
  {
    StringOrder(a.source, a.source, a.source);
    StringOrder(a.target, a.target, a.target);
  }

  lemma {:induction false} DegreesCount(edges: seq<Edge>, slug: string)
    requires EdgesIncrease(edges)
    ensures InDegree(edges, slug) == |Into(edges, slug)| && OutDegree(edges, slug) == |OutOf(edges, slug)|
  {
    if edges != [] {
      var n := |edges| - 1;
      var rest, last := edges[..n], edges[n];
      DegreesCount(rest, slug);
      forall i | 0 <= i < n ensures rest[i] != last { EdgesDiffer(edges[i], last); }
      IntoOneMore(rest, last, slug);
      OutOneMore(rest, last, slug);
      assert edges == rest + [last];
    }
  }

  lemma {:induction false} NodesOfDistinct(pages: seq<Page>, edges: seq<Edge>)
    requires DistinctSlugs(pages)
    ensures |NodesOf(pages, edges)| == |pages|
    ensures forall i :: 0 <= i < |pages| ==> NodesOf(pages, edges)[i] == NodeOf(pages[i], edges)
  {
    if pages != [] {
      var rest, last := pages[..|pages| - 1], pages[|pages| - 1];
      NodesOfDistinct(rest, edges);
      forall i | 0 <= i < |rest| ensures rest[i].slug != last.slug { assert pages[i] == rest[i]; }
    }
  }

  lemma NodeOrder(a: Node, b: Node)
    ensures By(NodeKey)(a, b) <==> NodeBefore(a, b)
  {
    assert NodeKey(a) == [a.domain, a.title, a.id] && NodeKey(b) == [b.domain, b.title, b.id];
    KeyOfThree(a.domain, a.title, a.id, b.domain, b.title, b.id);
  }

  lemma NodesAreDone(pages: seq<Page>, edges: seq<Edge>)
    requires DistinctSlugs(pages)
    requires EdgesIncrease(edges)
    ensures var nodes := GraphOf(pages, edges).nodes;
      && |nodes| == |pages| && (forall n :: n in nodes ==> IsPageNode(pages, edges, n))
      && NodesIncrease(nodes)
  {
    var all := NodesOf(pages, edges);
    var nodes := Sort(all, By(NodeKey));
    NodesOfDistinct(pages, edges);
    SortContains(all, By(NodeKey));
    forall n | n in nodes ensures IsPageNode(pages, edges, n) {
      var i :| 0 <= i < |all| && all[i] == n;
      DegreesCount(edges, pages[i].slug);
      assert IsNode(pages[i], edges, n);
    }
    forall i, j | 0 <= i < j < |all| ensures all[i].id != all[j].id {
      assert all[i].id == pages[i].slug && all[j].id == pages[j].slug;
    }
    NodesInOrder(all);
  }

  lemma NodesInOrder(all: seq<Node>)
    requires forall i, j :: 0 <= i < j < |all| ==> all[i].id != all[j].id
    ensures NodesIncrease(Sort(all, By(NodeKey)))
  {
    var nodes := Sort(all, By(NodeKey));
    ByIsAnOrder(NodeKey);
    SortSorts(all, By(NodeKey));
    var origins := SortOrigins(all, By(NodeKey));
    forall i, j | 0 <= i < j < |nodes| ensures NodeBefore(nodes[i], nodes[j]) {
      assert !By(NodeKey)(nodes[j], nodes[i]);
      assert nodes[i].id != nodes[j].id;
      NodeOrder(nodes[j], nodes[i]);
      DomainsOrder(nodes[i], nodes[j]);
    }
  }

  lemma DomainsOrder(a: Node, b: Node)
    requires a.id != b.id
    ensures NodeBefore(a, b) || NodeBefore(b, a)
  {
    StringOrder(a.domain, b.domain, a.domain);
    StringOrder(a.title, b.title, a.title);
    StringOrder(a.id, b.id, a.id);
  }

  lemma NodeOfPage(pages: seq<Page>, r: seq<Page>, edges: seq<Edge>, n: Node)
    requires SameInputs(pages, r) && IsPageNode(r, edges, n)
    ensures IsPageNode(pages, edges, n)
  {
    var p :| 0 <= p < |r| && IsNode(r[p], edges, n);
    assert SamePage(pages[p], r[p]);
    assert IsNode(pages[p], edges, n);
  }

  /** The graph, told over the pages alone. */
  lemma GraphIsDone(pages: seq<Page>, edges: seq<Edge>, paths: Paths)
    requires DistinctSlugs(pages) && Inside(AllArcs(pages, paths), |pages|)
    requires IsEdgeList(edges, EdgeMap(AllArcs(pages, paths), pages))
    ensures GraphDone(pages, GraphOf(Resolved(pages, paths), edges), paths)
  {
    var r := Resolved(pages, paths);
    ResolvedSameInputs(pages, paths);
    EdgeMapHolds(AllArcs(pages, paths), pages);
    forall e | e in edges ensures IsLinkEdge(pages, e, paths) { LinkEdge(pages, e, paths); }
    EdgesInOrder(edges);
    NodesAreDone(r, edges);
    forall n | n in GraphOf(r, edges).nodes ensures IsPageNode(pages, edges, n) { NodeOfPage(pages, r, edges, n); }
  }
}
