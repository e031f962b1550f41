/**
  The file tree of an item: listed up to a budget of nodes and a depth, with the cuts marked. The
  budget is shared by the whole tree: a folder listed early can leave nothing for one listed late.
  What a marked folder holds is open; an unmarked one shows everything, which is what a reader of
  the tree relies on.
 */
module FileTree {
  import opened NaturalOrder
  import opened Sorting

  const MAX_NODES: nat := 10000
  const MAX_DEPTH: nat := 64

  /** What is on disk. A link to a directory counts as a file. */
  datatype Entry = File(name: string) | Folder(name: string, readable: bool, entries: seq<Entry>)

  datatype Node = Node(name: string, isFolder: bool, children: seq<Node>, truncated: bool)

  datatype Result = Ok(nodes: seq<Node>, remaining: nat) | Unreadable

  // ------------------------------------------------------------------ the order of a listing

  predicate EntryLess(a: Entry, b: Entry, lower: char -> char) {
    if a.Folder? != b.Folder? then a.Folder? else NaturalLess(a.name, b.name, lower)
  }

  function Before(lower: char -> char): (Entry, Entry) -> bool {
    (a, b) => EntryLess(a, b, lower)
  }

  function SortEntries(s: seq<Entry>, lower: char -> char): (r: seq<Entry>)
    ensures |r| == |s|
  {
    Sort(s, Before(lower))
  }

  lemma BeforeIsAnOrder(lower: char -> char)
    requires KeepsDigits(lower)
    ensures WeakOrder(Before(lower))
  {
    forall a, b, c ensures OrderedTriple(Before(lower), a, b, c) {
      NaturalLessIsAWeakOrder(a.name, b.name, c.name, lower);
    }
  }

  /** No file before a folder, and among files as among folders the names in natural order. */
  ghost predicate InListingOrder(s: seq<Entry>, lower: char -> char) {
    forall i, j :: 0 <= i < j < |s| ==>
      && (s[j].Folder? ==> s[i].Folder?)
      && (s[i].Folder? == s[j].Folder? ==> !NaturalLess(s[j].name, s[i].name, lower))
  }

  /** Folders come first, names follow their natural order, and every entry is there as often as before. */
  lemma SortedInOrder(s: seq<Entry>, lower: char -> char)
    requires KeepsDigits(lower)
    ensures InListingOrder(SortEntries(s, lower), lower)
    ensures forall e :: Occurs(SortEntries(s, lower), e) == Occurs(s, e)
  {
    BeforeIsAnOrder(lower);
    SortSorts(s, Before(lower));
    forall e ensures Occurs(SortEntries(s, lower), e) == Occurs(s, e) { SortMembers(s, e, Before(lower)); }
    var r := SortEntries(s, lower);
    forall i, j | 0 <= i < j < |r|
      ensures r[j].Folder? ==> r[i].Folder?
      ensures r[i].Folder? == r[j].Folder? ==> !NaturalLess(r[j].name, r[i].name, lower)
    {
      assert !Before(lower)(r[j], r[i]);
    }
  }

  // ------------------------------------------------------------------ what a listing may be

  /** The nodes listed, at every level. */
  function Size(nodes: seq<Node>): nat {
    if nodes == [] then 0 else Size(nodes[..|nodes| - 1]) + 1 + Size(nodes[|nodes| - 1].children)
  }

  /** The node shows the entry; unless it is marked, a folder shows all that it holds, in order. */
  predicate Shows(n: Node, e: Entry, lower: char -> char)
    decreases n
  {
    && n.name == e.name && n.isFolder == e.Folder?
    && (e.File? ==> n.children == [] && !n.truncated)
    && (e.Folder? ==>
          && Lists(n.children, SortEntries(e.entries, lower), lower)
          && (!n.truncated ==> |n.children| == |e.entries|))
  }

  /** The nodes show the first of the entries. */
  predicate Lists(nodes: seq<Node>, entries: seq<Entry>, lower: char -> char)
    decreases nodes
  {
    |nodes| <= |entries| && forall i :: 0 <= i < |nodes| ==> Shows(nodes[i], entries[i], lower)
  }

  lemma SizeOfSum(nodes: seq<Node>, n: Node)
    ensures Size(nodes + [n]) == Size(nodes) + 1 + Size(n.children)
  {
    assert (nodes + [n])[..|nodes|] == nodes;
  }

  /** Nothing is marked as cut, at any level. */
  predicate Whole(nodes: seq<Node>)
    decreases nodes
  {
    forall i :: 0 <= i < |nodes| ==> !nodes[i].truncated && Whole(nodes[i].children)
  }

  /** Children at most so many levels down. */
  predicate Within(nodes: seq<Node>, levels: nat)
    decreases nodes
  {
    forall i :: 0 <= i < |nodes| && nodes[i].children != [] ==> levels > 0 && Within(nodes[i].children, levels - 1)
  }

  function LevelsBelow(depth: nat): nat {
    if depth < MAX_DEPTH then MAX_DEPTH - depth else 0
  }

  /** Every folder can be read, at every level. */
  predicate AllReadable(entries: seq<Entry>)
    decreases entries
  {
    forall i :: 0 <= i < |entries| && entries[i].Folder? ==> entries[i].readable && AllReadable(entries[i].entries)
  }

  /** How high the entries reach. */
  function Height(entries: seq<Entry>): nat {
    if entries == [] then 0
    else
      var last := entries[|entries| - 1];
      var below := if last.Folder? then 1 + Height(last.entries) else 0;
      var rest := Height(entries[..|entries| - 1]);
      if below > rest then below else rest
  }

  lemma {:induction false} HeightOf(entries: seq<Entry>, e: Entry)
    requires e in entries && e.Folder?
    ensures Height(e.entries) < Height(entries)
  {
    if e != entries[|entries| - 1] {
      assert entries == entries[..|entries| - 1] + [entries[|entries| - 1]];
      HeightOf(entries[..|entries| - 1], e);
    }
  }

  lemma {:induction false} NodeAdded(nodes: seq<Node>, node: Node, entries: seq<Entry>, lower: char -> char)
    requires Lists(nodes, entries, lower) && |nodes| < |entries| && Shows(node, entries[|nodes|], lower)
    ensures Lists(nodes + [node], entries, lower)
  {
    var all := nodes + [node];
    forall i | 0 <= i < |all| ensures Shows(all[i], entries[i], lower) {
      if i < |nodes| { assert all[i] == nodes[i]; }
    }
  }

  lemma {:induction false} WholeAdded(nodes: seq<Node>, node: Node)
    requires Whole(nodes) && !node.truncated && Whole(node.children)
    ensures Whole(nodes + [node])
  {
    var all := nodes + [node];
    forall i | 0 <= i < |all| ensures !all[i].truncated && Whole(all[i].children) {
      if i < |nodes| { assert all[i] == nodes[i]; }
    }
  }

  lemma {:induction false} WithinAdded(nodes: seq<Node>, node: Node, levels: nat)
    requires Within(nodes, levels) && (node.children != [] ==> levels > 0 && Within(node.children, levels - 1))
    ensures Within(nodes + [node], levels)
  {
    var all := nodes + [node];
    forall i | 0 <= i < |all| && all[i].children != [] ensures levels > 0 && Within(all[i].children, levels - 1) {
      if i < |nodes| { assert all[i] == nodes[i]; }
    }
  }

  lemma {:induction false} FolderShown(e: Entry, children: seq<Node>, truncated: bool, lower: char -> char)
    requires e.Folder? && Lists(children, SortEntries(e.entries, lower), lower)
    requires !truncated ==> |children| == |e.entries|
    ensures Shows(Node(e.name, true, children, truncated), e, lower)
  {
  }

  lemma {:induction false} NothingListed(entries: seq<Entry>, lower: char -> char)
    ensures Lists([], entries, lower) && Whole([])
  {
  }

  /** One node; `height` bounds what lies below. */
  method BuildNode(e: Entry, depth: nat, left: nat, ghost height: nat, lower: char -> char)
    returns (ok: bool, node: Node, remaining: nat)
    requires e.Folder? ==> Height(e.entries) < height
    ensures !ok ==> e.Folder? && !(e.readable && AllReadable(e.entries))
    ensures ok ==> Shows(node, e, lower) && remaining + Size(node.children) == left
    ensures ok && remaining > 0 && depth + height <= MAX_DEPTH ==> !node.truncated && Whole(node.children)
    ensures ok && node.children != [] ==> depth < MAX_DEPTH && Within(node.children, LevelsBelow(depth) - 1)
    decreases height, 0
  {
    ok, node, remaining := true, Node(e.name, e.Folder?, [], false), left;
    if e.Folder? {
      if depth >= MAX_DEPTH || left == 0 {
        node := node.(truncated := true);
        NothingListed(SortEntries(e.entries, lower), lower);
        FolderShown(e, [], true, lower);
      } else {
        var below := BuildTree(e.readable, e.entries, depth + 1, left, lower);
        if below.Unreadable? { return false, node, left; }
        node := node.(children := below.nodes, truncated := below.remaining == 0);
        remaining := below.remaining;
        FolderShown(e, below.nodes, below.remaining == 0, lower);
      }
    }
  }

  /** A listing under way: the first of the entries, paid for, and no deeper than allowed. */
  predicate Listed(nodes: seq<Node>, entries: seq<Entry>, left: nat, budget: nat, depth: nat, lower: char -> char) {
    Lists(nodes, entries, lower) && left + Size(nodes) == budget && Within(nodes, LevelsBelow(depth))
  }

  lemma NodeListed(
    nodes: seq<Node>, node: Node, entries: seq<Entry>, left: nat, remaining: nat, budget: nat, depth: nat,
    lower: char -> char)
    requires Listed(nodes, entries, left, budget, depth, lower) && |nodes| < |entries|
    requires Shows(node, entries[|nodes|], lower) && remaining + 1 + Size(node.children) == left
    requires node.children != [] ==> depth < MAX_DEPTH && Within(node.children, LevelsBelow(depth) - 1)
    ensures Listed(nodes + [node], entries, remaining, budget, depth, lower)
  {
    NodeAdded(nodes, node, entries, lower);
    SizeOfSum(nodes, node);
    WithinAdded(nodes, node, LevelsBelow(depth));
  }

  lemma {:induction false} NothingListedYet(entries: seq<Entry>, budget: nat, depth: nat, lower: char -> char)
    ensures Listed([], entries, budget, budget, depth, lower) && Whole([])
  {
  }

  /** The budget pays for every node; a listing is cut short only once it is spent, and a folder is
      marked only then or at the greatest depth. */
  method BuildTree(readable: bool, entries: seq<Entry>, depth: nat, budget: nat, lower: char -> char)
    returns (result: Result)
    ensures !readable ==> result.Unreadable?
    ensures result.Unreadable? ==> !(readable && AllReadable(entries))
    ensures result.Ok? ==>
      && Listed(result.nodes, SortEntries(entries, lower), result.remaining, budget, depth, lower)
      && (result.remaining > 0 && depth + Height(entries) <= MAX_DEPTH ==> Whole(result.nodes))
      && (|result.nodes| < |entries| ==> result.remaining == 0)
    decreases Height(entries), 1
  {
    if !readable { return Unreadable; }
    var sorted := SortEntries(entries, lower);
    SortContains(entries, Before(lower));
    var nodes: seq<Node>, left: nat := [], budget;
    NothingListedYet(sorted, budget, depth, lower);
    while |nodes| < |sorted| && left > 0
      invariant Listed(nodes, sorted, left, budget, depth, lower)
      invariant left > 0 && depth + Height(entries) <= MAX_DEPTH ==> Whole(nodes)
      decreases |sorted| - |nodes|
    {
      var e := sorted[|nodes|];
      if e.Folder? { HeightOf(entries, e); }
      var ok, node, remaining := BuildNode(e, depth, left - 1, Height(entries), lower);
      if !ok {
        assert !AllReadable(entries) by {
          var k :| 0 <= k < |entries| && entries[k] == e;
        }
        return Unreadable;
      }
      NodeListed(nodes, node, sorted, left, remaining, budget, depth, lower);
      if remaining > 0 && depth + Height(entries) <= MAX_DEPTH { WholeAdded(nodes, node); }
      nodes, left := nodes + [node], remaining;
    }
    result := Ok(nodes, left);
  }

  /** The listing of an item never exceeds the budget. */
  method Tree(readable: bool, entries: seq<Entry>, lower: char -> char) returns (result: Result)
    ensures readable && AllReadable(entries) ==> result.Ok?
    ensures result.Ok? ==>
      && Lists(result.nodes, SortEntries(entries, lower), lower)
      && Size(result.nodes) <= 10000 && Within(result.nodes, 64)
    ensures result.Ok? && |result.nodes| < |entries| ==> Size(result.nodes) == 10000
    ensures result.Ok? && Size(result.nodes) < 10000 && Height(entries) <= 64 ==> Whole(result.nodes)
  {
    result := BuildTree(readable, entries, 0, MAX_NODES, lower);
  }
}
