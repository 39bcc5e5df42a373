/**
 * The index page's two views of the document list: the documents grouped
 * by source name, and one directory tree per source.  Both are built by
 * first collecting each source's documents in a map; the order in which
 * the groups and trees come out is the map's iteration order, which Go
 * leaves unspecified and which is a parameter here (`order`, every source
 * name once).
 */
module Index {
  import opened Wrappers
  import opened Models
  import opened Tree

  /** The documents of one source, in list order. */
  function GroupOf(docs: seq<Document>, name: string): seq<Document> {
    if docs == [] then []
    else
      var last := docs[|docs| - 1];
      var rest := GroupOf(docs[..|docs| - 1], name);
      if last.sourceName == name then rest + [last] else rest
  }

  /** The source names that occur in the list. */
  function SourceNames(docs: seq<Document>): set<string> {
    set d | d in docs :: d.sourceName
  }

  /** `order` lists every key once: an iteration order of a map with these keys. */
  predicate IsOrderOf(order: seq<string>, keys: set<string>) {
    && (forall i, j :: 0 <= i < j < |order| ==> order[i] != order[j])
    && (forall i :: 0 <= i < |order| ==> order[i] in keys)
    && (forall k :: k in keys ==> k in order)
  }

  /** The map the grouping loop fills: source name to that source's documents so far. */
  function GroupMap(docs: seq<Document>): map<string, seq<Document>> {
    if docs == [] then map[]
    else
      var m := GroupMap(docs[..|docs| - 1]);
      var d := docs[|docs| - 1];
      m[d.sourceName := (if d.sourceName in m then m[d.sourceName] else []) + [d]]
  }

  /** The map has a key for each source and holds that source's documents under it. */
  lemma {:induction false} GroupMapHoldsGroups(docs: seq<Document>)
    ensures GroupMap(docs).Keys == SourceNames(docs)
    ensures forall n :: n in GroupMap(docs) ==> GroupMap(docs)[n] == GroupOf(docs, n)
  {
    if docs != [] {
      var init := docs[..|docs| - 1];
      GroupMapHoldsGroups(init);
      assert docs == init + [docs[|docs| - 1]];
      assert SourceNames(docs) == SourceNames(init) + {docs[|docs| - 1].sourceName};
      forall n | n in GroupMap(init) && n != docs[|docs| - 1].sourceName
        ensures GroupOf(docs, n) == GroupOf(init, n)
      {
      }
      forall n | n !in GroupMap(init)
        ensures GroupOf(init, n) == []
      {
        GroupMembershipEmpty(init, n);
      }
    }
  }

  lemma {:induction false} GroupMembershipEmpty(docs: seq<Document>, n: string)
    requires n !in SourceNames(docs)
    ensures GroupOf(docs, n) == []
  {
    if docs != [] {
      var init := docs[..|docs| - 1];
      assert docs == init + [docs[|docs| - 1]];
      assert SourceNames(docs) == SourceNames(init) + {docs[|docs| - 1].sourceName};
      GroupMembershipEmpty(init, n);
    }
  }

  /** A document is in a source's group exactly when it is in the list and has that source name. */
  lemma {:induction false} GroupMembership(docs: seq<Document>, name: string, d: Document)
    ensures d in GroupOf(docs, name) <==> d in docs && d.sourceName == name
  {
    if docs != [] {
      var init := docs[..|docs| - 1];
      GroupMembership(init, name, d);
      assert docs == init + [docs[|docs| - 1]];
    }
  }

  /** A group holds every copy of each of its documents that the list holds. */
  lemma {:induction false} GroupCopies(docs: seq<Document>, name: string, d: Document)
    ensures multiset(GroupOf(docs, name))[d] == if d.sourceName == name then multiset(docs)[d] else 0
  {
    if docs != [] {
      var init := docs[..|docs| - 1];
      GroupCopies(init, name, d);
      assert docs == init + [docs[|docs| - 1]];
    }
  }

  /** The grouping loop over the document list. */
  method CollectGroups(docs: seq<Document>) returns (groupMap: map<string, seq<Document>>)
    ensures groupMap == GroupMap(docs)
  {
    groupMap := map[];
    for i := 0 to |docs|
      invariant groupMap == GroupMap(docs[..i])
    {
      assert docs[..i + 1][..i] == docs[..i];
      var name := docs[i].sourceName;
      var existing := if name in groupMap then groupMap[name] else [];
      groupMap := groupMap[name := existing + [docs[i]]];
    }
    assert docs[..|docs|] == docs;
  }

  /** GroupDocumentsByDirectory: one group per source, each with its documents in list order. */
  method GroupDocumentsByDirectory(docs: seq<Document>, order: seq<string>) returns (groups: seq<DirectoryGroup>)
    requires IsOrderOf(order, SourceNames(docs))
    ensures |groups| == |order|
    ensures forall i :: 0 <= i < |order| ==> groups[i] == DirectoryGroup(order[i], GroupOf(docs, order[i]))
  {
    var groupMap := CollectGroups(docs);
    GroupMapHoldsGroups(docs);
    groups := [];
    for i := 0 to |order|
      invariant |groups| == i
      invariant forall j :: 0 <= j < i ==> groups[j] == DirectoryGroup(order[j], GroupOf(docs, order[j]))
    {
      groups := groups + [DirectoryGroup(order[i], groupMap[order[i]])];
    }
  }

  /** The number of documents in the groups of the names in `order`. */
  function Total(docs: seq<Document>, order: seq<string>): nat {
    if order == [] then 0 else |GroupOf(docs, order[0])| + Total(docs, order[1..])
  }

  lemma {:induction false} TotalAppend(docs: seq<Document>, d: Document, order: seq<string>)
    requires forall i, j :: 0 <= i < j < |order| ==> order[i] != order[j]
    ensures Total(docs + [d], order) == Total(docs, order) + if d.sourceName in order then 1 else 0
  {
    if order != [] {
      assert (docs + [d])[..|docs + [d]| - 1] == docs;
      TotalAppend(docs, d, order[1..]);
      assert d.sourceName in order <==> d.sourceName == order[0] || d.sourceName in order[1..];
    }
  }

  lemma {:induction false} TotalCounts(docs: seq<Document>, order: seq<string>)
    requires forall i, j :: 0 <= i < j < |order| ==> order[i] != order[j]
    requires forall d :: d in docs ==> d.sourceName in order
    ensures Total(docs, order) == |docs|
  {
    if docs == [] {
      TotalEmpty(order);
    } else {
      var init := docs[..|docs| - 1];
      assert docs == init + [docs[|docs| - 1]];
      TotalCounts(init, order);
      TotalAppend(init, docs[|docs| - 1], order);
    }
  }

  lemma {:induction false} TotalEmpty(order: seq<string>)
    ensures Total([], order) == 0
  {
    if order != [] {
      TotalEmpty(order[1..]);
    }
  }

  /**
   * The groups partition the list: each document is in the group of its
   * source name and in no other, and the group sizes add up to the length
   * of the list.
   */
  lemma GroupsPartition(docs: seq<Document>, order: seq<string>, d: Document, i: nat)
    requires IsOrderOf(order, SourceNames(docs))
    requires i < |order|
    ensures d in GroupOf(docs, order[i]) <==> d in docs && d.sourceName == order[i]
    ensures d in docs ==> d.sourceName in order
    ensures Total(docs, order) == |docs|
  {
    GroupMembership(docs, order[i], d);
    assert forall e :: e in docs ==> e.sourceName in SourceNames(docs);
    TotalCounts(docs, order);
  }

  // ---------------------------------------------------------------------
  // Trees (BuildDirectoryTrees)
  // ---------------------------------------------------------------------

  /** The nodes of a source's tree after inserting its documents in order. */
  function TreeOf(sourceName: string, docs: seq<Document>, rel: (string, string) -> Option<string>): (nodes: seq<TreeNode>)
    ensures WellFormed(nodes) && |nodes| > 0
  {
    if docs == [] then [RootNode(sourceName)]
    else
      var d := docs[|docs| - 1];
      Insert(TreeOf(sourceName, docs[..|docs| - 1], rel), Segments(d, rel(d.sourceDir, d.path)), d)
  }

  /** A source's tree is valid: only the root open, sibling names distinct, files exactly the nodes with documents. */
  lemma {:induction false} TreeOfValid(sourceName: string, docs: seq<Document>, rel: (string, string) -> Option<string>)
    ensures ValidTree(TreeOf(sourceName, docs, rel), sourceName)
  {
    if docs != [] {
      var d := docs[|docs| - 1];
      TreeOfValid(sourceName, docs[..|docs| - 1], rel);
      InsertValid(TreeOf(sourceName, docs[..|docs| - 1], rel), sourceName, Segments(d, rel(d.sourceDir, d.path)), d);
    }
  }

  /** Every document of a source can be found in its tree by following its path's segments. */
  lemma {:induction false} EveryDocumentInTree(sourceName: string, docs: seq<Document>, rel: (string, string) -> Option<string>, k: nat)
    requires k < |docs|
    ensures var nodes := TreeOf(sourceName, docs, rel);
            Resolve(nodes, 0, Segments(docs[k], rel(docs[k].sourceDir, docs[k].path)), 0).Some?
  {
    var d := docs[|docs| - 1];
    var init := docs[..|docs| - 1];
    var before := TreeOf(sourceName, init, rel);
    var parts := Segments(d, rel(d.sourceDir, d.path));
    var after := TreeOf(sourceName, docs, rel);
    if k == |docs| - 1 {
      InsertResolves(before, 0, parts, 0, d);
    } else {
      EveryDocumentInTree(sourceName, init, rel, k);
      InsertFrame(before, 0, parts, 0, d);
      assert docs[k] == init[k];
      ResolveStable(before, after, 0, Segments(docs[k], rel(docs[k].sourceDir, docs[k].path)), 0);
    }
  }

  /** A new tree for one source, its documents inserted in list order. */
  method BuildTree(sourceName: string, group: seq<Document>, rel: (string, string) -> Option<string>)
    returns (root: DirectoryTree)
    ensures fresh(root) && root.name == sourceName
    ensures root.nodes == TreeOf(sourceName, group, rel)
  {
    root := new DirectoryTree(sourceName);
    for k := 0 to |group|
      invariant fresh(root) && root.name == sourceName && root.Valid()
      invariant root.nodes == TreeOf(sourceName, group[..k], rel)
    {
      assert group[..k + 1][..k] == group[..k];
      TreeOfValid(sourceName, group[..k + 1], rel);
      var doc := group[k];
      root.AddDocument(doc, rel(doc.sourceDir, doc.path));
    }
    assert group[..|group|] == group;
  }

  /**
   * BuildDirectoryTrees: one new tree per source, built from that source's
   * documents in list order (each a valid tree, as TreeOf ensures).
   */
  method BuildDirectoryTrees(docs: seq<Document>, order: seq<string>, rel: (string, string) -> Option<string>)
    returns (trees: seq<DirectoryTree>)
    requires IsOrderOf(order, SourceNames(docs))
    ensures |trees| == |order|
    ensures forall i :: 0 <= i < |order| ==> fresh(trees[i]) && trees[i].name == order[i]
    ensures forall i :: 0 <= i < |order| ==> trees[i].nodes == TreeOf(order[i], GroupOf(docs, order[i]), rel)
    ensures forall i, j :: 0 <= i < j < |order| ==> trees[i] != trees[j]
  {
    var groups := GroupDocumentsByDirectory(docs, order);
    trees := [];
    for i := 0 to |groups|
      invariant |trees| == i
      invariant forall j :: 0 <= j < i ==> fresh(trees[j]) && trees[j].name == groups[j].name
      invariant forall j :: 0 <= j < i ==> trees[j].nodes == TreeOf(groups[j].name, groups[j].documents, rel)
    {
      var root := BuildTree(groups[i].name, groups[i].documents, rel);
      trees := trees + [root];
    }
    forall j, k | 0 <= j < k < |order| ensures trees[j] != trees[k] {
      assert trees[j].name != trees[k].name;
    }
  }
}
