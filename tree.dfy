/**
 * The directory tree of one source: each document is inserted along the
 * segments of its path relative to the source directory.  A child with the
 * segment's name is reused; otherwise a new child is appended, a file leaf
 * carrying the document for the last segment and a directory node before it.
 *
 * The source links nodes by pointers and appends to a node's children
 * through whichever pointer reaches it.  Here a tree keeps all its nodes in
 * one sequence (`nodes[0]` is the root) and a child is the position of its
 * node in that sequence, so an update made through one position is seen by
 * every parent that lists it.
 */
module Tree {
  import opened Wrappers
  import opened GoStrings
  import opened Models

  datatype TreeNode = TreeNode(
    name: string,
    path: string,
    isFile: bool,
    document: Option<Document>,
    children: seq<nat>,
    isOpen: bool)

  /** The root of a source's tree: named after the source, open, no path. */
  function RootNode(sourceName: string): TreeNode {
    TreeNode(sourceName, "", false, None, [], true)
  }

  /** Every child is a later node of the tree, so the links form no cycle. */
  ghost predicate WellFormed(nodes: seq<TreeNode>) {
    forall m, j :: 0 <= m < |nodes| && 0 <= j < |nodes[m].children| ==> m < nodes[m].children[j] < |nodes|
  }

  /** No node has two children of the same name. */
  ghost predicate DistinctSiblings(nodes: seq<TreeNode>)
    requires WellFormed(nodes)
  {
    forall m, j, k :: 0 <= m < |nodes| && 0 <= j < k < |nodes[m].children| ==>
      nodes[nodes[m].children[j]].name != nodes[nodes[m].children[k]].name
  }

  /** Two nodes that agree on everything but their children. */
  predicate SameLabel(a: TreeNode, b: TreeNode) {
    a.name == b.name && a.path == b.path && a.isFile == b.isFile && a.document == b.document && a.isOpen == b.isOpen
  }

  /** `r` is `nodes` with nodes appended and children appended to existing nodes, nothing else. */
  ghost predicate Extends(nodes: seq<TreeNode>, r: seq<TreeNode>) {
    && |nodes| <= |r|
    && forall m :: 0 <= m < |nodes| ==> SameLabel(r[m], nodes[m]) && nodes[m].children <= r[m].children
  }

  /** A well-formed tree whose root is the source's root and whose only open node is the root. */
  ghost predicate ValidTree(nodes: seq<TreeNode>, sourceName: string) {
    && |nodes| > 0
    && WellFormed(nodes)
    && DistinctSiblings(nodes)
    && SameLabel(nodes[0], RootNode(sourceName))
    && (forall m :: 0 < m < |nodes| ==> !nodes[m].isOpen)
    && (forall m :: 0 <= m < |nodes| ==> (nodes[m].isFile <==> nodes[m].document.Some?))
  }

  // ---------------------------------------------------------------------
  // Child look-up
  // ---------------------------------------------------------------------

  /** The position in `cs`, from `k` on, of the first child named `name`. */
  function FirstNamed(nodes: seq<TreeNode>, cs: seq<nat>, name: string, k: nat): (p: Option<nat>)
    requires k <= |cs|
    requires forall j :: 0 <= j < |cs| ==> cs[j] < |nodes|
    ensures p.Some? ==> k <= p.value < |cs| && nodes[cs[p.value]].name == name
    ensures p.Some? ==> forall j :: k <= j < p.value ==> nodes[cs[j]].name != name
    ensures p.None? ==> forall j :: k <= j < |cs| ==> nodes[cs[j]].name != name
    decreases |cs| - k
  {
    if k == |cs| then None
    else if nodes[cs[k]].name == name then Some(k)
    else FirstNamed(nodes, cs, name, k + 1)
  }

  /** The first child of node `cur` named `name`, as the source's loop over the children finds it. */
  function Lookup(nodes: seq<TreeNode>, cur: nat, name: string): (c: Option<nat>)
    requires WellFormed(nodes) && cur < |nodes|
    ensures c.Some? ==> cur < c.value < |nodes| && nodes[c.value].name == name
  {
    var p := FirstNamed(nodes, nodes[cur].children, name, 0);
    if p.Some? then Some(nodes[cur].children[p.value]) else None
  }

  method FindChild(nodes: seq<TreeNode>, cur: nat, name: string) returns (found: Option<nat>)
    requires WellFormed(nodes) && cur < |nodes|
    ensures found == Lookup(nodes, cur, name)
  {
    var children := nodes[cur].children;
    for k := 0 to |children|
      invariant FirstNamed(nodes, children, name, k) == FirstNamed(nodes, children, name, 0)
    {
      if nodes[children[k]].name == name {
        return Some(children[k]);
      }
    }
    return None;
  }

  /** Following `parts[i..]` by name from node `cur`: the node reached, if every segment is found. */
  function Resolve(nodes: seq<TreeNode>, cur: nat, parts: seq<string>, i: nat): (r: Option<nat>)
    requires WellFormed(nodes) && cur < |nodes| && i <= |parts|
    ensures r.Some? ==> r.value < |nodes|
    decreases |parts| - i
  {
    if i == |parts| then Some(cur)
    else
      match Lookup(nodes, cur, parts[i])
      case Some(c) => Resolve(nodes, c, parts, i + 1)
      case None => None
  }

  // ---------------------------------------------------------------------
  // Insertion (addDocumentToTree)
  // ---------------------------------------------------------------------

  /** The path label built while descending: the segments so far joined by "/", an empty start skipped. */
  function NextPath(currentPath: string, part: string): string {
    if currentPath == "" then part else currentPath + "/" + part
  }

  /** The path label after the first `n` segments. */
  function PathOf(parts: seq<string>, n: nat): string
    requires n <= |parts|
  {
    if n == 0 then "" else NextPath(PathOf(parts, n - 1), parts[n - 1])
  }

  /** The node created for segment `i`: closed, a file leaf with the document only for the last segment. */
  function NewNode(parts: seq<string>, i: nat, doc: Document): TreeNode
    requires i < |parts|
  {
    var isFile := i == |parts| - 1;
    TreeNode(parts[i], PathOf(parts, i + 1), isFile, if isFile then Some(doc) else None, [], false)
  }

  /** Appends `node` to the tree as the last child of node `cur`. */
  function AddChild(nodes: seq<TreeNode>, cur: nat, node: TreeNode): seq<TreeNode>
    requires cur < |nodes|
  {
    nodes[cur := nodes[cur].(children := nodes[cur].children + [|nodes|])] + [node]
  }

  lemma AddChildWellFormed(nodes: seq<TreeNode>, cur: nat, node: TreeNode)
    requires WellFormed(nodes) && cur < |nodes| && node.children == []
    ensures WellFormed(AddChild(nodes, cur, node))
  {
    var r := AddChild(nodes, cur, node);
    forall m, j | 0 <= m < |r| && 0 <= j < |r[m].children| ensures m < r[m].children[j] < |r| {
      if m == cur && j == |nodes[cur].children| {
      } else {
        assert r[m].children[j] == nodes[m].children[j];
      }
    }
  }

  /** Inserting along `parts[i..]` from node `cur`, as the source's segment loop does. */
  function InsertFrom(nodes: seq<TreeNode>, cur: nat, parts: seq<string>, i: nat, doc: Document): (r: seq<TreeNode>)
    requires WellFormed(nodes) && cur < |nodes| && i <= |parts|
    ensures WellFormed(r) && |nodes| <= |r|
    decreases |parts| - i
  {
    if i == |parts| then nodes
    else
      match Lookup(nodes, cur, parts[i])
      case Some(c) => InsertFrom(nodes, c, parts, i + 1, doc)
      case None =>
        var node := NewNode(parts, i, doc);
        AddChildWellFormed(nodes, cur, node);
        InsertFrom(AddChild(nodes, cur, node), |nodes|, parts, i + 1, doc)
  }

  /** addDocumentToTree on a tree: insertion from the root. */
  function Insert(nodes: seq<TreeNode>, parts: seq<string>, doc: Document): seq<TreeNode>
    requires WellFormed(nodes) && |nodes| > 0
  {
    InsertFrom(nodes, 0, parts, 0, doc)
  }

  /** The segments of a document's path: relative to its source directory, or the path itself when that fails. */
  function Segments(doc: Document, relPath: Option<string>): (parts: seq<string>)
    ensures |parts| >= 1
  {
    Split(relPath.GetOr(doc.path), '/')
  }

  /** A node made by an insertion along `parts` for `doc`. */
  ghost predicate IsNewNode(n: TreeNode, parts: seq<string>, doc: Document) {
    && !n.isOpen
    && exists j :: 0 <= j < |parts| && SameLabel(n, NewNode(parts, j, doc))
  }

  /**
   * Insertion changes no existing node except by appending children, leaves
   * the nodes before `cur` alone, gives `cur` at most the one new child it
   * creates first, and every node it appends is closed, named
   * after a segment, labelled with the path so far, and a file leaf with the
   * document exactly when it is for the last segment.
   */
  lemma {:induction false} InsertFrame(nodes: seq<TreeNode>, cur: nat, parts: seq<string>, i: nat, doc: Document)
    requires WellFormed(nodes) && cur < |nodes| && i <= |parts|
    ensures var r := InsertFrom(nodes, cur, parts, i, doc);
            && Extends(nodes, r)
            && (r[cur].children == nodes[cur].children || r[cur].children == nodes[cur].children + [|nodes|])
            && (forall m :: 0 <= m < cur ==> r[m] == nodes[m])
            && (forall m :: |nodes| <= m < |r| ==> IsNewNode(r[m], parts, doc))
    decreases |parts| - i
  {
    if i < |parts| {
      match Lookup(nodes, cur, parts[i])
      case Some(c) =>
        InsertFrame(nodes, c, parts, i + 1, doc);
        assert cur < c;
      case None =>
        var node := NewNode(parts, i, doc);
        AddChildWellFormed(nodes, cur, node);
        var nodes1 := AddChild(nodes, cur, node);
        var r := InsertFrom(nodes1, |nodes|, parts, i + 1, doc);
        InsertFrame(nodes1, |nodes|, parts, i + 1, doc);
        assert r[cur] == nodes1[cur];
        assert nodes1[cur].children == nodes[cur].children + [|nodes|];
        assert SameLabel(r[|nodes|], NewNode(parts, i, doc));
        assert IsNewNode(r[|nodes|], parts, doc);
        forall m | 0 <= m < |nodes|
          ensures SameLabel(r[m], nodes[m]) && nodes[m].children <= r[m].children
        {
          assert r[m] == nodes1[m];
        }
    }
  }

  /** Two trees that agree on the names of the nodes in `cs` find the same first child. */
  lemma {:induction false} FirstNamedSameNames(nodes: seq<TreeNode>, r: seq<TreeNode>, cs: seq<nat>, name: string, k: nat)
    requires k <= |cs|
    requires forall j :: 0 <= j < |cs| ==> cs[j] < |nodes| <= |r| && r[cs[j]].name == nodes[cs[j]].name
    ensures FirstNamed(r, cs, name, k) == FirstNamed(nodes, cs, name, k)
    decreases |cs| - k
  {
    if k < |cs| {
      assert k + 1 <= |cs|;
      FirstNamedSameNames(nodes, r, cs, name, k + 1);
    }
  }

  /** A child found among some children is still the first found when more children are appended. */
  lemma FirstNamedExtended(nodes: seq<TreeNode>, r: seq<TreeNode>, cs: seq<nat>, cs': seq<nat>, name: string)
    requires cs <= cs'
    requires forall j :: 0 <= j < |cs| ==> cs[j] < |nodes| <= |r| && r[cs[j]].name == nodes[cs[j]].name
    requires forall j :: 0 <= j < |cs'| ==> cs'[j] < |r|
    requires FirstNamed(nodes, cs, name, 0).Some?
    ensures FirstNamed(r, cs', name, 0) == FirstNamed(nodes, cs, name, 0)
  {
    var p := FirstNamed(nodes, cs, name, 0).value;
    assert cs'[p] == cs[p];
    assert forall j :: 0 <= j < p ==> cs'[j] == cs[j] && r[cs'[j]].name != name;
  }

  /** After inserting a document, its path leads from the root to a node. */
  lemma {:induction false} InsertResolves(nodes: seq<TreeNode>, cur: nat, parts: seq<string>, i: nat, doc: Document)
    requires WellFormed(nodes) && cur < |nodes| && i <= |parts|
    ensures Resolve(InsertFrom(nodes, cur, parts, i, doc), cur, parts, i).Some?
    decreases |parts| - i
  {
    if i < |parts| {
      var r := InsertFrom(nodes, cur, parts, i, doc);
      var cs := nodes[cur].children;
      match Lookup(nodes, cur, parts[i])
      case Some(c) =>
        InsertResolves(nodes, c, parts, i + 1, doc);
        InsertFrame(nodes, c, parts, i + 1, doc);
        assert r[cur] == nodes[cur];
        FirstNamedSameNames(nodes, r, cs, parts[i], 0);
        assert Lookup(r, cur, parts[i]) == Some(c);
      case None =>
        var node := NewNode(parts, i, doc);
        AddChildWellFormed(nodes, cur, node);
        var nodes1 := AddChild(nodes, cur, node);
        var n := |nodes|;
        InsertResolves(nodes1, n, parts, i + 1, doc);
        InsertFrame(nodes1, n, parts, i + 1, doc);
        assert r[cur] == nodes1[cur];
        var cs' := cs + [n];
        assert r[cur].children == cs';
        assert r[n].name == parts[i];
        forall j | 0 <= j < |cs'| - 1 ensures r[cs'[j]].name != parts[i] {
          assert cs'[j] == cs[j];
          assert r[cs[j]].name == nodes1[cs[j]].name == nodes[cs[j]].name;
        }
        assert cs'[|cs|] == n && r[cs'[|cs|]].name == parts[i];
        assert FirstNamed(r, cs', parts[i], 0) == Some(|cs|);
        assert Lookup(r, cur, parts[i]) == Some(n);
    }
  }

  /** Inserting a document whose path is already in the tree changes nothing. */
  lemma {:induction false} InsertExisting(nodes: seq<TreeNode>, cur: nat, parts: seq<string>, i: nat, doc: Document)
    requires WellFormed(nodes) && cur < |nodes| && i <= |parts|
    requires Resolve(nodes, cur, parts, i).Some?
    ensures InsertFrom(nodes, cur, parts, i, doc) == nodes
    decreases |parts| - i
  {
    if i < |parts| {
      InsertExisting(nodes, Lookup(nodes, cur, parts[i]).value, parts, i + 1, doc);
    }
  }

  /** A path that leads somewhere still leads to the same node after the tree is extended. */
  lemma {:induction false} ResolveStable(nodes: seq<TreeNode>, r: seq<TreeNode>, cur: nat, parts: seq<string>, i: nat)
    requires WellFormed(nodes) && WellFormed(r) && Extends(nodes, r)
    requires cur < |nodes| && i <= |parts|
    requires Resolve(nodes, cur, parts, i).Some?
    ensures Resolve(r, cur, parts, i) == Resolve(nodes, cur, parts, i)
    decreases |parts| - i
  {
    if i < |parts| {
      var c := Lookup(nodes, cur, parts[i]).value;
      FirstNamedExtended(nodes, r, nodes[cur].children, r[cur].children, parts[i]);
      ResolveStable(nodes, r, c, parts, i + 1);
    }
  }

  /** Appending a child with a name none of its siblings has keeps sibling names distinct. */
  lemma AddChildDistinct(nodes: seq<TreeNode>, cur: nat, node: TreeNode)
    requires WellFormed(nodes) && DistinctSiblings(nodes) && cur < |nodes| && node.children == []
    requires Lookup(nodes, cur, node.name).None?
    ensures WellFormed(AddChild(nodes, cur, node)) && DistinctSiblings(AddChild(nodes, cur, node))
  {
    AddChildWellFormed(nodes, cur, node);
    var r := AddChild(nodes, cur, node);
    forall m, j, k | 0 <= m < |r| && 0 <= j < k < |r[m].children|
      ensures r[r[m].children[j]].name != r[r[m].children[k]].name
    {
      if m == cur && k == |nodes[cur].children| {
        assert r[m].children[j] == nodes[cur].children[j];
      } else {
        assert r[m].children[j] == nodes[m].children[j] && r[m].children[k] == nodes[m].children[k];
      }
    }
  }

  /** Insertion never gives a node two children of the same name. */
  lemma {:induction false} InsertDistinct(nodes: seq<TreeNode>, cur: nat, parts: seq<string>, i: nat, doc: Document)
    requires WellFormed(nodes) && DistinctSiblings(nodes) && cur < |nodes| && i <= |parts|
    ensures DistinctSiblings(InsertFrom(nodes, cur, parts, i, doc))
    decreases |parts| - i
  {
    if i < |parts| {
      match Lookup(nodes, cur, parts[i])
      case Some(c) =>
        InsertDistinct(nodes, c, parts, i + 1, doc);
      case None =>
        var node := NewNode(parts, i, doc);
        AddChildDistinct(nodes, cur, node);
        InsertDistinct(AddChild(nodes, cur, node), |nodes|, parts, i + 1, doc);
    }
  }

  /**
   * A document insertion keeps a tree valid: the root stays the only open
   * node, sibling names stay distinct, and a node is a file leaf exactly
   * when it carries a document.
   */
  lemma InsertValid(nodes: seq<TreeNode>, sourceName: string, parts: seq<string>, doc: Document)
    requires ValidTree(nodes, sourceName)
    ensures ValidTree(Insert(nodes, parts, doc), sourceName)
  {
    var r := Insert(nodes, parts, doc);
    InsertFrame(nodes, 0, parts, 0, doc);
    InsertDistinct(nodes, 0, parts, 0, doc);
    forall m | 0 <= m < |r| ensures (0 < m ==> !r[m].isOpen) && (r[m].isFile <==> r[m].document.Some?) {
      if m < |nodes| {
        assert SameLabel(r[m], nodes[m]);
      } else {
        assert IsNewNode(r[m], parts, doc);
        var j :| 0 <= j < |parts| && SameLabel(r[m], NewNode(parts, j, doc));
      }
    }
  }

  /** With no empty segment, a node's path label is its segments joined by "/". */
  lemma {:induction false} PathOfJoin(parts: seq<string>, n: nat)
    requires n <= |parts|
    requires forall j :: 0 <= j < n ==> parts[j] != ""
    ensures PathOf(parts, n) == Join(parts[..n], "/")
  {
    if n == 1 {
    } else if n > 1 {
      PathOfJoin(parts, n - 1);
      assert PathOf(parts, n - 1) != "";
      assert parts[..n] == parts[..n - 1] + [parts[n - 1]];
      JoinAppend(parts[..n - 1], [parts[n - 1]], "/");
    }
  }

  /**
   * An empty first segment (an absolute path) leaves no trace in the labels
   * after it: they are those of the remaining segments, so "/docs/a.md" is
   * labelled "docs/a.md", not "/docs/a.md".
   */
  lemma {:induction false} LeadingEmptySegment(parts: seq<string>, n: nat)
    requires 1 <= n <= |parts| && parts[0] == ""
    ensures PathOf(parts, n) == PathOf(parts[1..], n - 1)
    ensures (forall j :: 1 <= j < n ==> parts[j] != "") ==> PathOf(parts, n) == Join(parts[1..n], "/")
  {
    if n > 1 {
      LeadingEmptySegment(parts, n - 1);
      assert parts[1..][n - 2] == parts[n - 1];
    }
    if forall j :: 1 <= j < n ==> parts[j] != "" {
      PathOfJoin(parts[1..], n - 1);
      assert parts[1..][..n - 1] == parts[1..n];
    }
  }

  /**
   * One source's tree.  `nodes` stands for the node objects the root
   * reaches; `AddDocument` walks down from the root and appends to the
   * children of the node it is at, as addDocumentToTree does.
   */
  class DirectoryTree {
    const name: string
    var nodes: seq<TreeNode>

    ghost predicate Valid()
      reads this
    {
      ValidTree(nodes, name)
    }

    constructor (sourceName: string)
      ensures name == sourceName && nodes == [RootNode(sourceName)]
      ensures Valid()
    {
      name := sourceName;
      nodes := [RootNode(sourceName)];
    }

    /** addDocumentToTree: `relPath` is what filepath.Rel gave for the document's path. */
    method AddDocument(doc: Document, relPath: Option<string>)
      requires Valid()
      modifies this
      ensures Valid()
      ensures nodes == Insert(old(nodes), Segments(doc, relPath), doc)
    {
      var parts := Split(if relPath.Some? then relPath.value else doc.path, '/');
      InsertValid(nodes, name, parts, doc);
      InsertSegments(parts, doc);
    }

    /** The segment loop of addDocumentToTree: descend by name, appending a node where none is found. */
    method InsertSegments(parts: seq<string>, doc: Document)
      requires WellFormed(nodes) && |nodes| > 0
      modifies this
      ensures nodes == Insert(old(nodes), parts, doc)
    {
      ghost var target := Insert(nodes, parts, doc);
      var current: nat := 0;
      var currentPath := "";
      for i := 0 to |parts|
        invariant WellFormed(nodes) && current < |nodes|
        invariant currentPath == PathOf(parts, i)
        invariant InsertFrom(nodes, current, parts, i, doc) == target
      {
        if currentPath == "" {
          currentPath := parts[i];
        } else {
          currentPath := currentPath + "/" + parts[i];
        }
        var isFile := i == |parts| - 1;
        var found := FindChild(nodes, current, parts[i]);
        if found.None? {
          var newNode := TreeNode(parts[i], currentPath, isFile, None, [], false);
          if isFile {
            newNode := newNode.(document := Some(doc));
          }
          assert newNode == NewNode(parts, i, doc);
          AddChildWellFormed(nodes, current, newNode);
          nodes := nodes[current := nodes[current].(children := nodes[current].children + [|nodes|])] + [newNode];
          current := |nodes| - 1;
        } else {
          current := found.value;
        }
      }
    }
  }
}
