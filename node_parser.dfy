/** The hierarchical Java node parser: splits each selected document into its classes, their
    methods and so on down the syntax tree, and the helpers that walk CHILD and PARENT
    relationships between nodes. */
module NodeParser {
  import opened Wrappers
  import opened Strings
  import opened Dicts
  import opened SyntaxTree
  import opened CodeNodes
  import opened MyUtils
  import opened Splitter

  // ---------------------------------------------------------------------------------
  // Relationships

  /** The ids a node's CHILD relationship lists; none when it has no such relationship. */
  function ChildList(ids: Option<seq<string>>): seq<string> {
    if ids.Some? then ids.value else []
  }

  /** `_add_parent_child_relationship`: appends the child to the parent's CHILD list (creating
      it when absent) and makes the parent the child's PARENT. */
  method AddParentChild(parent: CodeNode, child: CodeNode)
    modifies parent, child
    ensures parent.childIds == Some(ChildList(old(parent.childIds)) + [old(child.id)])
    ensures child.parentId == Some(old(parent.id))
    ensures parent != child ==> parent.parentId == old(parent.parentId) && child.childIds == old(child.childIds)
    ensures parent.id == old(parent.id) && child.id == old(child.id)
    ensures parent.text == old(parent.text) && child.text == old(child.text)
    ensures parent.metadata == old(parent.metadata) && child.metadata == old(child.metadata)
  {
    var childList := ChildList(parent.childIds);
    childList := childList + [child.id];
    parent.childIds := Some(childList);
    child.parentId := Some(parent.id);
  }

  /** The nodes without a CHILD relationship, in order. */
  function Leaves(nodes: seq<CodeNode>): (r: seq<CodeNode>)
    reads nodes
    ensures forall x | x in r :: x in nodes
  {
    if |nodes| == 0 then []
    else Leaves(nodes[..|nodes| - 1]) + (if nodes[|nodes| - 1].childIds.None? then [nodes[|nodes| - 1]] else [])
  }

  /** The nodes without a PARENT relationship, in order. */
  function Roots(nodes: seq<CodeNode>): (r: seq<CodeNode>)
    reads nodes
    ensures forall x | x in r :: x in nodes
  {
    if |nodes| == 0 then []
    else Roots(nodes[..|nodes| - 1]) + (if nodes[|nodes| - 1].parentId.None? then [nodes[|nodes| - 1]] else [])
  }

  /** A node is a leaf exactly when it is one of the nodes and has no CHILD relationship. */
  lemma {:induction false} LeavesMember(nodes: seq<CodeNode>, x: CodeNode)
    ensures x in Leaves(nodes) <==> x in nodes && x.childIds.None?
    decreases |nodes|
  {
    if |nodes| > 0 {
      LeavesMember(nodes[..|nodes| - 1], x);
      assert nodes == nodes[..|nodes| - 1] + [nodes[|nodes| - 1]];
    }
  }

  /** A node is a root exactly when it is one of the nodes and has no PARENT relationship. */
  lemma {:induction false} RootsMember(nodes: seq<CodeNode>, x: CodeNode)
    ensures x in Roots(nodes) <==> x in nodes && x.parentId.None?
    decreases |nodes|
  {
    if |nodes| > 0 {
      RootsMember(nodes[..|nodes| - 1], x);
      assert nodes == nodes[..|nodes| - 1] + [nodes[|nodes| - 1]];
    }
  }

  /** `get_leaf_nodes`. */
  method GetLeafNodes(nodes: seq<CodeNode>) returns (leafNodes: seq<CodeNode>)
    ensures leafNodes == Leaves(nodes)
  {
    leafNodes := [];
    for i := 0 to |nodes|
      invariant leafNodes == Leaves(nodes[..i])
    {
      assert nodes[..i + 1][..i] == nodes[..i];
      if nodes[i].childIds.None? {
        leafNodes := leafNodes + [nodes[i]];
      }
    }
    assert nodes[..|nodes|] == nodes;
  }

  /** `get_root_nodes`. */
  method GetRootNodes(nodes: seq<CodeNode>) returns (rootNodes: seq<CodeNode>)
    ensures rootNodes == Roots(nodes)
  {
    rootNodes := [];
    for i := 0 to |nodes|
      invariant rootNodes == Roots(nodes[..i])
    {
      assert nodes[..i + 1][..i] == nodes[..i];
      if nodes[i].parentId.None? {
        rootNodes := rootNodes + [nodes[i]];
      }
    }
    assert nodes[..|nodes|] == nodes;
  }

  /** The ids listed by the CHILD relationships of `nodes`, in order. */
  function ChildIds(nodes: seq<CodeNode>): seq<string>
    reads set x | x in nodes
  {
    if |nodes| == 0 then [] else ChildIds(nodes[..|nodes| - 1]) + ChildList(nodes[|nodes| - 1].childIds)
  }

  /** The nodes of `all` whose id is among `ids`, in order. */
  function WithIds(all: seq<CodeNode>, ids: seq<string>): (r: seq<CodeNode>)
    reads all
    ensures forall x | x in r :: x in all
  {
    if |all| == 0 then []
    else WithIds(all[..|all| - 1], ids) + (if all[|all| - 1].id in ids then [all[|all| - 1]] else [])
  }

  /** An id is listed exactly when some node's CHILD relationship lists it. */
  lemma {:induction false} ChildIdsMember(nodes: seq<CodeNode>, id: string)
    ensures id in ChildIds(nodes) <==> exists x | x in nodes :: id in ChildList(x.childIds)
    decreases |nodes|
  {
    if |nodes| > 0 {
      var front := nodes[..|nodes| - 1];
      ChildIdsMember(front, id);
      assert nodes == front + [nodes[|nodes| - 1]];
      if exists x | x in front :: id in ChildList(x.childIds) {
        var x :| x in front && id in ChildList(x.childIds);
        assert x in nodes;
      }
    }
  }

  lemma {:induction false} WithIdsMember(all: seq<CodeNode>, ids: seq<string>, x: CodeNode)
    ensures x in WithIds(all, ids) <==> x in all && x.id in ids
    decreases |all|
  {
    if |all| > 0 {
      WithIdsMember(all[..|all| - 1], ids, x);
      assert all == all[..|all| - 1] + [all[|all| - 1]];
    }
  }

  /** A node is returned by `get_child_nodes` exactly when it is one of `all` and some node of
      `nodes` lists its id as a child. */
  lemma ChildNodesMember(nodes: seq<CodeNode>, all: seq<CodeNode>, x: CodeNode)
    ensures x in WithIds(all, ChildIds(nodes)) <==>
      x in all && exists n | n in nodes :: x.id in ChildList(n.childIds)
  {
    WithIdsMember(all, ChildIds(nodes), x);
    ChildIdsMember(nodes, x.id);
  }

  /** `get_child_nodes`: first collects the child ids of `nodes`, then keeps the nodes of
      `all_nodes` with those ids. */
  method GetChildNodes(nodes: seq<CodeNode>, all: seq<CodeNode>) returns (childNodes: seq<CodeNode>)
    ensures childNodes == WithIds(all, ChildIds(nodes))
  {
    var childrenIds: seq<string> := [];
    for i := 0 to |nodes|
      invariant childrenIds == ChildIds(nodes[..i])
    {
      assert nodes[..i + 1][..i] == nodes[..i];
      if nodes[i].childIds.None? {
        continue;
      }
      childrenIds := childrenIds + nodes[i].childIds.value;
    }
    assert nodes[..|nodes|] == nodes;
    childNodes := [];
    for i := 0 to |all|
      invariant childNodes == WithIds(all[..i], childrenIds)
    {
      assert all[..i + 1][..i] == all[..i];
      if all[i].id !in childrenIds {
        continue;
      }
      childNodes := childNodes + [all[i]];
    }
    assert all[..|all|] == all;
  }

  /** The roots of `nodes`, then `depth` times the children among `nodes` of the previous level. */
  function Deeper(nodes: seq<CodeNode>, depth: nat): (r: seq<CodeNode>)
    reads nodes
    ensures forall x | x in r :: x in nodes
  {
    if depth == 0 then Roots(nodes)
    else
      WithIds(nodes, ChildIds(Deeper(nodes, depth - 1)))
  }

  /** One level further down is the children, among all the nodes, of the level above. */
  lemma DeeperStep(nodes: seq<CodeNode>, depth: nat, x: CodeNode)
    ensures x in Deeper(nodes, depth + 1) <==>
      x in nodes && exists n | n in Deeper(nodes, depth) :: x.id in ChildList(n.childIds)
  {
    ChildNodesMember(Deeper(nodes, depth), nodes, x);
  }

  /** The loop of `get_deeper_nodes`: from the roots, `depth` times the children among `nodes`. */
  method DescendFromRoots(nodes: seq<CodeNode>, rootNodes: seq<CodeNode>, depth: nat) returns (deeperNodes: seq<CodeNode>)
    requires rootNodes == Roots(nodes)
    ensures deeperNodes == Deeper(nodes, depth)
  {
    deeperNodes := rootNodes;
    for i := 0 to depth
      invariant deeperNodes == Deeper(nodes, i)
    {
      deeperNodes := GetChildNodes(deeperNodes, nodes);
    }
  }

  /** `get_deeper_nodes`: ValueError for a negative depth or when no node is a root; otherwise
      the level `depth` below the roots. */
  method GetDeeperNodes(nodes: seq<CodeNode>, depth: int) returns (r: Result<seq<CodeNode>>)
    ensures depth < 0 ==> r == Err(ValueError("Depth cannot be a negative number!"))
    ensures depth >= 0 && |Roots(nodes)| == 0 ==> r == Err(ValueError("There is no root nodes in given nodes!"))
    ensures depth >= 0 && |Roots(nodes)| > 0 ==> r == Ok(Deeper(nodes, depth))
  {
    if depth < 0 {
      return Err(ValueError("Depth cannot be a negative number!"));
    }
    var rootNodes := GetRootNodes(nodes);
    if |rootNodes| == 0 {
      return Err(ValueError("There is no root nodes in given nodes!"));
    }
    var deeperNodes := DescendFromRoots(nodes, rootNodes, depth);
    return Ok(deeperNodes);
  }

  // ---------------------------------------------------------------------------------
  // Splitting documents down the syntax tree

  /** A node made by splitting below syntax-tree node `lo`: its metadata names a deeper node of
      the tree, a node type that agrees with it, and a list of source lines. */
  predicate SplitBelow(t: Tree, x: CodeNode, lo: nat)
    reads x
  {
    var a := Get(x.metadata, "ast");
    && WellTyped(t, x.metadata)
    && a.Some? && a.value.Ast? && lo < a.value.node < |t|
    && Get(x.metadata, "node_type") == Some(Text(AstNodeType(t[a.value.node].kind)))
  }

  /** Whether the recursion leaves a node unsplit. */
  predicate IsMethodNode(x: CodeNode)
    reads x
  {
    Get(x.metadata, "node_type") == Some(Text("method_node"))
  }

  /** A node built from a split of a node whose AST is at or below `lo` is a split below `lo`. */
  lemma BuiltBelow(t: Tree, x: CodeNode, c: nat, text: string, k: int, parent: CodeNode, source: MetaValue,
                   filePath: MetaValue, sha256Hex: string -> string, lo: nat)
    requires lo < c < |t| && source.SourceLines?
    requires BuiltFrom(x, t, c, text, k, parent, source, filePath, sha256Hex)
    ensures SplitBelow(t, x, lo)
  {
    SplitMetadataValues(t, c, source, filePath);
  }

  /** The loop body of `_recursively_get_nodes_from_nodes` for one node: nothing for a method
      node, KeyError when the node has no `node_type`, otherwise the nodes the splitter makes of
      it, each lying strictly below it. */
  method SubNodesOf(t: Tree, node: CodeNode, ghost lo: nat, sha256Hex: string -> string)
    returns (r: Result<seq<CodeNode>>)
    requires Valid(t) && WellTyped(t, node.metadata)
    requires Get(node.metadata, "ast").Some? ==> lo <= Get(node.metadata, "ast").value.node
    ensures Get(node.metadata, "node_type").None? ==> r == Err(KeyError("node_type"))
    ensures IsMethodNode(node) ==> r == Ok([])
    ensures r.Ok? ==> forall x | x in r.value :: fresh(x) && SplitBelow(t, x, lo)
  {
    var nodeType := Get(node.metadata, "node_type");
    if nodeType.None? {
      return Err(KeyError("node_type"));
    }
    if nodeType.value == Text("method_node") {
      return Ok([]);
    }
    r := ParseNode(t, node, sha256Hex);
    if r.Ok? {
      var splits := SplitOf(t, node.metadata).value;
      forall x | x in r.value ensures SplitBelow(t, x, lo) {
        var k :| 0 <= k < |r.value| && r.value[k] == x;
        BuiltBelow(t, x, splits[k].0, splits[k].1, k, node, Get(node.metadata, "source").value,
                   Get(node.metadata, "file_path").value, sha256Hex, lo);
      }
    }
  }

  /** `_recursively_get_nodes_from_nodes`: splits every node that is not a method node (a
      missing `node_type` raises KeyError), and when that gives anything, returns it followed by
      the recursive splitting of it. Every node of `nodes` lies at or below syntax-tree node
      `lo`, and every split lies strictly below its parent, which bounds the recursion. */
  method RecursivelyGetNodes(t: Tree, nodes: seq<CodeNode>, ghost lo: nat, sha256Hex: string -> string)
    returns (r: Result<seq<CodeNode>>)
    requires Valid(t)
    requires forall x | x in nodes ::
      WellTyped(t, x.metadata) && (Get(x.metadata, "ast").Some? ==> lo <= Get(x.metadata, "ast").value.node)
    ensures (forall x | x in nodes :: IsMethodNode(x)) ==> r == Ok([])
    ensures r.Ok? ==> forall x | x in r.value :: fresh(x) && SplitBelow(t, x, lo)
    decreases |t| - lo
  {
    var subNodes: seq<CodeNode> := [];
    for i := 0 to |nodes|
      invariant forall x | x in subNodes :: fresh(x) && SplitBelow(t, x, lo)
      invariant (forall k | 0 <= k < i :: IsMethodNode(nodes[k])) ==> subNodes == []
    {
      var curSubNodes := SubNodesOf(t, nodes[i], lo, sha256Hex);
      if curSubNodes.Err? {
        return Err(curSubNodes.error);
      }
      subNodes := subNodes + curSubNodes.value;
    }
    if |subNodes| == 0 {
      return Ok([]);
    }
    ghost var k :| 0 <= k < |nodes| && !IsMethodNode(nodes[k]);
    assert SplitBelow(t, subNodes[0], lo);
    var subSubNodes := RecursivelyGetNodes(t, subNodes, lo + 1, sha256Hex);
    assert !IsMethodNode(nodes[k]);
    if subSubNodes.Err? {
      return subSubNodes;
    }
    return Ok(subNodes + subSubNodes.value);
  }

  /** The class-name filter of `get_nodes_from_documents`: unless every method is wanted, a
      document whose file name, cut at the first '.', is not among `classes` is skipped. */
  predicate Skipped(md: seq<(string, MetaValue)>, classes: seq<string>, allMethods: bool) {
    SkippedName(Get(md, "file_name"), classes, allMethods)
  }

  /** The class-name filter on the `file_name` entry itself. */
  predicate SkippedName(fileName: Option<MetaValue>, classes: seq<string>, allMethods: bool) {
    && !allMethods
    && fileName.Some? && fileName.value.Text?
    && SplitOn(fileName.value.s, ".")[0] !in classes
  }

  /** The metadata a document gets before it is split: its syntax tree's root, its lines and
      the node type "document_node". */
  function Prepared(md: seq<(string, MetaValue)>, text: string): seq<(string, MetaValue)> {
    Put(Put(Put(md, "ast", Ast(0)), "source", SourceLines(Lines(text))), "node_type", Text("document_node"))
  }

  /** A prepared document can be split: its AST is the root and its source is a list of lines. */
  lemma PreparedFacts(md: seq<(string, MetaValue)>, text: string, t: Tree)
    requires |t| > 0
    ensures Get(Prepared(md, text), "ast") == Some(Ast(0))
    ensures Get(Prepared(md, text), "source") == Some(SourceLines(Lines(text)))
    ensures Get(Prepared(md, text), "node_type") == Some(Text("document_node"))
    ensures Get(Prepared(md, text), "file_name") == Get(md, "file_name")
    ensures WellTyped(t, Prepared(md, text))
  {
    var m1 := Put(md, "ast", Ast(0));
    var m2 := Put(m1, "source", SourceLines(Lines(text)));
    PutGet(md, "ast", Ast(0), "ast");
    PutGet(m1, "source", SourceLines(Lines(text)), "ast");
    PutGet(m2, "node_type", Text("document_node"), "ast");
    PutGet(m1, "source", SourceLines(Lines(text)), "source");
    PutGet(m2, "node_type", Text("document_node"), "source");
    PutGet(m2, "node_type", Text("document_node"), "node_type");
    PutGet(md, "ast", Ast(0), "file_name");
    PutGet(m1, "source", SourceLines(Lines(text)), "file_name");
    PutGet(m2, "node_type", Text("document_node"), "file_name");
  }

  /** Pops each of `keys`, in turn, from the node's metadata; a missing key is ignored. */
  method PopKeys(node: CodeNode, keys: seq<string>)
    modifies node`metadata
    ensures node.metadata == Without(old(node.metadata), keys)
    ensures node.id == old(node.id) && node.text == old(node.text)
    ensures node.childIds == old(node.childIds) && node.parentId == old(node.parentId)
  {
    WithoutNone(node.metadata);
    for j := 0 to |keys|
      invariant node.metadata == Without(old(node.metadata), keys[..j])
    {
      WithoutStep(old(node.metadata), keys, j);
      node.metadata := Without(node.metadata, [keys[j]]);
    }
    assert keys[..|keys|] == keys;
  }

  /** The clean-up of `get_nodes_from_documents`: pops "ast" and then "source" from the metadata
      of every node. A node listed twice ends up as if popped once. */
  method RemoveAstAndSource(nodes: seq<CodeNode>)
    modifies (set x | x in nodes)`metadata
    ensures forall x | x in nodes :: x.metadata == Without(old(x.metadata), ["ast", "source"])
    ensures forall x | x in nodes :: "ast" !in Keys(x.metadata) && "source" !in Keys(x.metadata)
    ensures forall x | x in nodes :: x.id == old(x.id) && x.text == old(x.text)
    ensures forall x | x in nodes :: x.childIds == old(x.childIds) && x.parentId == old(x.parentId)
  {
    var excludedKeys := ["ast", "source"];
    for i := 0 to |nodes|
      invariant forall x | x in nodes[..i] :: x.metadata == Without(old(x.metadata), excludedKeys)
      invariant forall x | x in nodes && x !in nodes[..i] :: x.metadata == old(x.metadata)
    {
      var node := nodes[i];
      WithoutTwice(old(node.metadata), excludedKeys);
      PopKeys(node, excludedKeys);
      assert nodes[..i + 1] == nodes[..i] + [node];
    }
    assert nodes[..|nodes|] == nodes;
    forall x | x in nodes
      ensures "ast" !in Keys(x.metadata) && "source" !in Keys(x.metadata)
    {
      WithoutGone(old(x.metadata), excludedKeys, "ast");
      WithoutGone(old(x.metadata), excludedKeys, "source");
    }
  }

  /** What `get_nodes_from_documents` leaves in a document it splits: its syntax tree's root, its
      lines and the node type "document_node". */
  predicate IsPrepared(x: CodeNode)
    reads x
  {
    && Get(x.metadata, "ast") == Some(Ast(0))
    && Get(x.metadata, "source") == Some(SourceLines(Lines(x.text)))
    && Get(x.metadata, "node_type") == Some(Text("document_node"))
  }

  /** The class-name filter of `get_nodes_from_documents` on one document's metadata: whether to
      skip it, or the error that looking at its `file_name` raises. */
  function SkipDocument(md: seq<(string, MetaValue)>, classes: seq<string>, allMethods: bool): (r: Result<bool>)
    ensures r == Ok(true) <==> Skipped(md, classes, allMethods)
    ensures r.Err? <==> !allMethods && (Get(md, "file_name").None? || !Get(md, "file_name").value.Text?)
    ensures r.Err? ==> r.error == if Get(md, "file_name").None? then KeyError("file_name") else AttributeError("split")
  {
    if allMethods then Ok(false)
    else
      match Get(md, "file_name")
      case None => Err(KeyError("file_name"))
      case Some(fileName) =>
        if !fileName.Text? then Err(AttributeError("split"))
        else Ok(SplitOn(fileName.s, ".")[0] !in classes)
  }

  /** The body of the loop of `get_nodes_from_documents` for a document that is not skipped:
      records the syntax tree's root, the lines and the node type in its metadata, then splits
      it recursively. */
  method SplitDocument(doc: CodeNode, tree: Tree, sha256Hex: string -> string) returns (r: Result<seq<CodeNode>>)
    requires Valid(tree) && |tree| > 0
    modifies doc`metadata
    ensures doc.metadata == Prepared(old(doc.metadata), doc.text)
    ensures doc.text == old(doc.text) && doc.id == old(doc.id)
    ensures IsPrepared(doc)
    ensures Get(doc.metadata, "file_name") == Get(old(doc.metadata), "file_name")
    ensures r.Ok? ==> forall x | x in r.value :: fresh(x)
  {
    PreparedFacts(doc.metadata, doc.text, tree);
    doc.metadata := Prepared(doc.metadata, doc.text);
    r := RecursivelyGetNodes(tree, [doc], 0, sha256Hex);
  }

  /** The body of the loop of `get_nodes_from_documents` for one document: the class-name
      filter, then, for a document it keeps, the preparation and the recursive splitting. */
  method ProcessDocument(doc: CodeNode, tree: Tree, classes: seq<string>, allMethods: bool,
                         sha256Hex: string -> string)
    returns (r: Result<seq<CodeNode>>)
    requires Valid(tree) && |tree| > 0
    modifies doc`metadata
    ensures r.Ok? ==> forall x | x in r.value :: fresh(x)
    ensures Get(doc.metadata, "file_name") == Get(old(doc.metadata), "file_name")
    ensures Skipped(old(doc.metadata), classes, allMethods) ==> r == Ok([]) && doc.metadata == old(doc.metadata)
    ensures r.Ok? && !Skipped(old(doc.metadata), classes, allMethods) ==> IsPrepared(doc)
  {
    var skip := SkipDocument(doc.metadata, classes, allMethods);
    if skip.Err? {
      return Err(skip.error);
    }
    if skip.value {
      return Ok([]);
    }
    r := SplitDocument(doc, tree, sha256Hex);
  }

  /** The loop of `get_nodes_from_documents`: the nodes of every document that is kept, where
      `trees[k]` is the parse of `docs[k]`. */
  method CollectNodes(docs: seq<CodeNode>, trees: seq<Tree>, classes: seq<string>, allMethods: bool,
                      sha256Hex: string -> string)
    returns (r: Result<seq<CodeNode>>)
    requires |trees| == |docs|
    requires forall k | 0 <= k < |trees| :: Valid(trees[k]) && |trees[k]| > 0
    modifies (set x | x in docs)`metadata
    ensures r.Ok? ==> forall x | x in r.value :: fresh(x)
    ensures forall x | x in docs :: Get(x.metadata, "file_name") == Get(old(x.metadata), "file_name")
    ensures forall x | x in docs && Skipped(old(x.metadata), classes, allMethods) :: x.metadata == old(x.metadata)
    ensures r.Ok? ==> forall x | x in docs && !Skipped(old(x.metadata), classes, allMethods) :: IsPrepared(x)
    ensures (forall x | x in docs :: Skipped(old(x.metadata), classes, allMethods)) ==> r == Ok([])
  {
    var allNodes: seq<CodeNode> := [];
    for i := 0 to |docs|
      invariant forall x | x in allNodes :: fresh(x)
      invariant forall x | x in docs :: Get(x.metadata, "file_name") == Get(old(x.metadata), "file_name")
      invariant forall x | x in docs && Skipped(old(x.metadata), classes, allMethods) :: x.metadata == old(x.metadata)
      invariant forall x | x in docs[..i] && !Skipped(old(x.metadata), classes, allMethods) :: IsPrepared(x)
      invariant (forall x | x in docs :: Skipped(old(x.metadata), classes, allMethods)) ==> allNodes == []
    {
      assert docs[..i + 1] == docs[..i] + [docs[i]];
      var nodesFromDoc := ProcessDocument(docs[i], trees[i], classes, allMethods, sha256Hex);
      if nodesFromDoc.Err? {
        return Err(nodesFromDoc.error);
      }
      allNodes := allNodes + nodesFromDoc.value;
    }
    assert docs[..|docs|] == docs;
    return Ok(allNodes);
  }

  /** `get_nodes_from_documents`: the nodes collected from the documents, with "ast" and
      "source" popped from each. */
  method GetNodesFromDocuments(docs: seq<CodeNode>, trees: seq<Tree>, classes: seq<string>, allMethods: bool,
                               sha256Hex: string -> string)
    returns (r: Result<seq<CodeNode>>)
    requires |trees| == |docs|
    requires forall k | 0 <= k < |trees| :: Valid(trees[k]) && |trees[k]| > 0
    modifies (set x | x in docs)`metadata
    ensures r.Ok? ==> forall x | x in r.value ::
      fresh(x) && "ast" !in Keys(x.metadata) && "source" !in Keys(x.metadata)
    ensures forall x | x in docs :: Get(x.metadata, "file_name") == Get(old(x.metadata), "file_name")
    ensures forall x | x in docs && Skipped(old(x.metadata), classes, allMethods) :: x.metadata == old(x.metadata)
    ensures r.Ok? ==> forall x | x in docs && !Skipped(old(x.metadata), classes, allMethods) :: IsPrepared(x)
    ensures (forall x | x in docs :: Skipped(old(x.metadata), classes, allMethods)) ==> r == Ok([])
  {
    r := CollectNodes(docs, trees, classes, allMethods, sha256Hex);
    if r.Ok? {
      RemoveAstAndSource(r.value);
    }
  }
}
