/** Building code nodes from the pieces a syntax-tree split produces: their ids, their node
    types and the metadata they inherit from the node they were split from. */
module MyUtils {
  import opened Wrappers
  import opened Dicts
  import opened SyntaxTree
  import opened CodeNodes

  /** The syntax-tree node types that become class nodes. */
  const ClassTypes: seq<string> := ["class_declaration"]

  /** The syntax-tree node types that become method nodes. */
  const MethodTypes: seq<string> := ["method_declaration", "constructor_declaration"]

  /** `default_id_func`: the hex SHA-256 digest of the text. The digest itself is a parameter;
      the index is not used. */
  function DefaultIdFunc(sha256Hex: string -> string, i: int, text: string): string
  {
    sha256Hex(text)
  }

  /** `get_ast_node_type`: "class_node" for a class declaration, "method_node" for a method or
      constructor declaration, "others" for anything else. */
  function AstNodeType(kind: string): (r: string)
    ensures r == "class_node" <==> kind in ClassTypes
    ensures r == "method_node" <==> kind in MethodTypes
    ensures r == "others" <==> kind !in ClassTypes && kind !in MethodTypes
  {
    if kind in ClassTypes then "class_node"
    else if kind in MethodTypes then "method_node"
    else "others"
  }

  /** The metadata `build_nodes_from_splits` gives the node built for syntax-tree node `a`: the
      node, its node type, the splitting node's `source` and `file_path`, and for a method node
      its 0-based start row and its end row plus one. */
  function SplitMetadata(t: Tree, a: nat, source: MetaValue, filePath: MetaValue): seq<(string, MetaValue)>
    requires a < |t|
  {
    var nodeType := AstNodeType(t[a].kind);
    [("ast", Ast(a)), ("node_type", Text(nodeType)), ("source", source), ("file_path", filePath)] +
    if nodeType == "method_node" then
      [("start_line", Number(t[a].start.row)), ("end_line", Number(t[a].end.row + 1))]
    else []
  }

  /** The updates `build_nodes_from_splits` makes to a new node's empty metadata give
      `SplitMetadata`. */
  lemma SplitMetadataPuts(t: Tree, a: nat, source: MetaValue, filePath: MetaValue)
    requires a < |t|
    ensures var nodeType := AstNodeType(t[a].kind);
      var md := Put(Put(Put(Put([], "ast", Ast(a)), "node_type", Text(nodeType)), "source", source), "file_path", filePath);
      SplitMetadata(t, a, source, filePath) ==
        if nodeType == "method_node" then
          Put(Put(md, "start_line", Number(t[a].start.row)), "end_line", Number(t[a].end.row + 1))
        else md
  {
    var nodeType := AstNodeType(t[a].kind);
    var m1 := Put([], "ast", Ast(a));
    assert m1 == [("ast", Ast(a))];
    var m2 := Put(m1, "node_type", Text(nodeType));
    PutNew(m1, "node_type", Text(nodeType));
    var m3 := Put(m2, "source", source);
    PutNew(m2, "source", source);
    var m4 := Put(m3, "file_path", filePath);
    PutNew(m3, "file_path", filePath);
    if nodeType == "method_node" {
      var m5 := Put(m4, "start_line", Number(t[a].start.row));
      PutNew(m4, "start_line", Number(t[a].start.row));
      PutNew(m5, "end_line", Number(t[a].end.row + 1));
    }
  }

  /** The keys of a built node's metadata, in order: line numbers exactly for method nodes. */
  lemma SplitMetadataKeys(t: Tree, a: nat, source: MetaValue, filePath: MetaValue)
    requires a < |t|
    ensures var md := SplitMetadata(t, a, source, filePath);
      && Keys(md) == ["ast", "node_type", "source", "file_path"] +
           (if t[a].kind in MethodTypes then ["start_line", "end_line"] else [])
      && (t[a].kind in MethodTypes <==> "start_line" in Keys(md))
      && (t[a].kind in MethodTypes <==> "end_line" in Keys(md))
  {
    var md := SplitMetadata(t, a, source, filePath);
    var base := ["ast", "node_type", "source", "file_path"];
    assert Keys(md)[..4] == base;
    if t[a].kind in MethodTypes {
      assert Keys(md) == base + ["start_line", "end_line"];
    } else {
      assert Keys(md) == base;
      assert "start_line" !in base && "end_line" !in base;
    }
  }

  /** What a built node's metadata says: its syntax-tree node, a node type that agrees with that
      node, the inherited `source` and `file_path`, and for a method node its line numbers. */
  lemma SplitMetadataValues(t: Tree, a: nat, source: MetaValue, filePath: MetaValue)
    requires a < |t|
    ensures var md := SplitMetadata(t, a, source, filePath);
      && Get(md, "ast") == Some(Ast(a))
      && Get(md, "node_type") == Some(Text(AstNodeType(t[a].kind)))
      && Get(md, "source") == Some(source)
      && Get(md, "file_path") == Some(filePath)
      && (t[a].kind in MethodTypes ==>
            Get(md, "start_line") == Some(Number(t[a].start.row)) &&
            Get(md, "end_line") == Some(Number(t[a].end.row + 1)))
  {
    SplitMetadataFront(t, a, source, filePath);
    if t[a].kind in MethodTypes {
      SplitMetadataLines(t, a, source, filePath);
    }
  }

  /** The first four entries of a built node's metadata. */
  lemma SplitMetadataFront(t: Tree, a: nat, source: MetaValue, filePath: MetaValue)
    requires a < |t|
    ensures var md := SplitMetadata(t, a, source, filePath);
      && Get(md, "ast") == Some(Ast(a))
      && Get(md, "node_type") == Some(Text(AstNodeType(t[a].kind)))
      && Get(md, "source") == Some(source)
      && Get(md, "file_path") == Some(filePath)
  {
    var md := SplitMetadata(t, a, source, filePath);
    GetAt(md, "ast", 0);
    GetAt(md, "node_type", 1);
    GetAt(md, "source", 2);
    GetAt(md, "file_path", 3);
  }

  /** The line numbers of a method node's metadata. */
  lemma SplitMetadataLines(t: Tree, a: nat, source: MetaValue, filePath: MetaValue)
    requires a < |t| && t[a].kind in MethodTypes
    ensures var md := SplitMetadata(t, a, source, filePath);
      && Get(md, "start_line") == Some(Number(t[a].start.row))
      && Get(md, "end_line") == Some(Number(t[a].end.row + 1))
  {
    var md := SplitMetadata(t, a, source, filePath);
    GetAt(md, "start_line", 4);
    GetAt(md, "end_line", 5);
  }

  /** The node built for the `i`-th split `(a, text)` of `document`: id from the text, the
      text, the document's excluded keys and separator, the split's metadata, no character span
      and no relationships. */
  predicate BuiltFrom(n: CodeNode, t: Tree, a: nat, text: string, i: int, document: CodeNode,
                      source: MetaValue, filePath: MetaValue, sha256Hex: string -> string)
    reads n, document
    requires a < |t|
  {
    && n.id == DefaultIdFunc(sha256Hex, i, text)
    && n.text == text
    && n.excludedEmbedKeys == document.excludedEmbedKeys
    && n.excludedLlmKeys == document.excludedLlmKeys
    && n.separator == document.separator
    && n.metadata == SplitMetadata(t, a, source, filePath)
    && n.startCharIdx == None && n.endCharIdx == None
    && n.childIds == None && n.parentId == None
  }

  /** The body of the loop of `build_nodes_from_splits` once the document's `source` and
      `file_path` are found: a new node for split `i`, `(a, text)`. */
  method NewSplitNode(t: Tree, a: nat, text: string, i: int, document: CodeNode, source: MetaValue,
                      filePath: MetaValue, sha256Hex: string -> string)
    returns (node: CodeNode)
    requires a < |t|
    ensures fresh(node)
    ensures BuiltFrom(node, t, a, text, i, document, source, filePath, sha256Hex)
  {
    node := new CodeNode(DefaultIdFunc(sha256Hex, i, text), text, document.excludedEmbedKeys,
                         document.excludedLlmKeys, document.separator);
    var nodeType := AstNodeType(t[a].kind);
    node.metadata := Put(Put(Put(Put(node.metadata, "ast", Ast(a)), "node_type", Text(nodeType)),
                             "source", source), "file_path", filePath);
    if nodeType == "method_node" {
      node.metadata := Put(Put(node.metadata, "start_line", Number(t[a].start.row)),
                           "end_line", Number(t[a].end.row + 1));
    }
    SplitMetadataPuts(t, a, source, filePath);
  }

  /** `build_nodes_from_splits`: one new node per split, in split order. Looking up the
      document's `source` and then its `file_path` raises KeyError when either is missing and
      there is at least one split. */
  method BuildNodesFromSplits(t: Tree, splits: seq<(nat, string)>, document: CodeNode,
                              sha256Hex: string -> string)
    returns (r: Result<seq<CodeNode>>)
    requires forall k | 0 <= k < |splits| :: splits[k].0 < |t|
    ensures r.Err? <==> |splits| > 0 && ("source" !in Keys(document.metadata) || "file_path" !in Keys(document.metadata))
    ensures r.Err? ==> r.error == KeyError(if "source" !in Keys(document.metadata) then "source" else "file_path")
    ensures r.Ok? ==> |r.value| == |splits|
    ensures r.Ok? ==> forall k | 0 <= k < |splits| ::
      fresh(r.value[k]) &&
      BuiltFrom(r.value[k], t, splits[k].0, splits[k].1, k, document,
                Get(document.metadata, "source").value, Get(document.metadata, "file_path").value, sha256Hex)
    ensures r.Ok? ==> forall j, k | 0 <= j < k < |r.value| :: r.value[j] != r.value[k]
  {
    var nodes: seq<CodeNode> := [];
    for i := 0 to |splits|
      invariant |nodes| == i
      invariant i > 0 ==> "source" in Keys(document.metadata) && "file_path" in Keys(document.metadata)
      invariant forall k | 0 <= k < i ::
        fresh(nodes[k]) &&
        BuiltFrom(nodes[k], t, splits[k].0, splits[k].1, k, document,
                  Get(document.metadata, "source").value, Get(document.metadata, "file_path").value, sha256Hex)
      invariant forall j, k | 0 <= j < k < i :: nodes[j] != nodes[k]
    {
      var (a, text) := splits[i];
      var source := Get(document.metadata, "source");
      if source.None? {
        return Err(KeyError("source"));
      }
      var filePath := Get(document.metadata, "file_path");
      if filePath.None? {
        return Err(KeyError("file_path"));
      }
      var node := NewSplitNode(t, a, text, i, document, source.value, filePath.value, sha256Hex);
      nodes := nodes + [node];
    }
    return Ok(nodes);
  }
}
