/** The Java class splitter: cuts a node of a parsed file into the classes and the methods it
    directly contains, each with its source text including a comment just above it. */
module Splitter {
  import opened Wrappers
  import opened Strings
  import opened Dicts
  import opened SyntaxTree
  import opened CodeNodes
  import opened MyUtils

  /** The row a node's text starts at: its previous sibling's start row when that sibling is a
      comment (any node type containing "comment"), else its own start row. */
  function FromRow(t: Tree, n: nat): nat
    requires Valid(t) && n < |t| && t[n].prevSibling.Some?
  {
    var p := t[n].prevSibling.value;
    if Contains(t[p].kind, "comment") then t[p].start.row else t[n].start.row
  }

  /** `get_source_with_comment`: the source lines from `FromRow` to the node's end row
      inclusive, joined with newlines. A node without a previous sibling raises AttributeError,
      since the source asks for the type of `None`. */
  function SourceWithComment(t: Tree, n: nat, source: seq<string>): (r: Result<string>)
    requires Valid(t) && n < |t|
    ensures r.Err? <==> t[n].prevSibling.None?
    ensures r.Ok? ==> r.value == Join(Slice(source, FromRow(t, n), t[n].end.row + 1), "\n")
  {
    if t[n].prevSibling.None? then Err(AttributeError("prev_sibling is None"))
    else Ok(Join(Slice(source, FromRow(t, n), t[n].end.row + 1), "\n"))
  }

  /** When the rows lie inside the source and no source line holds a newline, the text is
      exactly the lines from `FromRow` to the end row: splitting it at newlines gives them back. */
  lemma SourceWithCommentLines(t: Tree, n: nat, source: seq<string>)
    requires Valid(t) && n < |t| && t[n].prevSibling.Some?
    requires FromRow(t, n) <= t[n].end.row < |source|
    requires forall k | 0 <= k < |source| :: '\n' !in source[k]
    ensures SourceWithComment(t, n, source).Ok?
    ensures Lines(SourceWithComment(t, n, source).value) == source[FromRow(t, n)..t[n].end.row + 1]
  {
    var parts := source[FromRow(t, n)..t[n].end.row + 1];
    assert forall k | 0 <= k < |parts| :: '\n' !in parts[k] by {
      forall k | 0 <= k < |parts| ensures '\n' !in parts[k] {
        assert parts[k] == source[FromRow(t, n) + k];
      }
    }
    SplitOnJoin(parts, '\n');
  }

  /** The nodes `split_node` looks at: the children of a `program` node, else the children of
      the node's `body` field, whose absence raises AttributeError. Every candidate comes after
      the node in the tree. */
  function Candidates(t: Tree, a: nat): (r: Result<seq<nat>>)
    requires Valid(t) && a < |t|
    ensures r.Err? <==> t[a].kind != "program" && ChildByField(t, a, "body").None?
    ensures r.Ok? ==> forall k | 0 <= k < |r.value| :: a < r.value[k] < |t|
  {
    if t[a].kind == "program" then
      ChildrenInside(t, a);
      Ok(t[a].children)
    else
      match ChildByField(t, a, "body")
      case None => Err(AttributeError("child_by_field_name(\"body\") is None"))
      case Some(b) =>
        ChildrenAbove(t, a, b);
        ChildrenInside(t, b);
        Ok(t[b].children)
  }

  /** A candidate `split_node` keeps: a class declaration, or a method or constructor
      declaration whose body has at least one named child (so abstract and empty methods are
      dropped). Interfaces and enums are not kept. */
  predicate Selected(t: Tree, c: nat)
    requires Valid(t) && c < |t|
  {
    || t[c].kind in ClassTypes
    || (t[c].kind in MethodTypes &&
        match ChildByField(t, c, "body")
        case None => false
        case Some(b) => ChildrenAbove(t, c, b); |NamedChildren(t, b)| > 0)
  }

  /** The selected candidates, in order. */
  function SelectedOf(t: Tree, cs: seq<nat>): seq<nat>
    requires Valid(t) && forall k | 0 <= k < |cs| :: cs[k] < |t|
  {
    if |cs| == 0 then []
    else SelectedOf(t, cs[..|cs| - 1]) + (if Selected(t, cs[|cs| - 1]) then [cs[|cs| - 1]] else [])
  }

  /** The pairs the loop of `split_node` collects from candidates `cs`: each selected candidate
      with its source text, in order; the first text that cannot be built stops it. */
  function SplitsOf(t: Tree, cs: seq<nat>, source: seq<string>): Result<seq<(nat, string)>>
    requires Valid(t) && forall k | 0 <= k < |cs| :: cs[k] < |t|
  {
    if |cs| == 0 then Ok([])
    else
      var prev :- SplitsOf(t, cs[..|cs| - 1], source);
      var c := cs[|cs| - 1];
      if Selected(t, c) then
        var text :- SourceWithComment(t, c, source);
        Ok(prev + [(c, text)])
      else Ok(prev)
  }

  function Firsts(ps: seq<(nat, string)>): (r: seq<nat>)
    ensures |r| == |ps| && forall k | 0 <= k < |ps| :: r[k] == ps[k].0
  {
    seq(|ps|, k requires 0 <= k < |ps| => ps[k].0)
  }

  /** A selected candidate whose text cannot be built: it has no previous sibling. */
  predicate Unanchored(t: Tree, c: nat)
    requires Valid(t) && c < |t|
  {
    Selected(t, c) && t[c].prevSibling.None?
  }

  /** Some candidate is unanchored exactly when one of the front is or the last one is. */
  lemma SomeUnanchoredSplit(t: Tree, front: seq<nat>, c: nat)
    requires Valid(t) && c < |t| && forall k | 0 <= k < |front| :: front[k] < |t|
    ensures var cs := front + [c];
      (exists k | 0 <= k < |cs| :: Unanchored(t, cs[k])) <==>
      (exists k | 0 <= k < |front| :: Unanchored(t, front[k])) || Unanchored(t, c)
  {
    var cs := front + [c];
    if exists k | 0 <= k < |front| :: Unanchored(t, front[k]) {
      var k :| 0 <= k < |front| && Unanchored(t, front[k]);
      assert cs[k] == front[k];
    }
    assert cs[|front|] == c;
  }

  /** The splits fail exactly when a selected candidate has no previous sibling. */
  lemma {:induction false} SplitsOfErr(t: Tree, cs: seq<nat>, source: seq<string>)
    requires Valid(t) && forall k | 0 <= k < |cs| :: cs[k] < |t|
    ensures SplitsOf(t, cs, source).Err? <==> exists k | 0 <= k < |cs| :: Unanchored(t, cs[k])
    decreases |cs|
  {
    if |cs| > 0 {
      SplitsOfErr(t, cs[..|cs| - 1], source);
      SomeUnanchoredSplit(t, cs[..|cs| - 1], cs[|cs| - 1]);
      assert cs == cs[..|cs| - 1] + [cs[|cs| - 1]];
    }
  }

  /** When they succeed, the splits are exactly the selected candidates in candidate order,
      each paired with its source text. */
  lemma {:induction false} SplitsOfOk(t: Tree, cs: seq<nat>, source: seq<string>)
    requires Valid(t) && forall k | 0 <= k < |cs| :: cs[k] < |t|
    ensures SplitsOf(t, cs, source).Ok? ==>
      var ps := SplitsOf(t, cs, source).value;
      Firsts(ps) == SelectedOf(t, cs) &&
      forall k | 0 <= k < |ps| :: ps[k].0 < |t| && Ok(ps[k].1) == SourceWithComment(t, ps[k].0, source)
    decreases |cs|
  {
    if |cs| > 0 && SplitsOf(t, cs, source).Ok? {
      var n := |cs| - 1;
      var front := cs[..n];
      SplitsOfOk(t, front, source);
      var c := cs[n];
      var prev := SplitsOf(t, front, source).value;
      if Selected(t, c) {
        var text := SourceWithComment(t, c, source).value;
        assert SplitsOf(t, cs, source) == Ok(prev + [(c, text)]);
        assert Firsts(prev + [(c, text)]) == Firsts(prev) + [c];
      }
    }
  }

  /** The AST and source values a node's metadata holds are of the kinds the splitter reads: a
      node of the tree, and a list of lines. */
  predicate WellTyped(t: Tree, md: seq<(string, MetaValue)>) {
    && (Get(md, "ast").Some? ==> Get(md, "ast").value.Ast? && Get(md, "ast").value.node < |t|)
    && (Get(md, "source").Some? ==> Get(md, "source").value.SourceLines?)
  }

  /** What `split_node` computes for a node with metadata `md`: the `ast` and `source` entries,
      each raising KeyError when missing, then the splits of the candidates. */
  function SplitOf(t: Tree, md: seq<(string, MetaValue)>): Result<seq<(nat, string)>>
    requires Valid(t) && WellTyped(t, md)
  {
    match Get(md, "ast")
    case None => Err(KeyError("ast"))
    case Some(a) =>
      match Get(md, "source")
      case None => Err(KeyError("source"))
      case Some(source) =>
        var cs :- Candidates(t, a.node);
        SplitsOf(t, cs, source.lines)
  }

  /** The splits of a node come after it in the tree. */
  lemma SplitsAfter(t: Tree, md: seq<(string, MetaValue)>)
    requires Valid(t) && WellTyped(t, md)
    ensures SplitOf(t, md).Ok? ==>
      forall k | 0 <= k < |SplitOf(t, md).value| :: Get(md, "ast").value.node < SplitOf(t, md).value[k].0 < |t|
  {
    if SplitOf(t, md).Ok? {
      var a := Get(md, "ast").value.node;
      var cs := Candidates(t, a).value;
      var ps := SplitOf(t, md).value;
      SplitsOfOk(t, cs, Get(md, "source").value.lines);
      forall k | 0 <= k < |ps| ensures a < ps[k].0 < |t| {
        assert ps[k].0 == Firsts(ps)[k];
        SelectedIn(t, cs, ps[k].0);
      }
    }
  }

  /** A selected candidate is a candidate. */
  lemma {:induction false} SelectedIn(t: Tree, cs: seq<nat>, c: nat)
    requires Valid(t) && forall k | 0 <= k < |cs| :: cs[k] < |t|
    requires c in SelectedOf(t, cs)
    ensures c in cs
    decreases |cs|
  {
    var n := |cs| - 1;
    if c in SelectedOf(t, cs[..n]) {
      SelectedIn(t, cs[..n], c);
    }
  }

  /** `split_node`: looks up the node's AST and source, picks the candidates, and collects the
      selected ones with their text in a loop. */
  method SplitNode(t: Tree, node: CodeNode) returns (r: Result<seq<(nat, string)>>)
    requires Valid(t) && WellTyped(t, node.metadata)
    ensures r == SplitOf(t, node.metadata)
  {
    var ast := Get(node.metadata, "ast");
    if ast.None? {
      return Err(KeyError("ast"));
    }
    var source := Get(node.metadata, "source");
    if source.None? {
      return Err(KeyError("source"));
    }
    var lines := source.value.lines;
    var candidates := Candidates(t, ast.value.node);
    if candidates.Err? {
      return Err(candidates.error);
    }
    var cs := candidates.value;
    var results: seq<(nat, string)> := [];
    for i := 0 to |cs|
      invariant SplitsOf(t, cs[..i], lines) == Ok(results)
    {
      assert cs[..i + 1][..i] == cs[..i];
      var child := cs[i];
      if Selected(t, child) {
        var text := SourceWithComment(t, child, lines);
        if text.Err? {
          assert SplitsOf(t, cs[..i + 1], lines).Err?;
          SplitsStop(t, cs, lines, i + 1);
          return Err(text.error);
        }
        results := results + [(child, text.value)];
      }
    }
    assert cs[..|cs|] == cs;
    return Ok(results);
  }

  /** Once the splits of a prefix fail, the splits of the whole fail with the same error. */
  lemma {:induction false} SplitsStop(t: Tree, cs: seq<nat>, source: seq<string>, i: nat)
    requires Valid(t) && forall k | 0 <= k < |cs| :: cs[k] < |t|
    requires i <= |cs| && SplitsOf(t, cs[..i], source).Err?
    ensures SplitsOf(t, cs, source) == SplitsOf(t, cs[..i], source)
    decreases |cs| - i
  {
    if i < |cs| {
      assert cs[..i + 1][..i] == cs[..i];
      SplitsStop(t, cs, source, i + 1);
    } else {
      assert cs[..i] == cs;
    }
  }

  /** `_parse_nodes` of the splitter on one node (what `get_nodes_from_documents([node])` runs):
      the node's splits, each built into a new code node. */
  method ParseNode(t: Tree, node: CodeNode, sha256Hex: string -> string) returns (r: Result<seq<CodeNode>>)
    requires Valid(t) && WellTyped(t, node.metadata)
    ensures r.Ok? ==> SplitOf(t, node.metadata).Ok?
    ensures r.Ok? ==>
      var splits := SplitOf(t, node.metadata).value;
      && |r.value| == |splits|
      && (|splits| > 0 ==> "source" in Keys(node.metadata) && "file_path" in Keys(node.metadata))
      && (forall k | 0 <= k < |splits| ::
            Get(node.metadata, "ast").value.node < splits[k].0 < |t| &&
            fresh(r.value[k]) &&
            BuiltFrom(r.value[k], t, splits[k].0, splits[k].1, k, node,
                      Get(node.metadata, "source").value, Get(node.metadata, "file_path").value, sha256Hex))
      && (forall j, k | 0 <= j < k < |r.value| :: r.value[j] != r.value[k])
    ensures SplitOf(t, node.metadata).Ok? && SplitOf(t, node.metadata).value == [] ==> r == Ok([])
    ensures r.Err? <==>
      SplitOf(t, node.metadata).Err? ||
      (|SplitOf(t, node.metadata).value| > 0 && "file_path" !in Keys(node.metadata))
    ensures SplitOf(t, node.metadata).Err? ==> r == Err(SplitOf(t, node.metadata).error)
    ensures SplitOf(t, node.metadata).Ok? && r.Err? ==> r.error == KeyError("file_path")
  {
    var splits := SplitNode(t, node);
    if splits.Err? {
      return Err(splits.error);
    }
    SplitsAfter(t, node.metadata);
    r := BuildNodesFromSplits(t, splits.value, node, sha256Hex);
  }
}
