/** A parsed Java file as tree-sitter presents it, laid out as an arena: every node is an
    index into a sequence, with its kind, its source text, its 0-based start and end
    points, its parent, its ordered children, its previous sibling and the field name
    under which it hangs from its parent. Parsing itself is not modelled: a tree is an input. */
module SyntaxTree {
  import opened Wrappers
  import opened Strings

  /** A (row, column) position, both 0-based, as tree-sitter reports them. */
  datatype Point = Point(row: nat, column: nat)

  datatype Node = Node(
    kind: string,              // tree-sitter's node type, e.g. "class_body"
    named: bool,               // named nodes are the ones `named_children` returns
    field: Option<string>,     // the field name of the edge from the parent, e.g. "body"
    text: string,              // the source text the node spans
    start: Point,
    end: Point,
    parent: Option<nat>,
    children: seq<nat>,
    prevSibling: Option<nat>)

  type Tree = seq<Node>

  /** Indices stay inside the arena; a child comes after its parent and points back to it. */
  predicate Valid(t: Tree) {
    && (forall i, c {:trigger c in t[i].children} | 0 <= i < |t| && c in t[i].children ::
          i < c < |t| && t[c].parent == Some(i))
    && (forall i | 0 <= i < |t| && t[i].parent.Some? :: t[i].parent.value < i)
    && (forall i | 0 <= i < |t| && t[i].prevSibling.Some? :: t[i].prevSibling.value < |t|)
  }

  /** No node lists the same child twice: every node of a parse is one distinct child. */
  predicate UniqueChildren(t: Tree) {
    forall i, j, k | 0 <= i < |t| && 0 <= j < k < |t[i].children| :: t[i].children[j] != t[i].children[k]
  }

  /** tree-sitter `child_by_field_name`: the first child hanging under field `f`. */
  function ChildByField(t: Tree, n: nat, f: string): (r: Option<nat>)
    requires Valid(t) && n < |t|
    ensures r.Some? ==> r.value in t[n].children && t[r.value].field == Some(f)
  {
    ChildrenInside(t, n);
    FirstWithField(t, t[n].children, f)
  }

  function FirstWithField(t: Tree, cs: seq<nat>, f: string): (r: Option<nat>)
    requires forall k | 0 <= k < |cs| :: cs[k] < |t|
    ensures r.Some? ==> r.value in cs && t[r.value].field == Some(f)
    ensures r.None? ==> forall c | c in cs :: t[c].field != Some(f)
  {
    if cs == [] then None
    else if t[cs[0]].field == Some(f) then Some(cs[0])
    else FirstWithField(t, cs[1..], f)
  }

  /** tree-sitter `named_children`: the named children, in order. */
  function NamedChildren(t: Tree, n: nat): (r: seq<nat>)
    requires Valid(t) && n < |t|
    ensures forall c | c in r :: c in t[n].children && t[c].named
  {
    ChildrenInside(t, n);
    NamedOf(t, t[n].children)
  }

  function NamedOf(t: Tree, cs: seq<nat>): (r: seq<nat>)
    requires forall k | 0 <= k < |cs| :: cs[k] < |t|
    ensures forall c | c in r :: c in cs && t[c].named
    ensures forall c | c in cs && t[c].named :: c in r
  {
    if cs == [] then []
    else (if t[cs[0]].named then [cs[0]] else []) + NamedOf(t, cs[1..])
  }

  lemma ChildrenInside(t: Tree, n: nat)
    requires Valid(t) && n < |t|
    ensures forall k | 0 <= k < |t[n].children| :: n < t[n].children[k] < |t|
  {
    forall k | 0 <= k < |t[n].children| ensures n < t[n].children[k] < |t| {
      assert t[n].children[k] in t[n].children;
    }
  }

  /** The children of `n` in the arena, all valid indices above `n`. */
  lemma ChildrenAbove(t: Tree, n: nat, c: nat)
    requires Valid(t) && n < |t| && c in t[n].children
    ensures n < c < |t| && t[c].parent == Some(n)
  {
  }

  lemma ParentBelow(t: Tree, n: nat)
    requires Valid(t) && n < |t|
    ensures t[n].parent.Some? ==> t[n].parent.value < n
  {
  }

  lemma PrevSiblingInside(t: Tree, n: nat)
    requires Valid(t) && n < |t| && t[n].prevSibling.Some?
    ensures t[n].prevSibling.value < |t|
  {
  }

  /** `a` is a proper ancestor of `n`: following parent links from `n` reaches `a`. */
  predicate IsAncestor(t: Tree, a: nat, n: nat)
    requires Valid(t) && n < |t|
    decreases n
  {
    t[n].parent.Some? &&
    var p := t[n].parent.value;
    ParentBelow(t, n);
    p == a || IsAncestor(t, a, p)
  }

  /** An ancestor sits before its descendants in the arena. */
  lemma {:induction false} AncestorBelow(t: Tree, a: nat, n: nat)
    requires Valid(t) && n < |t| && IsAncestor(t, a, n)
    ensures a < n
    decreases n
  {
    var p := t[n].parent.value;
    if p != a {
      AncestorBelow(t, a, p);
    }
  }
}
