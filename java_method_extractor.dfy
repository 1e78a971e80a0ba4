/** functions/MethodExtractor/java_method_extractor.py: finding every method and constructor
    declaration of a parsed Java file, naming the class each one belongs to the way the
    Java compiler names class files (`Outer$Inner`, `Outer$1` for anonymous classes), and
    picking the methods a diff touches. The syntax tree and the diff hunks are inputs. */
module JavaMethodExtractor {
  import opened Wrappers
  import opened Strings
  import opened SyntaxTree
  import opened MyTypes

  predicate IsClassDeclaration(kind: string) {
    kind in ["class_declaration", "interface_declaration", "enum_declaration", "enum_body_declaration"]
  }

  predicate IsClassBody(kind: string) {
    kind in ["class_body", "interface_body", "enum_body"]
  }

  predicate IsMethodDeclaration(kind: string) {
    kind in ["method_declaration", "constructor_declaration"]
  }

  /** `a` is `n` or one of its ancestors. */
  predicate AncestorOrSelf(t: Tree, a: nat, n: nat)
    requires Valid(t) && n < |t|
  {
    a == n || IsAncestor(t, a, n)
  }

  // ---------------------------------------------------------------------------------
  // Parameter, return type and name of a declaration

  /** The first child whose kind is not "modifiers". */
  function FirstNonModifier(t: Tree, cs: seq<nat>): (r: Option<nat>)
    requires forall k | 0 <= k < |cs| :: cs[k] < |t|
    ensures r.Some? ==> r.value in cs && t[r.value].kind != "modifiers"
    ensures r.Some? ==>
      exists k | 0 <= k < |cs| :: cs[k] == r.value && forall j | 0 <= j < k :: t[cs[j]].kind == "modifiers"
    ensures r.None? ==> forall k | 0 <= k < |cs| :: t[cs[k]].kind == "modifiers"
  {
    if cs == [] then None
    else if t[cs[0]].kind != "modifiers" then Some(cs[0])
    else FirstNonModifier(t, cs[1..])
  }

  /** The text before the first '<': `arg.split("<")[0]` guarded by `"<" in arg`. */
  function CutTypeArguments(arg: string): (r: string)
    ensures '<' !in r
    ensures |r| <= |arg| && r == arg[..|r|]
    ensures '<' !in arg ==> r == arg
    ensures '<' in arg ==> |r| < |arg| && arg[|r|] == '<'
  {
    if Contains(arg, "<") then
      SplitOnPiecesFree(arg, "<");
      JoinSplitOn(arg, "<");
      var pieces := SplitOn(arg, "<");
      PrefixOfJoin(pieces, "<");
      NotContainsChar(pieces[0], '<');
      SplitOnStep(arg, "<", Find(arg, "<", 0).value);
      pieces[0]
    else
      NotContainsChar(arg, '<');
      arg
  }

  lemma PrefixOfJoin(parts: seq<string>, sep: string)
    requires |parts| >= 1
    ensures |parts[0]| <= |Join(parts, sep)| && Join(parts, sep)[..|parts[0]|] == parts[0]
  {
  }

  /** The last named child of `n` (`named_children[-1]`), an IndexError when there is none. */
  function LastNamed(t: Tree, n: nat): (r: Result<nat>)
    requires Valid(t) && n < |t|
    ensures r.Ok? <==> |NamedChildren(t, n)| > 0
    ensures r.Ok? ==> r.value in t[n].children && t[r.value].named
  {
    var cs := NamedChildren(t, n);
    if |cs| == 0 then Err(IndexError("named_children[-1]")) else Ok(cs[|cs| - 1])
  }

  /** The first named child of `n` (`named_children[0]`), an IndexError when there is none. */
  function FirstNamed(t: Tree, n: nat): (r: Result<nat>)
    requires Valid(t) && n < |t|
    ensures r.Ok? <==> |NamedChildren(t, n)| > 0
    ensures r.Ok? ==> r.value in t[n].children && t[r.value].named
  {
    var cs := NamedChildren(t, n);
    if |cs| == 0 then Err(IndexError("named_children[0]")) else Ok(cs[0])
  }

  /** The type one formal parameter contributes, or None when it contributes none. */
  function ParamType(t: Tree, p: nat): Result<Option<string>>
    requires Valid(t) && p < |t|
  {
    if t[p].kind == "spread_parameter" then
      ChildrenInside(t, p);
      match FirstNonModifier(t, t[p].children)
      case None => Ok(None)
      case Some(x) => Ok(Some(t[x].text + "[]"))
    else
      match ChildByField(t, p, "type")
      case None => Ok(None)
      case Some(ty) =>
        ChildrenInside(t, p);
        var base :- if t[ty].kind == "scoped_type_identifier" then
                      var last :- LastNamed(t, ty); Ok(t[last].text)
                    else Ok(t[ty].text);
        var arg := if ChildByField(t, p, "dimensions").Some? then base + "[]" else base;
        Ok(Some(CutTypeArguments(arg)))
  }

  /** The types of the parameters `ps`, in order, failing at the first one that fails. */
  function ParamTypesOf(t: Tree, ps: seq<nat>): (r: Result<seq<string>>)
    requires Valid(t) && forall k | 0 <= k < |ps| :: ps[k] < |t|
    ensures r.Ok? ==> |r.value| <= |ps|
  {
    if ps == [] then Ok([])
    else
      var front :- ParamTypesOf(t, ps[..|ps| - 1]);
      var last :- ParamType(t, ps[|ps| - 1]);
      Ok(front + (if last.Some? then [last.value] else []))
  }

  /** One more parameter extends the list of types (or ends it with an exception). */
  lemma ParamTypesOfStep(t: Tree, ps: seq<nat>, i: nat)
    requires Valid(t) && forall k | 0 <= k < |ps| :: ps[k] < |t|
    requires i < |ps| && ParamTypesOf(t, ps[..i]).Ok?
    ensures ParamType(t, ps[i]).Err? ==> ParamTypesOf(t, ps[..i + 1]) == Err(ParamType(t, ps[i]).error)
    ensures ParamType(t, ps[i]).Ok? ==>
      ParamTypesOf(t, ps[..i + 1]) ==
      Ok(ParamTypesOf(t, ps[..i]).value + (if ParamType(t, ps[i]).value.Some? then [ParamType(t, ps[i]).value.value] else []))
  {
    assert ps[..i + 1][..i] == ps[..i];
    assert ps[..i + 1][i] == ps[i];
  }

  /** An exception at some parameter ends the whole list with that exception. */
  lemma {:induction false} ParamTypesOfErr(t: Tree, ps: seq<nat>, i: nat)
    requires Valid(t) && forall k | 0 <= k < |ps| :: ps[k] < |t|
    requires i <= |ps| && ParamTypesOf(t, ps[..i]).Err?
    ensures ParamTypesOf(t, ps) == ParamTypesOf(t, ps[..i])
    decreases |ps| - i
  {
    if i < |ps| {
      var front := ps[..|ps| - 1];
      assert front[..i] == ps[..i];
      ParamTypesOfErr(t, front, i);
    } else {
      assert ps[..i] == ps;
    }
  }

  /** `get_param_types`: the parameter list of a declaration has to exist (AttributeError otherwise). */
  function ParamTypes(t: Tree, n: nat): Result<seq<string>>
    requires Valid(t) && n < |t|
  {
    match ChildByField(t, n, "parameters")
    case None => Err(AttributeError("parameters"))
    case Some(ps) =>
      ChildrenInside(t, n);
      NamedInside(t, ps);
      ParamTypesOf(t, NamedChildren(t, ps))
  }

  lemma NamedInside(t: Tree, n: nat)
    requires Valid(t) && n < |t|
    ensures forall k | 0 <= k < |NamedChildren(t, n)| :: NamedChildren(t, n)[k] < |t|
  {
    ChildrenInside(t, n);
    var cs := NamedChildren(t, n);
    forall k | 0 <= k < |cs| ensures cs[k] < |t| {
      assert cs[k] in cs;
      var i :| 0 <= i < |t[n].children| && t[n].children[i] == cs[k];
    }
  }

  /** `s` is `arg` up to its first '<' (all of `arg` when it has none). */
  predicate CutAtFirstAngle(s: string, arg: string) {
    && |s| <= |arg| && s == arg[..|s|] && '<' !in s
    && (|s| < |arg| ==> arg[|s|] == '<')
  }

  /** A spread parameter contributes the text of its first child that is not "modifiers", with
      "[]" appended and no type-argument cut, and nothing when every child is "modifiers". Any
      other parameter without a type contributes nothing. With a type, the base text is the
      type's own, or for a scoped type the text of its last named child (an IndexError when it
      has none); "[]" is appended exactly when the parameter has dimensions; and the result is
      that text up to its first '<'. */
  lemma ParamTypeRules(t: Tree, p: nat)
    requires Valid(t) && p < |t|
    ensures t[p].kind == "spread_parameter" ==>
      && ParamType(t, p).Ok?
      && (ParamType(t, p).value.None? <==> forall c | c in t[p].children :: t[c].kind == "modifiers")
      && forall k | 0 <= k < |t[p].children| && t[p].children[k] < |t| && t[t[p].children[k]].kind != "modifiers" &&
                    (forall j | 0 <= j < k :: t[p].children[j] < |t| && t[t[p].children[j]].kind == "modifiers") ::
           ParamType(t, p) == Ok(Some(t[t[p].children[k]].text + "[]"))
    ensures t[p].kind != "spread_parameter" && ChildByField(t, p, "type").None? ==> ParamType(t, p) == Ok(None)
    ensures t[p].kind != "spread_parameter" && ChildByField(t, p, "type").Some? ==>
      var ty := ChildByField(t, p, "type").value;
      var scoped := t[ty].kind == "scoped_type_identifier";
      var named := NamedChildren(t, ty);
      && (ParamType(t, p).Err? <==> scoped && named == [])
      && (ParamType(t, p).Err? ==> ParamType(t, p).error == IndexError("named_children[-1]"))
      && (ParamType(t, p).Ok? ==>
            var base := if scoped then t[named[|named| - 1]].text else t[ty].text;
            var arg := if ChildByField(t, p, "dimensions").Some? then base + "[]" else base;
            ParamType(t, p).value.Some? && CutAtFirstAngle(ParamType(t, p).value.value, arg))
  {
    ChildrenInside(t, p);
    if t[p].kind == "spread_parameter" {
      var f := FirstNonModifier(t, t[p].children);
      if f.None? {
        forall c | c in t[p].children ensures t[c].kind == "modifiers" {
          var k :| 0 <= k < |t[p].children| && t[p].children[k] == c;
        }
      } else {
        var cs := t[p].children;
        forall k | 0 <= k < |cs| && cs[k] < |t| && t[cs[k]].kind != "modifiers" &&
                   (forall j | 0 <= j < k :: cs[j] < |t| && t[cs[j]].kind == "modifiers")
          ensures cs[k] == f.value
        {
          var i :| 0 <= i < |cs| && cs[i] == f.value && forall j | 0 <= j < i :: t[cs[j]].kind == "modifiers";
          assert i == k;
        }
      }
    }
  }

  /** `get_return_type`: "" when there is no type field (a constructor), the first named child
      of a generic type, the last named child of a scoped type, otherwise the type's text. */
  function ReturnType(t: Tree, n: nat): (r: Result<string>)
    requires Valid(t) && n < |t|
    ensures ChildByField(t, n, "type").None? ==> r == Ok("")
    ensures ChildByField(t, n, "type").Some? ==>
      var c := ChildByField(t, n, "type").value;
      var named := NamedChildren(t, c);
      && (t[c].kind == "generic_type" ==>
            && (r.Ok? <==> named != [])
            && (r.Ok? ==> named[0] < |t| && r.value == t[named[0]].text)
            && (r.Err? ==> r.error == IndexError("named_children[0]")))
      && (t[c].kind == "scoped_type_identifier" ==>
            && (r.Ok? <==> named != [])
            && (r.Ok? ==> named[|named| - 1] < |t| && r.value == t[named[|named| - 1]].text)
            && (r.Err? ==> r.error == IndexError("named_children[-1]")))
      && (t[c].kind != "generic_type" && t[c].kind != "scoped_type_identifier" ==> r == Ok(t[c].text))
  {
    match ChildByField(t, n, "type")
    case None => Ok("")
    case Some(c) =>
      ChildrenAbove(t, n, c);
      if t[c].kind == "generic_type" then
        var x :- FirstNamed(t, c);
        ChildrenAbove(t, c, x);
        Ok(t[x].text)
      else if t[c].kind == "scoped_type_identifier" then
        var x :- LastNamed(t, c);
        ChildrenAbove(t, c, x);
        Ok(t[x].text)
      else Ok(t[c].text)
  }

  /** The first "identifier" child. */
  function FirstIdentifier(t: Tree, cs: seq<nat>): (r: Option<nat>)
    requires forall k | 0 <= k < |cs| :: cs[k] < |t|
    ensures r.Some? ==> r.value in cs && t[r.value].kind == "identifier"
    ensures r.None? ==> forall k | 0 <= k < |cs| :: t[cs[k]].kind != "identifier"
  {
    if cs == [] then None
    else if t[cs[0]].kind == "identifier" then Some(cs[0])
    else FirstIdentifier(t, cs[1..])
  }

  /** `get_method_name`: the text of the first identifier child, None when there is none. */
  function MethodName(t: Tree, n: nat): (r: Option<string>)
    requires Valid(t) && n < |t|
    ensures r.None? <==> forall c | c in t[n].children :: t[c].kind != "identifier"
  {
    ChildrenInside(t, n);
    var f := FirstIdentifier(t, t[n].children);
    if f.None? then
      assert forall c | c in t[n].children :: t[c].kind != "identifier" by {
        forall c | c in t[n].children ensures t[c].kind != "identifier" {
          var k :| 0 <= k < |t[n].children| && t[n].children[k] == c;
        }
      }
      None
    else Some(t[f.value].text)
  }

  // ---------------------------------------------------------------------------------
  // Class bodies and their names

  /** The nearest class body at or above `o`, following parent links. */
  function NearestBody(t: Tree, o: Option<nat>): (r: Option<nat>)
    requires Valid(t) && (o.Some? ==> o.value < |t|)
    ensures r.Some? ==> o.Some? && r.value < |t| && IsClassBody(t[r.value].kind) && AncestorOrSelf(t, r.value, o.value)
    decreases if o.Some? then o.value + 1 else 0
  {
    if o.None? then None
    else
      var n := o.value;
      if IsClassBody(t[n].kind) then Some(n)
      else
        if t[n].parent.Some? then ParentBelow(t, n); NearestBody(t, t[n].parent)
        else None
  }

  /** The while-loops of `get_class_name_for_method` and `get_ancestor_class_body`: climb
      parent links from `start` to the first class body. */
  method FindNearestBody(t: Tree, start: Option<nat>) returns (r: Option<nat>)
    requires Valid(t) && (start.Some? ==> start.value < |t|)
    ensures r == NearestBody(t, start)
  {
    var node: Option<nat> := start;
    while node.Some?
      invariant node.Some? ==> node.value < |t|
      invariant NearestBody(t, node) == NearestBody(t, start)
      decreases if node.Some? then node.value + 1 else 0
    {
      if IsClassBody(t[node.value].kind) {
        return node;
      }
      ParentBelow(t, node.value);
      node := t[node.value].parent;
    }
    return None;
  }

  /** The identifiers among `cs`, last child first (what repeated `insert(0, ...)` leaves). */
  function RevIdentifiers(t: Tree, cs: seq<nat>): (r: seq<string>)
    requires forall k | 0 <= k < |cs| :: cs[k] < |t|
    ensures |r| <= |cs|
  {
    if cs == [] then []
    else
      var last := cs[|cs| - 1];
      (if t[last].kind == "identifier" then [t[last].text] else []) + RevIdentifiers(t, cs[..|cs| - 1])
  }

  /** The name segments every declaration at or above `o` contributes, outermost first. */
  function DeclSegments(t: Tree, o: Option<nat>): seq<string>
    requires Valid(t) && (o.Some? ==> o.value < |t|)
    decreases if o.Some? then o.value + 1 else 0
  {
    if o.None? then []
    else
      var n := o.value;
      ParentBelow(t, n);
      ChildrenInside(t, n);
      DeclSegments(t, t[n].parent) + (if IsClassDeclaration(t[n].kind) then RevIdentifiers(t, t[n].children) else [])
  }

  /** The declared-class branch of `get_class_name_for_class_body`: collect the identifiers of
      every enclosing declaration and `$`-join them; an empty list fails the assertion. */
  method DeclaredClassName(t: Tree, b: nat) returns (r: Result<string>)
    requires Valid(t) && b < |t|
    ensures r.Ok? <==> |DeclSegments(t, t[b].parent)| > 0
    ensures r.Ok? ==> r.value == Join(DeclSegments(t, t[b].parent), "$")
    ensures r.Err? ==> r == Err(AssertionError("class name not found"))
  {
    var node: Option<nat> := t[b].parent;
    var classes: seq<string> := [];
    while node.Some?
      invariant node.Some? ==> node.value < |t|
      invariant DeclSegments(t, t[b].parent) == DeclSegments(t, node) + classes
      decreases if node.Some? then node.value + 1 else 0
    {
      var x := node.value;
      ChildrenInside(t, x);
      if IsClassDeclaration(t[x].kind) {
        classes := PrependIdentifiers(t, t[x].children, classes);
      }
      ParentBelow(t, x);
      node := t[x].parent;
    }
    assert DeclSegments(t, t[b].parent) == classes;
    if |classes| == 0 {
      return Err(AssertionError("class name not found"));
    }
    return Ok(Join(classes, "$"));
  }

  /** The inner loop of the declared-class branch: `classes.insert(0, name)` for every
      identifier child in turn. */
  method PrependIdentifiers(t: Tree, cs: seq<nat>, classes: seq<string>) returns (r: seq<string>)
    requires forall k | 0 <= k < |cs| :: cs[k] < |t|
    ensures r == RevIdentifiers(t, cs) + classes
  {
    r := classes;
    for i := 0 to |cs|
      invariant r == RevIdentifiers(t, cs[..i]) + classes
    {
      assert cs[..i + 1][..i] == cs[..i];
      if t[cs[i]].kind == "identifier" {
        r := [t[cs[i]].text] + r;
      }
    }
    assert cs[..|cs|] == cs;
  }

  /** A named class inside another declaration extends the outer declaration's segments:
      the segments of an ancestor are a prefix of the segments of any node below it. */
  lemma {:induction false} DeclSegmentsPrefix(t: Tree, a: nat, n: nat)
    requires Valid(t) && n < |t| && AncestorOrSelf(t, a, n)
    ensures a < |t|
    ensures |DeclSegments(t, Some(a))| <= |DeclSegments(t, Some(n))|
    ensures DeclSegments(t, Some(n))[..|DeclSegments(t, Some(a))|] == DeclSegments(t, Some(a))
    decreases n
  {
    if a != n {
      var p := t[n].parent.value;
      ParentBelow(t, n);
      ChildrenInside(t, n);
      DeclSegmentsPrefix(t, a, p);
      var own := if IsClassDeclaration(t[n].kind) then RevIdentifiers(t, t[n].children) else [];
      assert DeclSegments(t, Some(n)) == DeclSegments(t, Some(p)) + own;
    }
  }

  /** Nodes that are not declarations add no segment: in particular an anonymous class body
      (under an object creation, not a declaration) leaves the segments of its parent unchanged. */
  lemma NonDeclarationAddsNothing(t: Tree, n: nat)
    requires Valid(t) && n < |t| && !IsClassDeclaration(t[n].kind)
    ensures DeclSegments(t, Some(n)) == DeclSegments(t, t[n].parent)
  {
  }

  // ---------------------------------------------------------------------------------
  // The walk, as a function of its state

  /** The three pieces of state `get_java_methods` keeps across the walk: the methods found
      so far, the name given to each class body (by node), and the anonymous-class counter
      kept per class name. */
  datatype WalkState = WalkState(methods: seq<JMethod>, names: map<nat, string>, counter: map<string, int>)

  /** `get_class_name_for_method`: the cached name of the nearest enclosing class body. */
  function ClassNameOf(t: Tree, names: map<nat, string>, n: nat): (r: Result<string>)
    requires Valid(t) && n < |t|
    ensures r.Ok? <==> NearestBody(t, Some(n)).Some? && NearestBody(t, Some(n)).value in names
    ensures r.Ok? ==> r.value == names[NearestBody(t, Some(n)).value]
  {
    match NearestBody(t, Some(n))
    case None => Err(AttributeError("'NoneType' object has no attribute 'type'"))
    case Some(b) => if b in names then Ok(names[b]) else Err(KeyError("byte_range"))
  }

  /** `get_method_object`: the record for one declaration, or None when `only` names a
      different class. */
  function MethodObject(t: Tree, lines: seq<string>, only: Option<string>, names: map<nat, string>, n: nat)
    : (r: Result<Option<JMethod>>)
    requires Valid(t) && n < |t|
  {
    var className :- ClassNameOf(t, names, n);
    if only.Some? && className != only.value then Ok(None)
    else
      var code := Join(Slice(lines, t[n].start.row, t[n].end.row + 1), "\n");
      var paramTypes :- ParamTypes(t, n);
      var returnType :- ReturnType(t, n);
      match t[n].prevSibling
      case None => Err(AttributeError("'NoneType' object has no attribute 'type'"))
      case Some(prev) =>
        PrevSiblingInside(t, n);
        var commented := Contains(t[prev].kind, "comment");
        var comment := if commented then t[prev].text else "";
        var text := if commented then Join(Slice(lines, t[prev].start.row, t[n].end.row + 1), "\n") else code;
        Ok(Some(JMethod(MethodName(t, n), className, paramTypes, returnType, code, comment, text,
                        (t[n].start, t[n].end), None)))
  }

  /** What a record says about the declaration it came from: the class name is the cached name of
      the nearest class body, the code is the declaration's rows joined, and the text is the code
      unless a comment precedes the declaration, in which case it starts at the comment's row. */
  lemma MethodObjectFields(t: Tree, lines: seq<string>, only: Option<string>, names: map<nat, string>, n: nat)
    requires Valid(t) && n < |t|
    requires MethodObject(t, lines, only, names, n).Ok? && MethodObject(t, lines, only, names, n).value.Some?
    ensures var m := MethodObject(t, lines, only, names, n).value.value;
      && NearestBody(t, Some(n)).Some? && m.className == names[NearestBody(t, Some(n)).value]
      && (only.Some? ==> m.className == only.value)
      && m.code == Join(Slice(lines, t[n].start.row, t[n].end.row + 1), "\n")
      && m.loc == (t[n].start, t[n].end)
      && m.name == MethodName(t, n)
      && Ok(m.paramTypes) == ParamTypes(t, n)
      && Ok(m.returnType) == ReturnType(t, n)
      && t[n].prevSibling.Some?
      && t[n].prevSibling.value < |t|
      && var prev := t[n].prevSibling.value;
         (Contains(t[prev].kind, "comment") ==>
            m.comment == t[prev].text && m.text == Join(Slice(lines, t[prev].start.row, t[n].end.row + 1), "\n"))
         && (!Contains(t[prev].kind, "comment") ==> m.comment == "" && m.text == m.code)
  {
    var className := ClassNameOf(t, names, n).value;
    var paramTypes := ParamTypes(t, n).value;
    var returnType := ReturnType(t, n).value;
    var prev := t[n].prevSibling.value;
    PrevSiblingInside(t, n);
    var code := Join(Slice(lines, t[n].start.row, t[n].end.row + 1), "\n");
    var commented := Contains(t[prev].kind, "comment");
    var comment := if commented then t[prev].text else "";
    var text := if commented then Join(Slice(lines, t[prev].start.row, t[n].end.row + 1), "\n") else code;
    assert MethodObject(t, lines, only, names, n) ==
      Ok(Some(JMethod(MethodName(t, n), className, paramTypes, returnType, code, comment, text,
                      (t[n].start, t[n].end), None)));
  }

  /** `get_class_name_for_class_body`: a body under a declaration is named after the enclosing
      declarations; any other body (an anonymous class) is named after its nearest enclosing
      body, with that name's counter bumped by one and appended. Returns the name and the new
      counters. */
  function BodyName(t: Tree, names: map<nat, string>, counter: map<string, int>, b: nat)
    : (r: Result<(string, map<string, int>)>)
    requires Valid(t) && b < |t|
  {
    match t[b].parent
    case None => Err(AttributeError("'NoneType' object has no attribute 'type'"))
    case Some(p) =>
      ParentBelow(t, b);
      if IsClassDeclaration(t[p].kind) then
        var segments := DeclSegments(t, Some(p));
        if |segments| == 0 then Err(AssertionError("class name not found"))
        else Ok((Join(segments, "$"), counter))
      else
        match NearestBody(t, Some(p))
        case None => Err(AttributeError("'NoneType' object has no attribute 'byte_range'"))
        case Some(a) =>
          if a !in names then Err(KeyError("byte_range"))
          else
            var outer := names[a];
            if outer !in counter then Err(KeyError(outer))
            else
              var k := counter[outer] + 1;
              Ok((outer + "$" + IntToString(k), counter[outer := k]))
  }

  /** An anonymous class body is named `C$k` where C is the name of its nearest enclosing class
      body and k is one more than C's counter, which is then k; no other counter changes.
      A declared class body is named by `$`-joining the enclosing declarations' identifiers and
      leaves the counters alone. */
  lemma BodyNameRules(t: Tree, names: map<nat, string>, counter: map<string, int>, b: nat)
    requires Valid(t) && b < |t| && t[b].parent.Some?
    ensures var p := t[b].parent.value; var r := BodyName(t, names, counter, b);
      p < |t| &&
      (IsClassDeclaration(t[p].kind) ==>
        (r.Ok? <==> |DeclSegments(t, Some(p))| > 0) &&
        (r.Ok? ==> r.value == (Join(DeclSegments(t, Some(p)), "$"), counter)))
    ensures var p := t[b].parent.value; var r := BodyName(t, names, counter, b);
      p < |t| &&
      (!IsClassDeclaration(t[p].kind) && r.Ok? ==>
        var a := NearestBody(t, Some(p)).value;
        var outer := names[a];
        && AncestorOrSelf(t, a, p) && IsClassBody(t[a].kind)
        && outer in counter
        && r.value.0 == outer + "$" + IntToString(counter[outer] + 1)
        && r.value.1 == counter[outer := counter[outer] + 1])
  {
    ParentBelow(t, b);
  }

  /** The state change for visiting one child `c`, before the walk descends into it: a method
      appends its record (if `only` lets it through), a class body gets the name `BodyName`
      gives it and a fresh counter of 0, any other node changes nothing. */
  function Enter(t: Tree, lines: seq<string>, only: Option<string>, c: nat, st: WalkState): (r: Result<WalkState>)
    requires Valid(t) && c < |t|
    ensures IsMethodDeclaration(t[c].kind) ==>
      var m := MethodObject(t, lines, only, st.names, c);
      && (r.Ok? <==> m.Ok?)
      && (r.Err? ==> r.error == m.error)
      && (r.Ok? ==> r.value == st.(methods := st.methods + (if m.value.Some? then [m.value.value] else [])))
    ensures IsClassBody(t[c].kind) ==>
      var b := BodyName(t, st.names, st.counter, c);
      && (r.Ok? <==> b.Ok?)
      && (r.Err? ==> r.error == b.error)
      && (r.Ok? ==> r.value == WalkState(st.methods, st.names[c := b.value.0], b.value.1[b.value.0 := 0]))
    ensures !IsMethodDeclaration(t[c].kind) && !IsClassBody(t[c].kind) ==> r == Ok(st)
    ensures !IsMethodDeclaration(t[c].kind) && r.Ok? ==> r.value.methods == st.methods
  {
    if IsMethodDeclaration(t[c].kind) then
      var m :- MethodObject(t, lines, only, st.names, c);
      Ok(if m.Some? then st.(methods := st.methods + [m.value]) else st)
    else if IsClassBody(t[c].kind) then
      var nc :- BodyName(t, st.names, st.counter, c);
      Ok(st.(names := st.names[c := nc.0], counter := nc.1[nc.0 := 0]))
    else Ok(st)
  }

  /** `dfs` from child `k` of node `n` on: enter each child in turn, walk its subtree, then go on
      with the next child. The first exception ends the whole walk. */
  function VisitFrom(t: Tree, lines: seq<string>, only: Option<string>, n: nat, k: nat, st: WalkState)
    : Result<WalkState>
    requires Valid(t) && n < |t| && k <= |t[n].children|
    decreases |t| - n, |t[n].children| - k
  {
    if k == |t[n].children| then Ok(st)
    else
      var c := t[n].children[k];
      ChildrenInside(t, n);
      match Enter(t, lines, only, c, st)
      case Err(e) => Err(e)
      case Ok(st1) =>
        match VisitFrom(t, lines, only, c, 0, st1)
        case Err(e) => Err(e)
        case Ok(st2) => VisitFrom(t, lines, only, n, k + 1, st2)
  }

  /** `get_java_methods` on a parsed file: the walk from the root (node 0) over an empty state. */
  function JavaMethods(t: Tree, code: string, only: Option<string>): Result<seq<JMethod>>
    requires Valid(t) && |t| > 0
  {
    var st :- VisitFrom(t, Lines(code), only, 0, 0, WalkState([], map[], map[]));
    Ok(st.methods)
  }

  /** The walk only appends: the methods found earlier stay in front, in order. */
  lemma {:induction false} VisitAppends(t: Tree, lines: seq<string>, only: Option<string>, n: nat, k: nat, st: WalkState)
    requires Valid(t) && n < |t| && k <= |t[n].children|
    requires VisitFrom(t, lines, only, n, k, st).Ok?
    ensures var r := VisitFrom(t, lines, only, n, k, st).value;
      |st.methods| <= |r.methods| && r.methods[..|st.methods|] == st.methods
    decreases |t| - n, |t[n].children| - k
  {
    if k < |t[n].children| {
      var c := t[n].children[k];
      ChildrenInside(t, n);
      var st1 := Enter(t, lines, only, c, st).value;
      assert |st.methods| <= |st1.methods| && st1.methods[..|st.methods|] == st.methods;
      VisitAppends(t, lines, only, c, 0, st1);
      var st2 := VisitFrom(t, lines, only, c, 0, st1).value;
      VisitAppends(t, lines, only, n, k + 1, st2);
      var r := VisitFrom(t, lines, only, n, k, st).value;
      assert r == VisitFrom(t, lines, only, n, k + 1, st2).value;
      assert r.methods[..|st1.methods|][..|st.methods|] == r.methods[..|st.methods|];
      assert r.methods[..|st2.methods|][..|st1.methods|] == r.methods[..|st1.methods|];
    }
  }

  // ---------------------------------------------------------------------------------
  // The order of the walk, and the names and records it produces

  /** The nodes `dfs` enters from child `k` of `n` on, in the order it enters them: a child,
      then every node below that child, then the next child. */
  function Visited(t: Tree, n: nat, k: nat): (r: seq<nat>)
    requires Valid(t) && n < |t| && k <= |t[n].children|
    ensures forall x | x in r :: n < x < |t|
    ensures InArena(t, r)
    decreases |t| - n, |t[n].children| - k
  {
    if k == |t[n].children| then []
    else
      var c := t[n].children[k];
      ChildrenInside(t, n);
      [c] + Visited(t, c, 0) + Visited(t, n, k + 1)
  }

  /** Every entry of `xs` is a node of `t`. */
  predicate InArena(t: Tree, xs: seq<nat>) {
    forall i | 0 <= i < |xs| :: xs[i] < |t|
  }

  /** A node the walk enters from child `k` of `n` on lies at or below one of those children. */
  lemma {:induction false} VisitedUnder(t: Tree, n: nat, k: nat, x: nat) returns (j: nat)
    requires Valid(t) && n < |t| && k <= |t[n].children| && x in Visited(t, n, k)
    ensures k <= j < |t[n].children| && t[n].children[j] < |t| && x < |t|
    ensures AncestorOrSelf(t, t[n].children[j], x)
    decreases |t| - n, |t[n].children| - k
  {
    var c := t[n].children[k];
    ChildrenInside(t, n);
    if x == c {
      j := k;
    } else if x in Visited(t, c, 0) {
      var i := VisitedUnder(t, c, 0, x);
      var d := t[c].children[i];
      ChildrenAbove(t, c, d);
      AncestorOfChild(t, c, d, c);
      AncestorTransitive(t, c, d, x);
      j := k;
    } else {
      j := VisitedUnder(t, n, k + 1, x);
    }
  }

  /** `a` at or above `b` at or above `x` puts `a` at or above `x`. */
  lemma {:induction false} AncestorTransitive(t: Tree, a: nat, b: nat, x: nat)
    requires Valid(t) && b < |t| && x < |t| && AncestorOrSelf(t, a, b) && AncestorOrSelf(t, b, x)
    ensures AncestorOrSelf(t, a, x)
    decreases x
  {
    if b != x {
      var p := t[x].parent.value;
      ParentBelow(t, x);
      if p != b {
        AncestorTransitive(t, a, b, p);
      }
    }
  }

  /** Two nodes at or above one node are at or above one another. */
  lemma {:induction false} AncestorsChain(t: Tree, u: nat, v: nat, x: nat)
    requires Valid(t) && x < |t| && AncestorOrSelf(t, u, x) && AncestorOrSelf(t, v, x)
    ensures u < |t| && v < |t|
    ensures AncestorOrSelf(t, u, v) || AncestorOrSelf(t, v, u)
    decreases x
  {
    if u != x && v != x {
      AncestorBelow(t, u, x);
      AncestorBelow(t, v, x);
      var p := t[x].parent.value;
      ParentBelow(t, x);
      AncestorsChain(t, u, v, p);
    } else if u != x {
      AncestorBelow(t, u, x);
    } else if v != x {
      AncestorBelow(t, v, x);
    }
  }

  /** Nothing at or below child `k` of `n` is entered again from child `k + 1` on. */
  lemma SubtreesApart(t: Tree, n: nat, k: nat, x: nat)
    requires Valid(t) && UniqueChildren(t) && n < |t| && k < |t[n].children| && x < |t|
    requires AncestorOrSelf(t, t[n].children[k], x)
    ensures x !in Visited(t, n, k + 1)
  {
    if x in Visited(t, n, k + 1) {
      var j := VisitedUnder(t, n, k + 1, x);
      var c := t[n].children[k];
      var d := t[n].children[j];
      ChildrenAbove(t, n, c);
      ChildrenAbove(t, n, d);
      AncestorsChain(t, c, d, x);
      if IsAncestor(t, c, d) {
        AncestorOfChild(t, n, d, c);
        if n != c {
          AncestorBelow(t, c, n);
        }
      } else if IsAncestor(t, d, c) {
        AncestorOfChild(t, n, c, d);
        if n != d {
          AncestorBelow(t, d, n);
        }
      }
    }
  }

  /** A node at or above some node below child `k` of `n` is either at or above `n`, or at or
      below child `k`. */
  lemma AboveInside(t: Tree, n: nat, k: nat, b: nat, x: nat)
    requires Valid(t) && n < |t| && k < |t[n].children| && x < |t|
    requires AncestorOrSelf(t, t[n].children[k], x) && AncestorOrSelf(t, b, x)
    ensures b < |t| && (b <= n || AncestorOrSelf(t, t[n].children[k], b))
  {
    var c := t[n].children[k];
    ChildrenAbove(t, n, c);
    AncestorsChain(t, c, b, x);
    if b != c && IsAncestor(t, b, c) {
      AncestorOfChild(t, n, c, b);
      if b != n {
        AncestorBelow(t, b, n);
      }
    }
  }

  /** The walk leaves the cache entry of every node it does not enter alone: present with the
      same name, or absent. */
  lemma {:induction false} VisitKeepsName(t: Tree, lines: seq<string>, only: Option<string>, n: nat, k: nat, st: WalkState, b: nat)
    requires Valid(t) && n < |t| && k <= |t[n].children|
    requires VisitFrom(t, lines, only, n, k, st).Ok? && b !in Visited(t, n, k)
    ensures b in VisitFrom(t, lines, only, n, k, st).value.names <==> b in st.names
    ensures b in st.names ==> VisitFrom(t, lines, only, n, k, st).value.names[b] == st.names[b]
    decreases |t| - n, |t[n].children| - k
  {
    if k < |t[n].children| {
      var c := t[n].children[k];
      ChildrenInside(t, n);
      var st1 := Enter(t, lines, only, c, st).value;
      assert b != c;
      VisitKeepsName(t, lines, only, c, 0, st1, b);
      var st2 := VisitFrom(t, lines, only, c, 0, st1).value;
      VisitKeepsName(t, lines, only, n, k + 1, st2, b);
    }
  }

  /** `b` is an anonymous class body whose nearest enclosing class body is `a`. */
  predicate AnonymousIn(t: Tree, a: nat, b: nat)
    requires Valid(t)
  {
    && b < |t| && IsClassBody(t[b].kind) && t[b].parent.Some?
    && var p := t[b].parent.value;
       ParentBelow(t, b);
       !IsClassDeclaration(t[p].kind) && NearestBody(t, Some(p)) == Some(a)
  }

  /** The anonymous class bodies directly inside `a`. */
  function AnonymousOf(t: Tree, a: nat): set<nat>
    requires Valid(t)
  {
    set b: nat | b < |t| && AnonymousIn(t, a, b)
  }

  /** How many of `xs` lie in `s`. */
  function CountIn(s: set<nat>, xs: seq<nat>): nat {
    if xs == [] then 0
    else (if xs[0] in s then 1 else 0) + CountIn(s, xs[1..])
  }

  lemma {:induction false} CountInConcat(s: set<nat>, xs: seq<nat>, ys: seq<nat>)
    ensures CountIn(s, xs + ys) == CountIn(s, xs) + CountIn(s, ys)
    decreases |xs|
  {
    if xs == [] {
      assert xs + ys == ys;
    } else {
      assert (xs + ys)[0] == xs[0] && (xs + ys)[1..] == xs[1..] + ys;
      CountInConcat(s, xs[1..], ys);
    }
  }

  /** The name the `j`-th anonymous class body of a body named `outer` gets. */
  function AnonymousName(outer: string, j: int): string {
    outer + "$" + IntToString(j)
  }

  /** The names of the anonymous class bodies of a body named `outer`, by number. */
  function AnonymousNames(outer: string): int -> string {
    j => AnonymousName(outer, j)
  }

  lemma AnonymousNamesAt(outer: string, j: int)
    ensures AnonymousNames(outer)(j) == AnonymousName(outer, j)
  {
  }

  /** A node entered below child `k` of `n` keeps its cached name while the walk goes on
      with the later children. */
  lemma BelowKeepsName(t: Tree, lines: seq<string>, only: Option<string>, n: nat, k: nat, st: WalkState, x: nat)
    requires Valid(t) && UniqueChildren(t) && n < |t| && k < |t[n].children|
    requires t[n].children[k] < |t| && x in Visited(t, t[n].children[k], 0)
    requires VisitFrom(t, lines, only, n, k + 1, st).Ok? && x in st.names
    ensures x in VisitFrom(t, lines, only, n, k + 1, st).value.names
    ensures VisitFrom(t, lines, only, n, k + 1, st).value.names[x] == st.names[x]
  {
    var c := t[n].children[k];
    var j := VisitedUnder(t, c, 0, x);
    var d := t[c].children[j];
    ChildrenAbove(t, c, d);
    AncestorOfChild(t, c, d, c);
    AncestorTransitive(t, c, d, x);
    SubtreesApart(t, n, k, x);
    VisitKeepsName(t, lines, only, n, k + 1, st, x);
  }

  /** The members of `s` among `vs` are numbered on from `base` in the order of `vs`: the
      first of them is cached under `name(base + 1)`, the next under `name(base + 2)`, and so
      on (`name` renders a number). */
  predicate Numbered(s: set<nat>, name: int -> string, base: int, vs: seq<nat>, names: map<nat, string>)
    decreases |vs|
  {
    vs == [] ||
    (&& (vs[0] in s ==> vs[0] in names && names[vs[0]] == name(base + 1))
     && Numbered(s, name, base + (if vs[0] in s then 1 else 0), vs[1..], names))
  }

  /** In a numbering, the member at position `i` of `vs` gets the number of members up to and
      including it. */
  lemma {:induction false} NumberedAt(s: set<nat>, name: int -> string, base: int, vs: seq<nat>, names: map<nat, string>, i: nat)
    requires Numbered(s, name, base, vs, names) && i < |vs| && vs[i] in s
    ensures vs[i] in names && names[vs[i]] == name(base + CountIn(s, vs[..i + 1]))
    decreases i
  {
    assert vs[..i + 1][0] == vs[0] && vs[..i + 1][1..] == vs[1..][..i];
    if i > 0 {
      NumberedAt(s, name, base + (if vs[0] in s then 1 else 0), vs[1..], names, i - 1);
    }
  }

  /** A numbering survives any change of the map that keeps the names of the numbered nodes. */
  lemma {:induction false} NumberedKept(s: set<nat>, name: int -> string, base: int, vs: seq<nat>, before: map<nat, string>, after: map<nat, string>)
    requires Numbered(s, name, base, vs, before)
    requires forall b | b in vs && b in before :: b in after && after[b] == before[b]
    ensures Numbered(s, name, base, vs, after)
    decreases |vs|
  {
    if vs != [] {
      assert vs[0] in vs;
      assert forall b | b in vs[1..] :: b in vs;
      NumberedKept(s, name, base + (if vs[0] in s then 1 else 0), vs[1..], before, after);
    }
  }

  /** A numbering of `p` followed by a numbering of `v` that goes on where `p`'s ends is a
      numbering of `p + v`. */
  lemma {:induction false} NumberedAppend(s: set<nat>, name: int -> string, base: int, p: seq<nat>, v: seq<nat>, names: map<nat, string>)
    requires Numbered(s, name, base, p, names)
    requires Numbered(s, name, base + CountIn(s, p), v, names)
    ensures Numbered(s, name, base, p + v, names)
    decreases |p|
  {
    if p == [] {
      assert p + v == v;
    } else {
      assert (p + v)[0] == p[0] && (p + v)[1..] == p[1..] + v;
      NumberedAppend(s, name, base + (if p[0] in s then 1 else 0), p[1..], v, names);
    }
  }

  /** The numbering of `[c] + v1 + v2`, put together from the numbering of `c`, of `v1` after
      `c`, and of `v2` after both. */
  lemma NumbersJoin(s: set<nat>, name: int -> string, base: int, c: nat, v1: seq<nat>, v2: seq<nat>,
                    b1: int, b2: int, names: map<nat, string>)
    requires b1 == base + CountIn(s, [c]) && b2 == b1 + CountIn(s, v1)
    requires c in s ==> c in names && names[c] == name(base + 1)
    requires Numbered(s, name, b1, v1, names)
    requires Numbered(s, name, b2, v2, names)
    ensures Numbered(s, name, base, [c] + v1 + v2, names)
    ensures CountIn(s, [c] + v1 + v2) == CountIn(s, [c]) + CountIn(s, v1) + CountIn(s, v2)
  {
    assert CountIn(s, [c]) == if c in s then 1 else 0 by { assert [c][1..] == []; }
    assert Numbered(s, name, base, [c], names) by { assert [c][..1] == [c]; }
    NumberedAppend(s, name, base, [c], v1, names);
    CountInConcat(s, [c], v1);
    NumberedAppend(s, name, base, [c] + v1, v2, names);
    CountInConcat(s, [c] + v1, v2);
  }

  /** No class body strictly between `a` and `n` is cached under the name `outer`. */
  predicate PathUnclashed(t: Tree, names: map<nat, string>, a: nat, n: nat, outer: string)
    requires Valid(t) && n < |t|
  {
    forall b | b < |t| && b in names && b != a && IsAncestor(t, a, b) && AncestorOrSelf(t, b, n) :: names[b] != outer
  }

  /** No node of `vs` is cached under the name `outer`. */
  predicate VisitedUnclashed(names: map<nat, string>, vs: seq<nat>, outer: string) {
    forall b | b in vs && b in names :: names[b] != outer
  }

  /** Entering `c` caches a name for `c` at most: every other node keeps its cached name, or
      stays without one. */
  lemma EnterKeepsOthers(t: Tree, lines: seq<string>, only: Option<string>, c: nat, st: WalkState, st1: WalkState)
    requires Valid(t) && c < |t| && Enter(t, lines, only, c, st) == Ok(st1)
    ensures forall b | b != c :: (b in st1.names <==> b in st.names) && (b in st.names ==> st1.names[b] == st.names[b])
  {
  }

  /** Child `k` of `n`, entered as `st1`, keeps its cached name while the walk goes on below
      it (to `st2`) and after it (to `r`). */
  lemma ChildKeepsName(t: Tree, lines: seq<string>, only: Option<string>, n: nat, k: nat,
                       st1: WalkState, st2: WalkState, r: WalkState)
    requires Valid(t) && UniqueChildren(t) && n < |t| && k < |t[n].children| && t[n].children[k] < |t|
    requires VisitFrom(t, lines, only, t[n].children[k], 0, st1) == Ok(st2)
    requires VisitFrom(t, lines, only, n, k + 1, st2) == Ok(r)
    ensures t[n].children[k] in st1.names ==>
      t[n].children[k] in r.names && r.names[t[n].children[k]] == st1.names[t[n].children[k]]
  {
    var c := t[n].children[k];
    if c in st1.names {
      SubtreesApart(t, n, k, c);
      VisitKeepsName(t, lines, only, c, 0, st1, c);
      VisitKeepsName(t, lines, only, n, k + 1, st2, c);
    }
  }

  /** Entering child `c` of `n` keeps the path from `a` down to `c` free of the name `outer`. */
  lemma EnterPathUnclashed(t: Tree, n: nat, c: nat, a: nat, outer: string, names: map<nat, string>, names1: map<nat, string>)
    requires Valid(t) && n < |t| && c in t[n].children && c < |t|
    requires forall b | b != c :: (b in names1 <==> b in names) && (b in names ==> names1[b] == names[b])
    requires PathUnclashed(t, names, a, n, outer)
    requires c in names1 ==> names1[c] != outer
    ensures PathUnclashed(t, names1, a, c, outer)
  {
    forall b | b < |t| && b in names1 && b != a && IsAncestor(t, a, b) && AncestorOrSelf(t, b, c)
      ensures names1[b] != outer
    {
      AncestorOfChild(t, n, c, b);
    }
  }

  /** The nodes entered below child `k` of `n` keep their cached names while the walk goes on
      after it, so none of them is cached under `outer` if none is at the end. */
  lemma BelowKeepsNames(t: Tree, lines: seq<string>, only: Option<string>, n: nat, k: nat, outer: string,
                        st2: WalkState, r: WalkState)
    requires Valid(t) && UniqueChildren(t) && n < |t| && k < |t[n].children| && t[n].children[k] < |t|
    requires VisitFrom(t, lines, only, n, k + 1, st2) == Ok(r)
    requires VisitedUnclashed(r.names, Visited(t, t[n].children[k], 0), outer)
    ensures VisitedUnclashed(st2.names, Visited(t, t[n].children[k], 0), outer)
    ensures forall b | b in Visited(t, t[n].children[k], 0) && b in st2.names :: b in r.names && r.names[b] == st2.names[b]
  {
    forall b | b in Visited(t, t[n].children[k], 0) && b in st2.names ensures b in r.names && r.names[b] == st2.names[b] {
      BelowKeepsName(t, lines, only, n, k, st2, b);
    }
  }

  /** After walking below child `k` of `n`, the path from `a` down to `n` is still free of the
      name `outer`, and `a` keeps it. */
  lemma NumbersAfterStep(t: Tree, lines: seq<string>, only: Option<string>, n: nat, k: nat, a: nat, outer: string,
                         names: map<nat, string>, st1: WalkState, st2: WalkState)
    requires Valid(t) && n < |t| && k < |t[n].children| && t[n].children[k] < |t|
    requires a < |t| && AncestorOrSelf(t, a, n) && a in names && names[a] == outer
    requires forall b | b != t[n].children[k] :: (b in st1.names <==> b in names) && (b in names ==> st1.names[b] == names[b])
    requires VisitFrom(t, lines, only, t[n].children[k], 0, st1) == Ok(st2)
    requires PathUnclashed(t, names, a, n, outer)
    ensures a in st2.names && st2.names[a] == outer
    ensures PathUnclashed(t, st2.names, a, n, outer)
  {
    var c := t[n].children[k];
    ChildrenAbove(t, n, c);
    if a != n {
      AncestorBelow(t, a, n);
    }
    VisitKeepsName(t, lines, only, c, 0, st1, a);
    forall b | b < |t| && b in st2.names && b != a && IsAncestor(t, a, b) && AncestorOrSelf(t, b, n)
      ensures st2.names[b] != outer
    {
      if b != n {
        AncestorBelow(t, b, n);
      }
      VisitKeepsName(t, lines, only, c, 0, st1, b);
    }
  }

  /** Entering the anonymous classes of `a` numbers them on from the counter of `a`'s name
      `outer`: the body entered `i`-th among them gets `outer$(counter + i)`, and the counter ends
      at the number of them entered. This holds when no class body that the walk names between
      `a` and the bodies is also called `outer`. */
  lemma {:induction false} VisitNumbers(t: Tree, lines: seq<string>, only: Option<string>, n: nat, k: nat,
                                        st: WalkState, r: WalkState, a: nat, outer: string)
    requires Valid(t) && UniqueChildren(t) && n < |t| && k <= |t[n].children|
    requires a < |t| && IsClassBody(t[a].kind) && AncestorOrSelf(t, a, n)
    requires a in st.names && st.names[a] == outer && outer in st.counter
    requires PathUnclashed(t, st.names, a, n, outer)
    requires VisitFrom(t, lines, only, n, k, st) == Ok(r)
    requires VisitedUnclashed(r.names, Visited(t, n, k), outer)
    ensures outer in r.counter && r.counter[outer] == st.counter[outer] + CountIn(AnonymousOf(t, a), Visited(t, n, k))
    ensures Numbered(AnonymousOf(t, a), AnonymousNames(outer), st.counter[outer], Visited(t, n, k), r.names)
    decreases |t| - n, |t[n].children| - k
  {
    if k < |t[n].children| {
      var c := t[n].children[k];
      ChildrenAbove(t, n, c);
      var st1 := Enter(t, lines, only, c, st).value;
      var st2 := VisitFrom(t, lines, only, c, 0, st1).value;
      assert VisitFrom(t, lines, only, n, k + 1, st2) == Ok(r);
      var v1 := Visited(t, c, 0);
      var v2 := Visited(t, n, k + 1);
      assert Visited(t, n, k) == [c] + v1 + v2;
      assert c in Visited(t, n, k) && VisitedUnclashed(r.names, v1, outer);
      ChildKeepsName(t, lines, only, n, k, st1, st2, r);
      if a != n {
        AncestorBelow(t, a, n);
      }
      EnterCount(t, lines, only, n, c, st, a);
      EnterKeepsOthers(t, lines, only, c, st, st1);
      EnterPathUnclashed(t, n, c, a, outer, st.names, st1.names);
      BelowKeepsNames(t, lines, only, n, k, outer, st2, r);
      AncestorOfChild(t, n, c, a);
      VisitNumbers(t, lines, only, c, 0, st1, st2, a, outer);
      NumberedKept(AnonymousOf(t, a), AnonymousNames(outer), st1.counter[outer], v1, st2.names, r.names);
      NumbersAfterStep(t, lines, only, n, k, a, outer, st.names, st1, st2);
      VisitNumbers(t, lines, only, n, k + 1, st2, r, a, outer);
      AnonymousNamesAt(outer, st.counter[outer] + 1);
      NumbersJoin(AnonymousOf(t, a), AnonymousNames(outer), st.counter[outer], c, v1, v2,
                  st1.counter[outer], st2.counter[outer], r.names);
    }
  }

  /** Entering a class body `a` (cached as `C`) and walking it numbers its anonymous classes
      `C$1`, `C$2`, ... in the order the walk meets them, and leaves the counter of `C` at how
      many it met. This holds when no node the walk caches below `a` is also called `C`. */
  lemma AnonymousNumbering(t: Tree, lines: seq<string>, only: Option<string>, a: nat, st0: WalkState, st: WalkState, r: WalkState)
    requires Valid(t) && UniqueChildren(t) && a < |t| && IsClassBody(t[a].kind)
    requires Enter(t, lines, only, a, st0) == Ok(st) && VisitFrom(t, lines, only, a, 0, st) == Ok(r)
    requires VisitedUnclashed(r.names, Visited(t, a, 0), st.names[a])
    ensures var outer := st.names[a]; var vs := Visited(t, a, 0); var s := AnonymousOf(t, a);
      && outer in r.counter && r.counter[outer] == CountIn(s, vs)
      && forall i | 0 <= i < |vs| && vs[i] in s ::
           vs[i] in r.names && r.names[vs[i]] == AnonymousName(outer, CountIn(s, vs[..i + 1]))
  {
    var outer := st.names[a];
    forall b: nat | b < |t| && IsAncestor(t, a, b) ensures !AncestorOrSelf(t, b, a) {
      AncestorBelow(t, a, b);
      if IsAncestor(t, b, a) {
        AncestorBelow(t, b, a);
      }
    }
    assert PathUnclashed(t, st.names, a, a, outer);
    VisitNumbers(t, lines, only, a, 0, st, r, a, outer);
    var vs := Visited(t, a, 0);
    var s := AnonymousOf(t, a);
    forall i | 0 <= i < |vs| && vs[i] in s
      ensures vs[i] in r.names && r.names[vs[i]] == AnonymousName(outer, CountIn(s, vs[..i + 1]))
    {
      NumberedAt(s, AnonymousNames(outer), 0, vs, r.names, i);
      AnonymousNamesAt(outer, CountIn(s, vs[..i + 1]));
    }
  }

  /** The nearest class body above `n` lies at or below every class body above `n`. */
  lemma {:induction false} NearestBodyBelow(t: Tree, n: nat, a: nat)
    requires Valid(t) && n < |t| && AncestorOrSelf(t, a, n) && a < |t| && IsClassBody(t[a].kind)
    ensures NearestBody(t, Some(n)).Some? && AncestorOrSelf(t, a, NearestBody(t, Some(n)).value)
    decreases n
  {
    if !IsClassBody(t[n].kind) {
      var p := t[n].parent.value;
      ParentBelow(t, n);
      NearestBodyBelow(t, p, a);
    }
  }

  /** Naming an anonymous class body `c` below `n` bumps the counter of the name `C` of a class
      body `a` above `n` exactly when `a` is the nearest class body, and then names `c` `C$k`
      with `k` the bumped counter; this needs that no class body strictly between `a` and `n`
      is called `C`. */
  lemma AnonymousEntry(t: Tree, names: map<nat, string>, counter: map<string, int>, n: nat, c: nat, a: nat)
    requires Valid(t) && n < |t| && c in t[n].children && c < |t|
    requires IsClassBody(t[c].kind) && !IsClassDeclaration(t[n].kind)
    requires a < |t| && IsClassBody(t[a].kind) && AncestorOrSelf(t, a, n) && a in names && names[a] in counter
    requires forall b | b < |t| && b in names && b != a && IsAncestor(t, a, b) && AncestorOrSelf(t, b, n) ::
      names[b] != names[a]
    requires BodyName(t, names, counter, c).Ok?
    ensures var r := BodyName(t, names, counter, c).value; var outer := names[a];
      && outer in r.1
      && r.1[outer] == counter[outer] + (if NearestBody(t, Some(n)) == Some(a) then 1 else 0)
      && (NearestBody(t, Some(n)) == Some(a) ==> r.0 == AnonymousName(outer, counter[outer] + 1))
  {
    ChildrenAbove(t, n, c);
    BodyNameRules(t, names, counter, c);
    var o := NearestBody(t, Some(n)).value;
    if o != a {
      NearestBodyBelow(t, n, a);
    }
  }

  /** Entering child `c` of `n` moves the counter of `a`'s name `C` by one exactly when `c` is
      an anonymous class body directly inside `a`, and then names it `C$(counter + 1)`; this
      needs that no class body strictly between `a` and `n`, and not `c` itself, is called `C`. */
  lemma EnterCount(t: Tree, lines: seq<string>, only: Option<string>, n: nat, c: nat, st: WalkState, a: nat)
    requires Valid(t) && n < |t| && c in t[n].children
    requires a < |t| && IsClassBody(t[a].kind) && AncestorOrSelf(t, a, n) && a in st.names && st.names[a] in st.counter
    requires forall b | b < |t| && b in st.names && b != a && IsAncestor(t, a, b) && AncestorOrSelf(t, b, n) ::
      st.names[b] != st.names[a]
    requires c < |t| && Enter(t, lines, only, c, st).Ok?
    requires c in Enter(t, lines, only, c, st).value.names ==> Enter(t, lines, only, c, st).value.names[c] != st.names[a]
    ensures var st1 := Enter(t, lines, only, c, st).value; var outer := st.names[a];
      && outer in st1.counter
      && st1.counter[outer] == st.counter[outer] + CountIn(AnonymousOf(t, a), [c])
      && (c in AnonymousOf(t, a) ==> st1.names[c] == AnonymousName(outer, st.counter[outer] + 1))
  {
    ChildrenAbove(t, n, c);
    var outer := st.names[a];
    var st1 := Enter(t, lines, only, c, st).value;
    assert CountIn(AnonymousOf(t, a), [c]) == if c in AnonymousOf(t, a) then 1 else 0 by {
      assert [c][1..] == [];
    }
    if IsClassBody(t[c].kind) {
      var b := BodyName(t, st.names, st.counter, c).value;
      assert st1.counter == b.1[b.0 := 0] && st1.names[c] == b.0;
      if IsClassDeclaration(t[n].kind) {
        BodyNameRules(t, st.names, st.counter, c);
        assert c !in AnonymousOf(t, a);
      } else {
        AnonymousEntry(t, st.names, st.counter, n, c, a);
        assert c in AnonymousOf(t, a) <==> NearestBody(t, Some(n)) == Some(a);
      }
    } else {
      assert st1.counter == st.counter;
      assert c !in AnonymousOf(t, a);
    }
  }

  // ---------------------------------------------------------------------------------
  // The records the walk emits, and their order

  /** A node the walk enters below `c` lies strictly below `c`. */
  lemma VisitedBelow(t: Tree, c: nat, x: nat)
    requires Valid(t) && c < |t| && x in Visited(t, c, 0)
    ensures x < |t| && AncestorOrSelf(t, c, x)
  {
    var j := VisitedUnder(t, c, 0, x);
    var d := t[c].children[j];
    ChildrenAbove(t, c, d);
    AncestorOfChild(t, c, d, c);
    AncestorTransitive(t, c, d, x);
  }

  /** `xs` lists nodes without repeating one, and never lists a node after one below it. */
  predicate PreOrdered(t: Tree, xs: seq<nat>)
    requires Valid(t) && InArena(t, xs)
  {
    forall i, j | 0 <= i < j < |xs| :: xs[i] != xs[j] && !IsAncestor(t, xs[j], xs[i])
  }

  /** Every node of `p` differs from every node of `q` and lies above none of them. */
  predicate Before(t: Tree, p: seq<nat>, q: seq<nat>)
    requires Valid(t) && InArena(t, p)
  {
    forall x, y | x in p && y in q :: x != y && !IsAncestor(t, y, x)
  }

  lemma PreOrderedConcat(t: Tree, p: seq<nat>, q: seq<nat>)
    requires Valid(t) && InArena(t, p) && InArena(t, q)
    requires PreOrdered(t, p) && PreOrdered(t, q) && Before(t, p, q)
    ensures PreOrdered(t, p + q)
  {
    var vs := p + q;
    forall i, j | 0 <= i < j < |vs| ensures vs[i] != vs[j] && !IsAncestor(t, vs[j], vs[i]) {
      if j < |p| {
        assert vs[i] == p[i] && vs[j] == p[j];
      } else if i >= |p| {
        assert vs[i] == q[i - |p|] && vs[j] == q[j - |p|];
      } else {
        assert vs[i] == p[i] && p[i] in p;
        assert vs[j] == q[j - |p|] && q[j - |p|] in q;
      }
    }
  }

  /** Child `k` of `n` comes before, and lies above none of, the nodes entered after it. */
  lemma ChildFirst(t: Tree, n: nat, k: nat)
    requires Valid(t) && UniqueChildren(t) && n < |t| && k < |t[n].children|
    ensures t[n].children[k] < |t|
    ensures Before(t, [t[n].children[k]], Visited(t, t[n].children[k], 0) + Visited(t, n, k + 1))
  {
    var c := t[n].children[k];
    ChildrenAbove(t, n, c);
    var vs := Visited(t, c, 0) + Visited(t, n, k + 1);
    forall y | y in vs ensures c != y && !IsAncestor(t, y, c) {
      ChildFirstOf(t, n, k, y);
    }
  }

  lemma ChildFirstOf(t: Tree, n: nat, k: nat, y: nat)
    requires Valid(t) && UniqueChildren(t) && n < |t| && k < |t[n].children| && t[n].children[k] < |t|
    requires y in Visited(t, t[n].children[k], 0) + Visited(t, n, k + 1)
    ensures t[n].children[k] != y && !IsAncestor(t, y, t[n].children[k])
  {
    var c := t[n].children[k];
    ChildrenAbove(t, n, c);
    if y in Visited(t, c, 0) {
      assert c < y;
    } else {
      SubtreesApart(t, n, k, c);
      assert n < y;
    }
    if IsAncestor(t, y, c) {
      AncestorOfChild(t, n, c, y);
      if y != n {
        AncestorBelow(t, y, n);
      }
    }
  }

  /** The nodes entered below child `k` of `n` come before, and lie above none of, the nodes
      entered from child `k + 1` on. */
  lemma SubtreeFirst(t: Tree, n: nat, k: nat)
    requires Valid(t) && UniqueChildren(t) && n < |t| && k < |t[n].children|
    ensures t[n].children[k] < |t|
    ensures Before(t, Visited(t, t[n].children[k], 0), Visited(t, n, k + 1))
  {
    var c := t[n].children[k];
    ChildrenAbove(t, n, c);
    var v1 := Visited(t, c, 0);
    var v2 := Visited(t, n, k + 1);
    forall x, y | x in v1 && y in v2 ensures x != y && !IsAncestor(t, y, x) {
      SubtreeFirstOf(t, n, k, x, y);
    }
    assert Before(t, v1, v2);
  }

  lemma SubtreeFirstOf(t: Tree, n: nat, k: nat, x: nat, y: nat)
    requires Valid(t) && UniqueChildren(t) && n < |t| && k < |t[n].children| && t[n].children[k] < |t|
    requires x in Visited(t, t[n].children[k], 0) && y in Visited(t, n, k + 1)
    ensures x < |t| && x != y && !IsAncestor(t, y, x)
  {
    var c := t[n].children[k];
    VisitedBelow(t, c, x);
    SubtreesApart(t, n, k, x);
    if IsAncestor(t, y, x) {
      AboveInside(t, n, k, y, x);
      SubtreesApart(t, n, k, y);
    }
  }

  /** `dfs` enters each node once, and a node before every node below it: a pre-order. */
  lemma {:induction false} VisitedPreOrder(t: Tree, n: nat, k: nat)
    requires Valid(t) && UniqueChildren(t) && n < |t| && k <= |t[n].children|
    ensures PreOrdered(t, Visited(t, n, k))
    decreases |t| - n, |t[n].children| - k
  {
    if k < |t[n].children| {
      var c := t[n].children[k];
      ChildrenAbove(t, n, c);
      var v1 := Visited(t, c, 0);
      var v2 := Visited(t, n, k + 1);
      VisitedPreOrder(t, c, 0);
      VisitedPreOrder(t, n, k + 1);
      SubtreeFirst(t, n, k);
      PreOrderedConcat(t, v1, v2);
      ChildFirst(t, n, k);
      PreOrderedConcat(t, [c], v1 + v2);
      assert Visited(t, n, k) == [c] + (v1 + v2);
    }
  }

  /** The method and constructor declarations among `xs`, in order. */
  function Declarations(t: Tree, xs: seq<nat>): (r: seq<nat>)
    ensures InArena(t, r)
    ensures forall x | x in r :: x in xs && x < |t| && IsMethodDeclaration(t[x].kind)
  {
    if xs == [] then []
    else (if xs[0] < |t| && IsMethodDeclaration(t[xs[0]].kind) then [xs[0]] else []) + Declarations(t, xs[1..])
  }

  /** Keeping only the declarations keeps a pre-order. */
  lemma {:induction false} DeclarationsPreOrdered(t: Tree, xs: seq<nat>)
    requires Valid(t) && InArena(t, xs) && PreOrdered(t, xs)
    ensures PreOrdered(t, Declarations(t, xs))
    decreases |xs|
  {
    if xs != [] {
      var tail := xs[1..];
      assert PreOrdered(t, tail) by {
        forall i, j | 0 <= i < j < |tail| ensures tail[i] != tail[j] && !IsAncestor(t, tail[j], tail[i]) {
          assert tail[i] == xs[i + 1] && tail[j] == xs[j + 1];
        }
      }
      DeclarationsPreOrdered(t, tail);
      var h := if xs[0] < |t| && IsMethodDeclaration(t[xs[0]].kind) then [xs[0]] else [];
      forall x, y | x in h && y in Declarations(t, tail) ensures x != y && !IsAncestor(t, y, x) {
        var m :| 0 <= m < |tail| && tail[m] == y;
        assert xs[0] == x && xs[m + 1] == y;
      }
      PreOrderedConcat(t, h, Declarations(t, tail));
    }
  }

  /** The record `get_method_object` builds for node `x` when it is a method or constructor
      declaration, with the class bodies named as in `names`; no record for any other node. */
  function RecordOf(t: Tree, lines: seq<string>, only: Option<string>, names: map<nat, string>): nat -> Result<Option<JMethod>>
  {
    (x: nat) => if Valid(t) && x < |t| && IsMethodDeclaration(t[x].kind) then MethodObject(t, lines, only, names, x) else Ok(None)
  }

  lemma RecordIs(t: Tree, lines: seq<string>, only: Option<string>, names: map<nat, string>, x: nat)
    requires Valid(t) && x < |t| && IsMethodDeclaration(t[x].kind)
    ensures RecordOf(t, lines, only, names)(x) == MethodObject(t, lines, only, names, x)
  {
  }

  /** The records `rec` gives the declarations among `xs`, in order: one for each declaration
      whose record builds and is not filtered out. */
  function Emitted(t: Tree, rec: nat -> Result<Option<JMethod>>, xs: seq<nat>): (r: seq<JMethod>)
    ensures |r| <= |xs|
  {
    if xs == [] then []
    else if xs[0] < |t| && IsMethodDeclaration(t[xs[0]].kind) && rec(xs[0]).Ok? && rec(xs[0]).value.Some? then
      [rec(xs[0]).value.value] + Emitted(t, rec, xs[1..])
    else Emitted(t, rec, xs[1..])
  }

  /** Every declaration among `xs` gets a record from `rec` without an exception. */
  predicate AllBuild(t: Tree, rec: nat -> Result<Option<JMethod>>, xs: seq<nat>)
    decreases |xs|
  {
    xs == [] ||
    ((xs[0] < |t| && IsMethodDeclaration(t[xs[0]].kind) ==> rec(xs[0]).Ok?) && AllBuild(t, rec, xs[1..]))
  }

  /** `rec1` and `rec2` give every declaration among `xs` the same record. */
  predicate SameRecords(t: Tree, rec1: nat -> Result<Option<JMethod>>, rec2: nat -> Result<Option<JMethod>>, xs: seq<nat>)
    decreases |xs|
  {
    xs == [] ||
    ((xs[0] < |t| && IsMethodDeclaration(t[xs[0]].kind) ==> rec1(xs[0]) == rec2(xs[0])) && SameRecords(t, rec1, rec2, xs[1..]))
  }

  lemma {:induction false} AllBuildConcat(t: Tree, rec: nat -> Result<Option<JMethod>>, xs: seq<nat>, ys: seq<nat>)
    requires AllBuild(t, rec, xs) && AllBuild(t, rec, ys)
    ensures AllBuild(t, rec, xs + ys)
    decreases |xs|
  {
    if xs == [] {
      assert xs + ys == ys;
    } else {
      assert (xs + ys)[0] == xs[0] && (xs + ys)[1..] == xs[1..] + ys;
      AllBuildConcat(t, rec, xs[1..], ys);
    }
  }

  lemma {:induction false} AllBuildMember(t: Tree, rec: nat -> Result<Option<JMethod>>, xs: seq<nat>, x: nat)
    requires AllBuild(t, rec, xs) && x in xs && x < |t| && IsMethodDeclaration(t[x].kind)
    ensures rec(x).Ok?
    decreases |xs|
  {
    if xs[0] != x {
      AllBuildMember(t, rec, xs[1..], x);
    }
  }

  lemma {:induction false} SameRecordsFrom(t: Tree, rec1: nat -> Result<Option<JMethod>>, rec2: nat -> Result<Option<JMethod>>, xs: seq<nat>)
    requires forall x | x in xs && x < |t| && IsMethodDeclaration(t[x].kind) :: rec1(x) == rec2(x)
    ensures SameRecords(t, rec1, rec2, xs)
    decreases |xs|
  {
    if xs != [] {
      assert xs[0] in xs;
      SameRecordsFrom(t, rec1, rec2, xs[1..]);
    }
  }

  lemma {:induction false} EmittedConcat(t: Tree, rec: nat -> Result<Option<JMethod>>, xs: seq<nat>, ys: seq<nat>)
    ensures Emitted(t, rec, xs + ys) == Emitted(t, rec, xs) + Emitted(t, rec, ys)
    decreases |xs|
  {
    if xs == [] {
      assert xs + ys == ys;
    } else {
      assert (xs + ys)[0] == xs[0] && (xs + ys)[1..] == xs[1..] + ys;
      EmittedConcat(t, rec, xs[1..], ys);
    }
  }

  lemma {:induction false} EmittedSame(t: Tree, rec1: nat -> Result<Option<JMethod>>, rec2: nat -> Result<Option<JMethod>>, xs: seq<nat>)
    requires SameRecords(t, rec1, rec2, xs)
    ensures Emitted(t, rec1, xs) == Emitted(t, rec2, xs)
    ensures AllBuild(t, rec1, xs) ==> AllBuild(t, rec2, xs)
    decreases |xs|
  {
    if xs != [] {
      assert xs[0] in xs;
      EmittedSame(t, rec1, rec2, xs[1..]);
    }
  }

  /** Only the declarations among `xs` give records. */
  lemma {:induction false} EmittedDeclarations(t: Tree, rec: nat -> Result<Option<JMethod>>, xs: seq<nat>)
    ensures Emitted(t, rec, xs) == Emitted(t, rec, Declarations(t, xs))
    decreases |xs|
  {
    if xs != [] {
      EmittedDeclarations(t, rec, xs[1..]);
      var d := Declarations(t, xs[1..]);
      if xs[0] < |t| && IsMethodDeclaration(t[xs[0]].kind) {
        assert Declarations(t, xs) == [xs[0]] + d;
        assert ([xs[0]] + d)[0] == xs[0] && ([xs[0]] + d)[1..] == d;
      } else {
        assert Declarations(t, xs) == [] + d == d;
      }
    }
  }

  /** A list of declarations that all get a record gives one record each, in order: the `i`-th
      record is the record of the `i`-th declaration. */
  lemma {:induction false} EmittedAt(t: Tree, rec: nat -> Result<Option<JMethod>>, d: seq<nat>, i: nat)
    requires i < |d|
    requires forall x | x in d :: x < |t| && IsMethodDeclaration(t[x].kind) && rec(x).Ok? && rec(x).value.Some?
    ensures |Emitted(t, rec, d)| == |d|
    ensures rec(d[i]) == Ok(Some(Emitted(t, rec, d)[i]))
    decreases |d|
  {
    assert d[0] in d;
    if |d| > 1 {
      EmittedAt(t, rec, d[1..], if i > 0 then i - 1 else 0);
    }
  }

  /** `names1` and `names2` agree on the nearest class body above `x`. */
  predicate SameBodyName(t: Tree, names1: map<nat, string>, names2: map<nat, string>, x: nat)
    requires Valid(t) && x < |t|
  {
    NearestBody(t, Some(x)).Some? ==>
      var b := NearestBody(t, Some(x)).value;
      (b in names1 <==> b in names2) && (b in names1 ==> names1[b] == names2[b])
  }

  /** A record depends on the cache only through the name of the nearest class body. */
  lemma RecordSameName(t: Tree, lines: seq<string>, only: Option<string>,
                       names1: map<nat, string>, names2: map<nat, string>, x: nat)
    requires Valid(t) && x < |t| && SameBodyName(t, names1, names2, x)
    ensures RecordOf(t, lines, only, names1)(x) == RecordOf(t, lines, only, names2)(x)
  {
    if IsMethodDeclaration(t[x].kind) {
      assert ClassNameOf(t, names1, x) == ClassNameOf(t, names2, x);
    }
  }

  /** Without `only_class`, a record that builds is never filtered out. */
  lemma RecordNotFiltered(t: Tree, lines: seq<string>, names: map<nat, string>, x: nat)
    requires Valid(t) && x < |t| && IsMethodDeclaration(t[x].kind) && RecordOf(t, lines, None, names)(x).Ok?
    ensures RecordOf(t, lines, None, names)(x).value.Some?
  {
  }

  /** The walk after child `k` of `n` leaves alone the records of the nodes below child `k`. */
  lemma BelowSameRecords(t: Tree, lines: seq<string>, only: Option<string>, n: nat, k: nat, st2: WalkState, r: WalkState)
    requires Valid(t) && UniqueChildren(t) && n < |t| && k < |t[n].children| && t[n].children[k] < |t|
    requires VisitFrom(t, lines, only, n, k + 1, st2) == Ok(r)
    ensures SameRecords(t, RecordOf(t, lines, only, st2.names), RecordOf(t, lines, only, r.names), Visited(t, t[n].children[k], 0))
  {
    var c := t[n].children[k];
    var rec2 := RecordOf(t, lines, only, st2.names);
    var rec := RecordOf(t, lines, only, r.names);
    forall x | x in Visited(t, c, 0) && x < |t| && IsMethodDeclaration(t[x].kind) ensures rec2(x) == rec(x) {
      VisitedBelow(t, c, x);
      if NearestBody(t, Some(x)).Some? {
        var b := NearestBody(t, Some(x)).value;
        AboveInside(t, n, k, b, x);
        if b > n {
          SubtreesApart(t, n, k, b);
        }
        VisitKeepsName(t, lines, only, n, k + 1, st2, b);
      }
      RecordSameName(t, lines, only, st2.names, r.names, x);
    }
    SameRecordsFrom(t, rec2, rec, Visited(t, c, 0));
  }

  /** Entering `c` appends the record of `c`, built with the class names as they stand. */
  lemma EnterRecord(t: Tree, lines: seq<string>, only: Option<string>, c: nat, st: WalkState, st1: WalkState)
    requires Valid(t) && c < |t| && Enter(t, lines, only, c, st) == Ok(st1)
    ensures st1.methods == st.methods + Emitted(t, RecordOf(t, lines, only, st.names), [c])
    ensures AllBuild(t, RecordOf(t, lines, only, st.names), [c])
  {
    if IsMethodDeclaration(t[c].kind) {
      EnterDeclaration(t, lines, only, c, st, st1);
    } else {
      EnterOther(t, lines, only, c, st, st1);
    }
  }

  lemma EnterOther(t: Tree, lines: seq<string>, only: Option<string>, c: nat, st: WalkState, st1: WalkState)
    requires Valid(t) && c < |t| && !IsMethodDeclaration(t[c].kind) && Enter(t, lines, only, c, st) == Ok(st1)
    ensures st1.methods == st.methods + Emitted(t, RecordOf(t, lines, only, st.names), [c])
    ensures AllBuild(t, RecordOf(t, lines, only, st.names), [c])
  {
    assert [c][1..] == [];
  }

  lemma EnterDeclaration(t: Tree, lines: seq<string>, only: Option<string>, c: nat, st: WalkState, st1: WalkState)
    requires Valid(t) && c < |t| && IsMethodDeclaration(t[c].kind) && Enter(t, lines, only, c, st) == Ok(st1)
    ensures st1.methods == st.methods + Emitted(t, RecordOf(t, lines, only, st.names), [c])
    ensures AllBuild(t, RecordOf(t, lines, only, st.names), [c])
  {
    RecordIs(t, lines, only, st.names, c);
    EmittedOne(t, RecordOf(t, lines, only, st.names), c);
  }

  /** One declaration whose record builds contributes that record, if it is not filtered out. */
  lemma EmittedOne(t: Tree, rec: nat -> Result<Option<JMethod>>, c: nat)
    requires c < |t| && IsMethodDeclaration(t[c].kind) && rec(c).Ok?
    ensures Emitted(t, rec, [c]) == (if rec(c).value.Some? then [rec(c).value.value] else [])
    ensures AllBuild(t, rec, [c])
  {
    var xs := [c];
    assert xs[0] == c && xs[1..] == [];
    assert Emitted(t, rec, xs[1..]) == [] && AllBuild(t, rec, xs[1..]);
  }

  /** The class name a declaration that is child `k` of `n` sees when it is entered is the one
      it sees at the end of the walk. */
  lemma ChildSameRecord(t: Tree, lines: seq<string>, only: Option<string>, n: nat, k: nat, st: WalkState, r: WalkState)
    requires Valid(t) && n < |t| && k < |t[n].children| && t[n].children[k] < |t|
    requires VisitFrom(t, lines, only, n, k, st) == Ok(r)
    ensures SameRecords(t, RecordOf(t, lines, only, st.names), RecordOf(t, lines, only, r.names), [t[n].children[k]])
  {
    var c := t[n].children[k];
    if IsMethodDeclaration(t[c].kind) {
      NearestBodyOfChild(t, n, c);
      if NearestBody(t, Some(n)).Some? {
        var b := NearestBody(t, Some(n)).value;
        if b != n {
          AncestorBelow(t, b, n);
        }
        VisitKeepsName(t, lines, only, n, k, st, b);
      }
      RecordSameName(t, lines, only, st.names, r.names, c);
    }
    assert [c][1..] == [];
  }

  /** Entering child `k` of `n` appends the record of the child, as it stands at the end of the
      walk. */
  lemma EnterEmits(t: Tree, lines: seq<string>, only: Option<string>, n: nat, k: nat, st: WalkState, st1: WalkState, r: WalkState)
    requires Valid(t) && n < |t| && k < |t[n].children| && t[n].children[k] < |t|
    requires Enter(t, lines, only, t[n].children[k], st) == Ok(st1)
    requires VisitFrom(t, lines, only, n, k, st) == Ok(r)
    ensures st1.methods == st.methods + Emitted(t, RecordOf(t, lines, only, r.names), [t[n].children[k]])
    ensures AllBuild(t, RecordOf(t, lines, only, r.names), [t[n].children[k]])
  {
    var c := t[n].children[k];
    EnterRecord(t, lines, only, c, st, st1);
    ChildSameRecord(t, lines, only, n, k, st, r);
    EmittedSame(t, RecordOf(t, lines, only, st.names), RecordOf(t, lines, only, r.names), [c]);
  }

  /** The walk appends the records of the declarations it enters, in the order it enters them,
      each built with the class names as they stand at the end; and every declaration it enters
      gives a record without an exception. */
  lemma {:induction false} VisitEmits(t: Tree, lines: seq<string>, only: Option<string>, n: nat, k: nat, st: WalkState, r: WalkState)
    requires Valid(t) && UniqueChildren(t) && n < |t| && k <= |t[n].children|
    requires VisitFrom(t, lines, only, n, k, st) == Ok(r)
    ensures r.methods == st.methods + Emitted(t, RecordOf(t, lines, only, r.names), Visited(t, n, k))
    ensures AllBuild(t, RecordOf(t, lines, only, r.names), Visited(t, n, k))
    decreases |t| - n, |t[n].children| - k
  {
    if k < |t[n].children| {
      var c := t[n].children[k];
      ChildrenAbove(t, n, c);
      var st1 := Enter(t, lines, only, c, st).value;
      var st2 := VisitFrom(t, lines, only, c, 0, st1).value;
      assert VisitFrom(t, lines, only, n, k + 1, st2) == Ok(r);
      var v1 := Visited(t, c, 0);
      var v2 := Visited(t, n, k + 1);
      assert Visited(t, n, k) == [c] + v1 + v2;
      var rec2 := RecordOf(t, lines, only, st2.names);
      var rec := RecordOf(t, lines, only, r.names);
      EnterEmits(t, lines, only, n, k, st, st1, r);
      VisitEmits(t, lines, only, c, 0, st1, st2);
      BelowSameRecords(t, lines, only, n, k, st2, r);
      VisitEmits(t, lines, only, n, k + 1, st2, r);
      EmitsJoin(t, rec2, rec, c, v1, v2, st.methods, st1.methods, st2.methods, r.methods);
    }
  }

  /** The records of `[c] + v1 + v2`, put together from the records of `c`, of `v1` (as `rec2`
      gives them, which agrees with `rec` there) and of `v2`. */
  lemma EmitsJoin(t: Tree, rec2: nat -> Result<Option<JMethod>>, rec: nat -> Result<Option<JMethod>>,
                  c: nat, v1: seq<nat>, v2: seq<nat>, m0: seq<JMethod>, m1: seq<JMethod>, m2: seq<JMethod>, m3: seq<JMethod>)
    requires m1 == m0 + Emitted(t, rec, [c]) && AllBuild(t, rec, [c])
    requires m2 == m1 + Emitted(t, rec2, v1) && AllBuild(t, rec2, v1) && SameRecords(t, rec2, rec, v1)
    requires m3 == m2 + Emitted(t, rec, v2) && AllBuild(t, rec, v2)
    ensures m3 == m0 + Emitted(t, rec, [c] + v1 + v2)
    ensures AllBuild(t, rec, [c] + v1 + v2)
  {
    EmittedSame(t, rec2, rec, v1);
    EmittedThree(t, rec, [c], v1, v2);
  }

  /** The records of three stretches of the walk, one after the other. */
  lemma EmittedThree(t: Tree, rec: nat -> Result<Option<JMethod>>, v0: seq<nat>, v1: seq<nat>, v2: seq<nat>)
    ensures Emitted(t, rec, v0 + v1 + v2) == Emitted(t, rec, v0) + Emitted(t, rec, v1) + Emitted(t, rec, v2)
    ensures AllBuild(t, rec, v0) && AllBuild(t, rec, v1) && AllBuild(t, rec, v2) ==> AllBuild(t, rec, v0 + v1 + v2)
  {
    EmittedConcat(t, rec, v0, v1);
    EmittedConcat(t, rec, v0 + v1, v2);
    if AllBuild(t, rec, v0) && AllBuild(t, rec, v1) && AllBuild(t, rec, v2) {
      AllBuildConcat(t, rec, v0, v1);
      AllBuildConcat(t, rec, v0 + v1, v2);
    }
  }

  /** `get_java_methods` without `only_class` returns one record per method and constructor
      declaration the walk enters, in the order it enters them: each declaration once, and an
      enclosing declaration before the ones nested in it. The `i`-th record is the record of the
      `i`-th declaration, built with the class names the walk gave the class bodies. */
  lemma JavaMethodsPreOrder(t: Tree, code: string)
    requires Valid(t) && UniqueChildren(t) && |t| > 0 && JavaMethods(t, code, None).Ok?
    ensures var ms := JavaMethods(t, code, None).value;
      var names := VisitFrom(t, Lines(code), None, 0, 0, WalkState([], map[], map[])).value.names;
      var d := Declarations(t, Visited(t, 0, 0));
      && |ms| == |d| && PreOrdered(t, d)
      && forall i | 0 <= i < |d| ::
           MethodObject(t, Lines(code), None, names, d[i]) == Ok(Some(ms[i])) && ms[i].loc == (t[d[i]].start, t[d[i]].end)
  {
    var lines := Lines(code);
    var r := VisitFrom(t, lines, None, 0, 0, WalkState([], map[], map[])).value;
    var vs := Visited(t, 0, 0);
    var d := Declarations(t, vs);
    var rec := RecordOf(t, lines, None, r.names);
    VisitEmits(t, lines, None, 0, 0, WalkState([], map[], map[]), r);
    EmittedDeclarations(t, rec, vs);
    forall x | x in d ensures x < |t| && IsMethodDeclaration(t[x].kind) && rec(x).Ok? && rec(x).value.Some? {
      AllBuildMember(t, rec, vs, x);
      RecordNotFiltered(t, lines, r.names, x);
    }
    VisitedPreOrder(t, 0, 0);
    DeclarationsPreOrdered(t, vs);
    if |d| > 0 {
      EmittedAt(t, rec, d, 0);
    }
    forall i | 0 <= i < |d|
      ensures MethodObject(t, lines, None, r.names, d[i]) == Ok(Some(r.methods[i])) && r.methods[i].loc == (t[d[i]].start, t[d[i]].end)
    {
      EmittedAt(t, rec, d, i);
      RecordIs(t, lines, None, r.names, d[i]);
      MethodObjectFields(t, lines, None, r.names, d[i]);
    }
  }

  /** With `only_class` set, every method the walk adds belongs to that class. */
  lemma {:induction false} VisitOnlyClass(t: Tree, lines: seq<string>, only: Option<string>, n: nat, k: nat, st: WalkState)
    requires Valid(t) && n < |t| && k <= |t[n].children| && only.Some?
    requires forall i | 0 <= i < |st.methods| :: st.methods[i].className == only.value
    requires VisitFrom(t, lines, only, n, k, st).Ok?
    ensures var r := VisitFrom(t, lines, only, n, k, st).value;
      forall i | 0 <= i < |r.methods| :: r.methods[i].className == only.value
    decreases |t| - n, |t[n].children| - k
  {
    if k < |t[n].children| {
      var c := t[n].children[k];
      ChildrenInside(t, n);
      var st1 := Enter(t, lines, only, c, st).value;
      if IsMethodDeclaration(t[c].kind) {
        var m := MethodObject(t, lines, only, st.names, c);
        if m.value.Some? {
          MethodObjectFields(t, lines, only, st.names, c);
        }
      }
      VisitOnlyClass(t, lines, only, c, 0, st1);
      var st2 := VisitFrom(t, lines, only, c, 0, st1).value;
      VisitOnlyClass(t, lines, only, n, k + 1, st2);
    }
  }

  /** With `only_class` set, `get_java_methods` returns only methods of that class. */
  lemma OnlyClassFilters(t: Tree, code: string, only: Option<string>)
    requires Valid(t) && |t| > 0 && only.Some? && JavaMethods(t, code, only).Ok?
    ensures forall i | 0 <= i < |JavaMethods(t, code, only).value| ::
      JavaMethods(t, code, only).value[i].className == only.value
  {
    VisitOnlyClass(t, Lines(code), only, 0, 0, WalkState([], map[], map[]));
  }

  /** Every class body at or above `n` already has its cached name. */
  predicate BodiesNamed(t: Tree, n: nat, st: WalkState)
    requires Valid(t) && n < |t|
  {
    forall a: nat | a < |t| && AncestorOrSelf(t, a, n) && IsClassBody(t[a].kind) :: a in st.names
  }

  /** Every cached class name has a counter. */
  predicate CountersCover(st: WalkState) {
    forall a | a in st.names :: st.names[a] in st.counter
  }

  /** The parameter types never raise KeyError. */
  lemma {:induction false} ParamTypesOfNoKey(t: Tree, ps: seq<nat>)
    requires Valid(t) && forall k | 0 <= k < |ps| :: ps[k] < |t|
    ensures ParamTypesOf(t, ps).Err? ==> !ParamTypesOf(t, ps).error.KeyError?
    decreases |ps|
  {
    if ps != [] {
      ParamTypesOfNoKey(t, ps[..|ps| - 1]);
    }
  }

  /** `get_param_types` never raises KeyError. */
  lemma ParamTypesNoKey(t: Tree, n: nat)
    requires Valid(t) && n < |t|
    ensures ParamTypes(t, n).Err? ==> !ParamTypes(t, n).error.KeyError?
  {
    match ChildByField(t, n, "parameters")
    case None =>
    case Some(ps) =>
      ChildrenInside(t, n);
      NamedInside(t, ps);
      ParamTypesOfNoKey(t, NamedChildren(t, ps));
  }

  /** A method record raises KeyError only where looking up its class name does. */
  lemma MethodObjectNoKey(t: Tree, lines: seq<string>, only: Option<string>, names: map<nat, string>, n: nat)
    requires Valid(t) && n < |t| && (ClassNameOf(t, names, n).Err? ==> !ClassNameOf(t, names, n).error.KeyError?)
    ensures MethodObject(t, lines, only, names, n).Err? ==> !MethodObject(t, lines, only, names, n).error.KeyError?
  {
    var cn := ClassNameOf(t, names, n);
    if cn.Err? {
      assert MethodObject(t, lines, only, names, n) == Err(cn.error);
    } else if !(only.Some? && cn.value != only.value) {
      var pt := ParamTypes(t, n);
      var rt := ReturnType(t, n);
      if pt.Err? {
        ParamTypesNoKey(t, n);
        assert MethodObject(t, lines, only, names, n) == Err(pt.error);
      } else if rt.Err? {
        assert MethodObject(t, lines, only, names, n) == Err(rt.error);
      } else if t[n].prevSibling.None? {
        assert MethodObject(t, lines, only, names, n).error.AttributeError?;
      }
    }
  }

  /** The nearest class body above a child that is not a class body is the nearest one at or
      above its parent. */
  lemma NearestBodyOfChild(t: Tree, n: nat, c: nat)
    requires Valid(t) && n < |t| && c in t[n].children && !IsClassBody(t[c].kind)
    ensures c < |t| && NearestBody(t, Some(c)) == NearestBody(t, Some(n))
  {
  }

  /** A class body above a child is the child itself or a class body at or above its parent. */
  lemma AncestorOfChild(t: Tree, n: nat, c: nat, a: nat)
    requires Valid(t) && n < |t| && c in t[n].children
    ensures c < |t| && (AncestorOrSelf(t, a, c) <==> a == c || AncestorOrSelf(t, a, n))
  {
  }

  /** Entering a child of `n` whose enclosing class bodies are all named raises no KeyError, and
      leaves the child's enclosing class bodies (itself included) named and every name counted. */
  lemma EnterNoKey(t: Tree, lines: seq<string>, only: Option<string>, n: nat, c: nat, st: WalkState)
    requires Valid(t) && n < |t| && c in t[n].children
    requires BodiesNamed(t, n, st) && CountersCover(st)
    ensures c < |t|
    ensures var r := Enter(t, lines, only, c, st);
      && (r.Err? ==> !r.error.KeyError?)
      && (r.Ok? ==> BodiesNamed(t, c, r.value) && CountersCover(r.value) && st.names.Keys <= r.value.names.Keys)
  {
    ChildrenAbove(t, n, c);
    var r := Enter(t, lines, only, c, st);
    if IsMethodDeclaration(t[c].kind) {
      NearestBodyOfChild(t, n, c);
      MethodObjectNoKey(t, lines, only, st.names, c);
    } else if IsClassBody(t[c].kind) {
      var p := t[c].parent.value;
      if !IsClassDeclaration(t[p].kind) {
        var a := NearestBody(t, Some(p));
        assert a.Some? ==> a.value in st.names;
      }
      if r.Ok? {
        var nc := BodyName(t, st.names, st.counter, c).value;
        assert st.counter.Keys <= nc.1.Keys;
      }
    }
    if r.Ok? {
      forall a: nat | a < |t| && AncestorOrSelf(t, a, c) && IsClassBody(t[a].kind)
        ensures a in r.value.names
      {
        AncestorOfChild(t, n, c, a);
      }
    }
  }

  /** The walk raises no KeyError while the class bodies above `n` are named: a class body is
      named when the walk enters it, before anything inside it asks for its name, and every name
      gets a counter. Names already cached stay cached. */
  lemma {:induction false} VisitNoKey(t: Tree, lines: seq<string>, only: Option<string>, n: nat, k: nat, st: WalkState)
    requires Valid(t) && n < |t| && k <= |t[n].children|
    requires BodiesNamed(t, n, st) && CountersCover(st)
    ensures var r := VisitFrom(t, lines, only, n, k, st);
      && (r.Err? ==> !r.error.KeyError?)
      && (r.Ok? ==> CountersCover(r.value) && st.names.Keys <= r.value.names.Keys)
    decreases |t| - n, |t[n].children| - k
  {
    if k < |t[n].children| {
      var c := t[n].children[k];
      ChildrenInside(t, n);
      EnterNoKey(t, lines, only, n, c, st);
      var e := Enter(t, lines, only, c, st);
      if e.Ok? {
        var st1 := e.value;
        VisitNoKey(t, lines, only, c, 0, st1);
        var v := VisitFrom(t, lines, only, c, 0, st1);
        if v.Ok? {
          var st2 := v.value;
          assert BodiesNamed(t, n, st2);
          VisitNoKey(t, lines, only, n, k + 1, st2);
        }
      }
    }
  }

  /** On a tree whose root is not a class body, `get_java_methods` never raises KeyError: the
      cached name of every class body is there when a method or a nested class asks for it. */
  lemma JavaMethodsNoKey(t: Tree, code: string, only: Option<string>)
    requires Valid(t) && |t| > 0 && !IsClassBody(t[0].kind)
    ensures JavaMethods(t, code, only).Err? ==> !JavaMethods(t, code, only).error.KeyError?
  {
    var st := WalkState([], map[], map[]);
    assert t[0].parent.None?;
    VisitNoKey(t, Lines(code), only, 0, 0, st);
  }

  // ---------------------------------------------------------------------------------
  // The walk, imperatively

  /** The closure state of one `get_java_methods` call: the tree and the code's lines it reads,
      and the `methods` list, `loc2cname` and `counter` dictionaries `dfs` updates. */
  class MethodWalk {
    const tree: Tree
    const lines: seq<string>
    const only: Option<string>
    var methods: seq<JMethod>
    var names: map<nat, string>
    var counter: map<string, int>

    function State(): WalkState
      reads this
    {
      WalkState(methods, names, counter)
    }

    constructor (tree: Tree, code: string, only: Option<string>)
      ensures this.tree == tree && this.lines == Lines(code) && this.only == only
      ensures State() == WalkState([], map[], map[])
    {
      this.tree := tree;
      this.lines := Lines(code);
      this.only := only;
      methods := [];
      names := map[];
      counter := map[];
    }

    /** `get_param_types`: loop over the named parameters, building the type list. */
    method GetParamTypes(n: nat) returns (r: Result<seq<string>>)
      requires Valid(tree) && n < |tree|
      ensures r == ParamTypes(tree, n)
    {
      var params := ChildByField(tree, n, "parameters");
      if params.None? {
        return Err(AttributeError("parameters"));
      }
      ChildrenInside(tree, n);
      NamedInside(tree, params.value);
      var ps := NamedChildren(tree, params.value);
      r := GetTypesOf(ps);
    }

    /** The loop of `get_param_types` over the named parameters, building the type list. */
    method GetTypesOf(ps: seq<nat>) returns (r: Result<seq<string>>)
      requires Valid(tree) && forall k | 0 <= k < |ps| :: ps[k] < |tree|
      ensures r == ParamTypesOf(tree, ps)
    {
      var types: seq<string> := [];
      var i := 0;
      while i < |ps|
        invariant i <= |ps|
        invariant ParamTypesOf(tree, ps[..i]) == Ok(types)
      {
        ParamTypesOfStep(tree, ps, i);
        var t := GetParamType(ps[i]);
        if t.Err? {
          ParamTypesOfErr(tree, ps, i + 1);
          return Err(t.error);
        }
        if t.value.Some? {
          types := types + [t.value.value];
        } else {
          assert types + [] == types;
        }
        i := i + 1;
      }
      assert ps[..|ps|] == ps;
      return Ok(types);
    }

    /** One turn of the loop in `get_param_types`. */
    method GetParamType(p: nat) returns (r: Result<Option<string>>)
      requires Valid(tree) && p < |tree|
      ensures r == ParamType(tree, p)
    {
      if tree[p].kind == "spread_parameter" {
        ChildrenInside(tree, p);
        var cs := tree[p].children;
        var j := 0;
        while j < |cs|
          invariant j <= |cs|
          invariant FirstNonModifier(tree, cs) == FirstNonModifier(tree, cs[j..])
        {
          if tree[cs[j]].kind != "modifiers" {
            return Ok(Some(tree[cs[j]].text + "[]"));
          }
          assert cs[j..][1..] == cs[j + 1..];
          j := j + 1;
        }
        return Ok(None);
      }
      var ty := ChildByField(tree, p, "type");
      if ty.None? {
        return Ok(None);
      }
      var arg: string;
      if tree[ty.value].kind == "scoped_type_identifier" {
        ChildrenAbove(tree, p, ty.value);
        var last := LastNamed(tree, ty.value);
        if last.Err? {
          return Err(last.error);
        }
        ChildrenAbove(tree, ty.value, last.value);
        arg := tree[last.value].text;
      } else {
        arg := tree[ty.value].text;
      }
      if ChildByField(tree, p, "dimensions").Some? {
        arg := arg + "[]";
      }
      return Ok(Some(CutTypeArguments(arg)));
    }

    /** `get_class_name_for_method`. */
    method ClassNameForMethod(n: nat) returns (r: Result<string>)
      requires Valid(tree) && n < |tree|
      ensures r == ClassNameOf(tree, names, n)
    {
      var b := FindNearestBody(tree, Some(n));
      if b.None? {
        return Err(AttributeError("'NoneType' object has no attribute 'type'"));
      }
      if b.value !in names {
        return Err(KeyError("byte_range"));
      }
      return Ok(names[b.value]);
    }

    /** `get_method_object`. */
    method GetMethodObject(n: nat) returns (r: Result<Option<JMethod>>)
      requires Valid(tree) && n < |tree|
      ensures r == MethodObject(tree, lines, only, names, n)
    {
      var className := ClassNameForMethod(n);
      if className.Err? {
        return Err(className.error);
      }
      if only.Some? && className.value != only.value {
        return Ok(None);
      }
      var code := Join(Slice(lines, tree[n].start.row, tree[n].end.row + 1), "\n");
      var name := MethodName(tree, n);
      var paramTypes := GetParamTypes(n);
      if paramTypes.Err? {
        return Err(paramTypes.error);
      }
      var returnType := ReturnType(tree, n);
      if returnType.Err? {
        return Err(returnType.error);
      }
      if tree[n].prevSibling.None? {
        return Err(AttributeError("'NoneType' object has no attribute 'type'"));
      }
      var prev := tree[n].prevSibling.value;
      PrevSiblingInside(tree, n);
      var comment, text;
      if Contains(tree[prev].kind, "comment") {
        comment := tree[prev].text;
        text := Join(Slice(lines, tree[prev].start.row, tree[n].end.row + 1), "\n");
      } else {
        comment := "";
        text := code;
      }
      return Ok(Some(JMethod(name, className.value, paramTypes.value, returnType.value, code, comment, text,
                             (tree[n].start, tree[n].end), None)));
    }

    /** `get_class_name_for_class_body`, which bumps the enclosing class's counter for an
        anonymous class. */
    method ClassNameForBody(b: nat) returns (name: Result<string>)
      requires Valid(tree) && b < |tree|
      modifies this
      ensures methods == old(methods) && names == old(names)
      ensures var r := BodyName(tree, old(names), old(counter), b);
        (r.Ok? ==> name == Ok(r.value.0) && counter == r.value.1) && (r.Err? ==> name == Err(r.error))
    {
      if tree[b].parent.None? {
        return Err(AttributeError("'NoneType' object has no attribute 'type'"));
      }
      var p := tree[b].parent.value;
      ParentBelow(tree, b);
      if IsClassDeclaration(tree[p].kind) {
        name := DeclaredClassName(tree, b);
        return;
      }
      var a := FindNearestBody(tree, Some(p));
      if a.None? {
        return Err(AttributeError("'NoneType' object has no attribute 'byte_range'"));
      }
      if a.value !in names {
        return Err(KeyError("byte_range"));
      }
      var outer := names[a.value];
      if outer !in counter {
        return Err(KeyError(outer));
      }
      counter := counter[outer := counter[outer] + 1];
      return Ok(outer + "$" + IntToString(counter[outer]));
    }

    /** `dfs(node)`: the walk below `n`, updating the state in place; the error, if any,
        is the exception that escapes. */
    method Dfs(n: nat) returns (err: Option<PyError>)
      requires Valid(tree) && n < |tree|
      modifies this
      ensures var r := VisitFrom(tree, lines, only, n, 0, old(State()));
        (r.Ok? ==> err.None? && State() == r.value) && (r.Err? ==> err == Some(r.error))
      decreases |tree| - n
    {
      var cs := tree[n].children;
      ChildrenInside(tree, n);
      var k := 0;
      while k < |cs|
        invariant k <= |cs|
        invariant VisitFrom(tree, lines, only, n, 0, old(State())) == VisitFrom(tree, lines, only, n, k, State())
      {
        var c := cs[k];
        if IsMethodDeclaration(tree[c].kind) {
          var m := GetMethodObject(c);
          if m.Err? {
            return Some(m.error);
          }
          if m.value.Some? {
            methods := methods + [m.value.value];
          }
        } else if IsClassBody(tree[c].kind) {
          var name := ClassNameForBody(c);
          if name.Err? {
            return Some(name.error);
          }
          counter := counter[name.value := 0];
          names := names[c := name.value];
        }
        err := Dfs(c);
        if err.Some? {
          return;
        }
        k := k + 1;
      }
      return None;
    }
  }

  /** `get_java_methods(code, only_class)` on the parsed tree of `code`. */
  method GetJavaMethods(t: Tree, code: string, only: Option<string>) returns (r: Result<seq<JMethod>>)
    requires Valid(t) && |t| > 0
    ensures r == JavaMethods(t, code, only)
  {
    var walk := new MethodWalk(t, code, only);
    var err := walk.Dfs(0);
    if err.Some? {
      return Err(err.value);
    }
    return Ok(walk.methods);
  }

  // ---------------------------------------------------------------------------------
  // Methods touched by a diff

  /** One zero-context hunk of the diff: its start line in the buggy file (1-based) and its length. */
  datatype Hunk = Hunk(sourceStart: int, sourceLength: nat)

  /** The changed points: the first and last buggy line of each hunk. */
  function ChangedPoints(hunks: seq<Hunk>): set<int>
  {
    if hunks == [] then {}
    else
      var h := hunks[|hunks| - 1];
      ChangedPoints(hunks[..|hunks| - 1]) + {h.sourceStart, h.sourceStart + h.sourceLength - 1}
  }

  /** The changed points hunk by hunk, first line then last line, repeats kept. */
  function ChangedPointList(hunks: seq<Hunk>): seq<int> {
    if hunks == [] then []
    else
      var h := hunks[|hunks| - 1];
      ChangedPointList(hunks[..|hunks| - 1]) + [h.sourceStart, h.sourceStart + h.sourceLength - 1]
  }

  lemma {:induction false} ChangedPointListExact(hunks: seq<Hunk>, p: int)
    ensures p in ChangedPointList(hunks) <==> p in ChangedPoints(hunks)
    decreases |hunks|
  {
    if hunks != [] {
      ChangedPointListExact(hunks[..|hunks| - 1], p);
    }
  }

  /** `p` is the first or the last source line of one of the hunks. */
  predicate HunkEnd(hunks: seq<Hunk>, p: int) {
    exists i | 0 <= i < |hunks| :: p == hunks[i].sourceStart || p == hunks[i].sourceStart + hunks[i].sourceLength - 1
  }

  /** The changed points are exactly the first and last lines of the hunks. */
  lemma {:induction false} ChangedPointsExact(hunks: seq<Hunk>, p: int)
    ensures p in ChangedPoints(hunks) <==> HunkEnd(hunks, p)
    decreases |hunks|
  {
    if hunks != [] {
      var front := hunks[..|hunks| - 1];
      var h := hunks[|hunks| - 1];
      ChangedPointsExact(front, p);
      if HunkEnd(front, p) {
        var i :| 0 <= i < |front| && (p == front[i].sourceStart || p == front[i].sourceStart + front[i].sourceLength - 1);
        assert hunks[i] == front[i];
      }
      if HunkEnd(hunks, p) && !(p == h.sourceStart || p == h.sourceStart + h.sourceLength - 1) {
        var i :| 0 <= i < |hunks| && (p == hunks[i].sourceStart || p == hunks[i].sourceStart + hunks[i].sourceLength - 1);
        assert front[i] == hunks[i];
      }
    }
  }

  /** A method's 1-based line span contains a changed point. */
  predicate Touched(m: JMethod, points: set<int>) {
    exists p | p in points :: m.loc.0.row + 1 <= p <= m.loc.1.row + 1
  }

  /** The methods, in order, whose span contains a changed point. */
  function TouchedMethods(methods: seq<JMethod>, points: set<int>): (r: seq<JMethod>)
    ensures |r| <= |methods|
  {
    if methods == [] then []
    else
      TouchedMethods(methods[..|methods| - 1], points)
      + (if Touched(methods[|methods| - 1], points) then [methods[|methods| - 1]] else [])
  }

  /** The touched methods are exactly the methods that are touched, kept in order. */
  lemma {:induction false} TouchedMethodsExact(methods: seq<JMethod>, points: set<int>)
    ensures forall m | m in TouchedMethods(methods, points) :: m in methods && Touched(m, points)
    ensures forall i | 0 <= i < |methods| && Touched(methods[i], points) :: methods[i] in TouchedMethods(methods, points)
    decreases |methods|
  {
    if methods != [] {
      var front := methods[..|methods| - 1];
      TouchedMethodsExact(front, points);
      forall i | 0 <= i < |methods| - 1 ensures methods[i] == front[i] { }
    }
  }

  /** Every method touched by a hunk that only inserts lines (length 0) is one whose span
      contains the hunk's start or the line before it. */
  lemma InsertionHunkPoints(h: Hunk)
    requires h.sourceLength == 0
    ensures ChangedPoints([h]) == {h.sourceStart, h.sourceStart - 1}
  {
    assert [h][..0] == [];
  }

  /** `get_buggy_methods`: the methods of the buggy file that a hunk of the diff touches. It
      fails when the buggy file has no methods or the two files do not differ (no hunks). */
  function BuggyMethods(t: Tree, buggyCode: string, hunks: seq<Hunk>): Result<seq<JMethod>>
    requires Valid(t) && |t| > 0
  {
    var methods :- JavaMethods(t, buggyCode, None);
    if |methods| == 0 then Err(AssertionError("no method found in buggy file"))
    else if |hunks| == 0 then Err(AssertionError("buggy file and fixed file are the same"))
    else Ok(TouchedMethods(methods, ChangedPoints(hunks)))
  }

  /** `get_buggy_methods`, with the buggy file's parse tree and the hunks of its zero-context
      diff against the fixed file as inputs. */
  method GetBuggyMethods(t: Tree, buggyCode: string, hunks: seq<Hunk>) returns (r: Result<seq<JMethod>>)
    requires Valid(t) && |t| > 0
    ensures r == BuggyMethods(t, buggyCode, hunks)
  {
    var found := GetJavaMethods(t, buggyCode, None);
    if found.Err? {
      return Err(found.error);
    }
    var methods := found.value;
    if |methods| == 0 {
      return Err(AssertionError("no method found in buggy file"));
    }
    if |hunks| == 0 {
      return Err(AssertionError("buggy file and fixed file are the same"));
    }
    var points := CollectChangedPoints(hunks);
    var order := ChangedPointList(hunks);
    forall x ensures x in order <==> x in points {
      ChangedPointsExact(hunks, x);
      ChangedPointListExact(hunks, x);
    }
    var changed := SelectTouched(methods, points, order);
    return Ok(changed);
  }

  /** The loop over the hunks that fills the set of changed points. */
  method CollectChangedPoints(hunks: seq<Hunk>) returns (points: set<int>)
    ensures points == ChangedPoints(hunks)
  {
    points := {};
    for i := 0 to |hunks|
      invariant points == ChangedPoints(hunks[..i])
    {
      assert hunks[..i + 1][..i] == hunks[..i];
      points := points + {hunks[i].sourceStart};
      points := points + {hunks[i].sourceStart + hunks[i].sourceLength - 1};
    }
    assert hunks[..|hunks|] == hunks;
  }

  /** The loop over the methods, each kept once as soon as one changed point falls in its span. */
  method SelectTouched(methods: seq<JMethod>, points: set<int>, order: seq<int>) returns (changed: seq<JMethod>)
    requires forall x :: x in order <==> x in points
    ensures changed == TouchedMethods(methods, points)
  {
    changed := [];
    for i := 0 to |methods|
      invariant changed == TouchedMethods(methods[..i], points)
    {
      assert methods[..i + 1][..i] == methods[..i];
      assert methods[..i + 1][i] == methods[i];
      var hit := SpanHasPoint(methods[i], points, order);
      if hit {
        changed := changed + [methods[i]];
      }
    }
    assert methods[..|methods|] == methods;
  }

  /** The inner loop over the changed points, stopping at the first one inside the method's
      1-based span. The set is walked in the order `order` lists it; the answer does not
      depend on that order. */
  method SpanHasPoint(m: JMethod, points: set<int>, order: seq<int>) returns (hit: bool)
    requires forall x :: x in order <==> x in points
    ensures hit <==> Touched(m, points)
  {
    var start := m.loc.0.row + 1;
    var end := m.loc.1.row + 1;
    for i := 0 to |order|
      invariant forall j | 0 <= j < i :: !(start <= order[j] <= end)
    {
      if start <= order[i] <= end {
        assert order[i] in points;
        return true;
      }
    }
    forall q | q in points ensures !(start <= q <= end) {
      var j :| 0 <= j < |order| && order[j] == q;
    }
    return false;
  }

}
