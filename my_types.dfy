/** The records of functions/my_types.py: a resolved Java method (`JMethod`) with its
    signature, its signature regular expression and its line-numbered code, and a
    failing test case whose name is split into class and method. */
module MyTypes {
  import opened Wrappers
  import opened Strings
  import opened SyntaxTree

  /** One method or constructor declaration. `name` is None when the declaration has no
      identifier child. `loc` holds the 0-based start and end points of the declaration. */
  datatype JMethod = JMethod(
    name: Option<string>,
    className: string,
    paramTypes: seq<string>,
    returnType: string,
    code: string,
    comment: string,
    text: string,
    loc: (Point, Point),
    classFullName: Option<string>)

  /** What an f-string renders for the method name: the name, or "None". */
  function NameText(name: Option<string>): string {
    match name
    case Some(s) => s
    case None => "None"
  }

  /** `JMethod.get_signature`: "<return> <class>::<name>(<p1>,<p2>,...)". */
  function Signature(m: JMethod): string {
    m.returnType + " " + m.className + "::" + NameText(m.name) + "(" + Join(m.paramTypes, ",") + ")"
  }

  /** The parts a signature is built from. */
  datatype SignatureParts = SignatureParts(returnType: string, className: string, name: string, paramTypes: seq<string>)

  /** Reads a signature back: the return type up to the first blank, the class up to the
      first "::", the name up to the first "(", and the comma-separated parameter list
      up to the closing ")". */
  function ParseSignature(sig: string): Option<SignatureParts> {
    match Find(sig, " ", 0)
    case None => None
    case Some(b) =>
      match ParseQualifiedCall(sig[b + 1..])
      case None => None
      case Some(rest) => Some(rest.(returnType := sig[..b]))
  }

  /** "<class>::<name>(<params>)", with the return type left empty. */
  function ParseQualifiedCall(s: string): Option<SignatureParts> {
    match Find(s, "::", 0)
    case None => None
    case Some(c) =>
      match ParseCall(s[c + 2..])
      case None => None
      case Some((name, params)) => Some(SignatureParts("", s[..c], name, params))
  }

  /** "<name>(<p1>,<p2>,...)". */
  function ParseCall(s: string): Option<(string, seq<string>)> {
    match Find(s, "(", 0)
    case None => None
    case Some(p) =>
      var inner := s[p + 1..];
      if |inner| == 0 || inner[|inner| - 1] != ')' then None
      else
        var params := inner[..|inner| - 1];
        Some((s[..p], if params == "" then [] else SplitOn(params, ",")))
  }

  /** A signature can be read back into the method's parts when the parts cannot be
      confused with the punctuation between them. */
  predicate PlainParts(m: JMethod) {
    && ' ' !in m.returnType
    && ':' !in m.className
    && '(' !in NameText(m.name)
    && (forall k | 0 <= k < |m.paramTypes| :: m.paramTypes[k] != "" && ',' !in m.paramTypes[k])
  }

  /** Reading back a signature whose parts cannot be confused with its punctuation
      gives back the parts and the parameter list as written. */
  lemma SignatureRoundTrip(m: JMethod)
    requires PlainParts(m)
    ensures ParseSignature(Signature(m)) ==
            Some(SignatureParts(m.returnType, m.className, NameText(m.name), m.paramTypes))
  {
    var params := Join(m.paramTypes, ",");
    ParseSignatureOf(m.returnType, m.className, NameText(m.name), params);
    if |m.paramTypes| == 0 {
      assert params == "";
    } else {
      SplitOnJoin(m.paramTypes, ',');
      JoinStartsWith(m.paramTypes, ",");
    }
  }

  lemma ParseSignatureOf(rt: string, cls: string, name: string, params: string)
    requires ' ' !in rt && ':' !in cls && '(' !in name
    ensures ParseSignature(rt + " " + cls + "::" + name + "(" + params + ")") ==
            Some(SignatureParts(rt, cls, name, if params == "" then [] else SplitOn(params, ",")))
  {
    var afterReturn := cls + "::" + name + "(" + params + ")";
    var sig := rt + " " + cls + "::" + name + "(" + params + ")";
    assert sig == rt + [' '] + afterReturn;
    FindCharAfter(rt, ' ', afterReturn);
    assert sig[|rt| + 1..] == afterReturn;
    assert sig[..|rt|] == rt;
    ParseQualifiedCallOf(cls, name, params);
  }

  lemma ParseQualifiedCallOf(cls: string, name: string, params: string)
    requires ':' !in cls && '(' !in name
    ensures ParseQualifiedCall(cls + "::" + name + "(" + params + ")") ==
            Some(SignatureParts("", cls, name, if params == "" then [] else SplitOn(params, ",")))
  {
    var afterClass := name + "(" + params + ")";
    var s := cls + "::" + name + "(" + params + ")";
    assert s == cls + "::" + afterClass;
    FindColonsAfter(cls, afterClass);
    assert s[|cls| + 2..] == afterClass;
    assert s[..|cls|] == cls;
    ParseCallOf(name, params);
  }

  lemma ParseCallOf(name: string, params: string)
    requires '(' !in name
    ensures ParseCall(name + "(" + params + ")") ==
            Some((name, if params == "" then [] else SplitOn(params, ",")))
  {
    var s := name + "(" + params + ")";
    assert s == name + ['('] + (params + ")");
    FindCharAfter(name, '(', params + ")");
    assert s[..|name|] == name;
    var inner := s[|name| + 1..];
    assert inner == params + ")";
    assert inner[..|inner| - 1] == params;
  }

  lemma JoinStartsWith(parts: seq<string>, sep: string)
    requires |parts| >= 1
    ensures |Join(parts, sep)| >= |parts[0]|
  {
  }

  /** In `a + "::" + b` with no ':' in `a`, the first "::" is the one after `a`. */
  lemma FindColonsAfter(a: string, b: string)
    requires ':' !in a
    ensures Find(a + "::" + b, "::", 0) == Some(|a|)
  {
    var s := a + "::" + b;
    assert s[|a|..|a| + 2] == "::";
    assert At(s, "::", |a|);
    forall j | 0 <= j < |a| ensures !At(s, "::", j) {
      assert s[j..j + 2][0] == a[j];
    }    FindFirst(s, "::", 0);
  }

  /** Whether a type name stands for a generic type argument: one upper-case letter, or "Object". */
  predicate IsGenerics(t: string) {
    (|t| == 1 && IsUpper(t[0])) || t == "Object"
  }

  function Generalize(t: string): string {
    if IsGenerics(t) then "\\w+" else t
  }

  function GeneralizeAll(ts: seq<string>): (r: seq<string>)
    ensures |r| == |ts|
    ensures forall k | 0 <= k < |ts| :: r[k] == Generalize(ts[k])
  {
    if ts == [] then [] else [Generalize(ts[0])] + GeneralizeAll(ts[1..])
  }

  /** Python `s.replace(c, r)` for a one-character pattern. */
  function ReplaceChar(s: string, c: char, r: string): string {
    if s == [] then [] else (if s[0] == c then r else [s[0]]) + ReplaceChar(s[1..], c, r)
  }

  /** The chain of four replacements in `get_generics_re`. */
  function EscapeChain(s: string): string {
    ReplaceChar(ReplaceChar(ReplaceChar(ReplaceChar(s, '$', "\\$"), '.', "\\."), '[', "\\["), ']', "\\]")
  }

  predicate IsRegexSpecial(c: char) {
    c == '$' || c == '.' || c == '[' || c == ']'
  }

  /** Backslash before every `$`, `.`, `[` and `]`, one character at a time. */
  function Escape(s: string): string {
    if s == [] then []
    else (if IsRegexSpecial(s[0]) then ['\\', s[0]] else [s[0]]) + Escape(s[1..])
  }

  /** `JMethod.get_generics_re`. */
  function GenericsRe(m: JMethod): string {
    var rt := Generalize(m.returnType);
    var pts := GeneralizeAll(m.paramTypes);
    EscapeChain(rt + " " + m.className + "::" + NameText(m.name) + "\\(" + Join(pts, ",") + "\\)")
  }

  lemma {:induction false} ReplaceCharAppend(a: string, b: string, c: char, r: string)
    ensures ReplaceChar(a + b, c, r) == ReplaceChar(a, c, r) + ReplaceChar(b, c, r)
    decreases |a|
  {
    if a == [] {
      assert a + b == b;
    } else {
      ReplaceCharAppend(a[1..], b, c, r);
      assert (a + b)[0] == a[0];
      assert (a + b)[1..] == a[1..] + b;
    }
  }

  lemma {:induction false} EscapeAppend(a: string, b: string)
    ensures Escape(a + b) == Escape(a) + Escape(b)
    decreases |a|
  {
    if a == [] {
      assert a + b == b;
    } else {
      EscapeAppend(a[1..], b);
      assert (a + b)[0] == a[0];
      assert (a + b)[1..] == a[1..] + b;
    }
  }

  lemma EscapeChainAppend(a: string, b: string)
    ensures EscapeChain(a + b) == EscapeChain(a) + EscapeChain(b)
  {
    ReplaceCharAppend(a, b, '$', "\\$");
    var a1, b1 := ReplaceChar(a, '$', "\\$"), ReplaceChar(b, '$', "\\$");
    ReplaceCharAppend(a1, b1, '.', "\\.");
    var a2, b2 := ReplaceChar(a1, '.', "\\."), ReplaceChar(b1, '.', "\\.");
    ReplaceCharAppend(a2, b2, '[', "\\[");
    var a3, b3 := ReplaceChar(a2, '[', "\\["), ReplaceChar(b2, '[', "\\[");
    ReplaceCharAppend(a3, b3, ']', "\\]");
  }

  /** The four chained replacements act one character at a time: none of them touches
      what an earlier one inserted, so together they escape each special character once. */
  lemma {:induction false} EscapeChainIsEscape(s: string)
    ensures EscapeChain(s) == Escape(s)
    decreases |s|
  {
    if s != [] {
      assert s == [s[0]] + s[1..];
      EscapeChainAppend([s[0]], s[1..]);
      EscapeChainIsEscape(s[1..]);
      EscapeAppend([s[0]], s[1..]);
      EscapeChainChar(s[0]);
    }
  }

  /** On one character the chain escapes it at most once. */
  lemma EscapeChainChar(c: char)
    ensures EscapeChain([c]) == Escape([c])
  {
    ReplaceCharOne(c, '$', "\\$");
    ReplaceCharOne(c, '.', "\\.");
    ReplaceCharOne(c, '[', "\\[");
    ReplaceCharOne(c, ']', "\\]");
    if c == '$' {
      ReplaceCharAbsent("\\$", '.', "\\.");
      ReplaceCharAbsent("\\$", '[', "\\[");
      ReplaceCharAbsent("\\$", ']', "\\]");
    } else if c == '.' {
      ReplaceCharAbsent("\\.", '[', "\\[");
      ReplaceCharAbsent("\\.", ']', "\\]");
    } else if c == '[' {
      ReplaceCharAbsent("\\[", ']', "\\]");
    }
    assert Escape([c]) == (if IsRegexSpecial(c) then ['\\', c] else [c]) + Escape([]);
  }

  lemma ReplaceCharOne(x: char, c: char, r: string)
    ensures ReplaceChar([x], c, r) == if x == c then r else [x]
  {
    assert [x][1..] == [];
  }

  /** A replacement leaves a string without the pattern character unchanged. */
  lemma {:induction false} ReplaceCharAbsent(s: string, c: char, r: string)
    requires c !in s
    ensures ReplaceChar(s, c, r) == s
    decreases |s|
  {
    if s != [] {
      ReplaceCharAbsent(s[1..], c, r);
    }
  }

  /** `get_generics_re` escapes the class name, the method name and every type, and keeps
      the `\w+` it puts for generic types and the `\(`, `\)` around the parameters intact. */
  lemma GenericsReShape(m: JMethod)
    ensures GenericsRe(m) ==
            Escape(Generalize(m.returnType)) + " " + Escape(m.className) + "::" + Escape(NameText(m.name))
            + "\\(" + Escape(Join(GeneralizeAll(m.paramTypes), ",")) + "\\)"
  {
    var rt := Generalize(m.returnType);
    var params := Join(GeneralizeAll(m.paramTypes), ",");
    var raw := rt + " " + m.className + "::" + NameText(m.name) + "\\(" + params + "\\)";
    EscapeChainIsEscape(raw);
    EscapeAppend(rt + " " + m.className + "::" + NameText(m.name) + "\\(" + params, "\\)");
    EscapeAppend(rt + " " + m.className + "::" + NameText(m.name) + "\\(", params);
    EscapeAppend(rt + " " + m.className + "::" + NameText(m.name), "\\(");
    EscapeAppend(rt + " " + m.className + "::", NameText(m.name));
    EscapeAppend(rt + " " + m.className, "::");
    EscapeAppend(rt + " ", m.className);
    EscapeAppend(rt, " ");
    assert Escape("\\(") == "\\(";
    assert Escape("\\)") == "\\)";
    assert Escape("::") == "::";
    assert Escape(" ") == " ";
  }

  /** A generic-looking type becomes `\w+`, and the regular expression keeps it unescaped. */
  lemma GeneralizeEscaped(t: string)
    ensures IsGenerics(t) ==> Escape(Generalize(t)) == "\\w+"
    ensures !IsGenerics(t) ==> Generalize(t) == t
  {
    if IsGenerics(t) {
      assert Escape("\\w+") == "\\w+";
    }
  }

  /** The numbered lines of `get_lined_code`, the first numbered `first`. */
  function NumberLines(lines: seq<string>, first: nat): (r: seq<string>)
    ensures |r| == |lines|
    ensures forall k | 0 <= k < |lines| :: r[k] == RightAlign(NatToString(first + k), 4) + " " + lines[k]
    decreases |lines|
  {
    if lines == [] then []
    else [RightAlign(NatToString(first), 4) + " " + lines[0]] + NumberLines(lines[1..], first + 1)
  }

  /** `JMethod.get_lined_code`. */
  function LinedCode(m: JMethod): string {
    Join(NumberLines(Lines(m.code), m.loc.0.row + 1), "\n")
  }

  lemma NoNewlineInNumber(n: nat, w: nat, line: string)
    requires '\n' !in line
    ensures '\n' !in RightAlign(NatToString(n), w) + " " + line
  {
    var d := NatToString(n);
    NatToStringRoundTrip(n);
    var s := RightAlign(d, w);
    var pad := |s| - |d|;
    forall k | 0 <= k < |s| ensures s[k] != '\n' {
      if k >= pad {
        assert s[k] == s[pad..][k - pad];
        assert IsDigit(d[k - pad]);
      }
    }
  }

  lemma NotContainsChar(s: string, c: char)
    requires !Contains(s, [c])
    ensures c !in s
  {
    if c in s {
      var i :| 0 <= i < |s| && s[i] == c;
      FindCharAt(s, c, i);
    }
  }

  /** `get_lined_code` has exactly the lines of the code; line k is the code's line k behind
      its 1-based file line number right-aligned to width 4 and a blank. */
  lemma LinedCodeLines(m: JMethod)
    ensures |Lines(LinedCode(m))| == |Lines(m.code)|
    ensures forall k | 0 <= k < |Lines(m.code)| ::
      Lines(LinedCode(m))[k] == RightAlign(NatToString(m.loc.0.row + 1 + k), 4) + " " + Lines(m.code)[k]
  {
    var lines := Lines(m.code);
    var numbered := NumberLines(lines, m.loc.0.row + 1);
    SplitOnPiecesFree(m.code, "\n");
    NumberedLinesFree(lines, m.loc.0.row + 1);
    SplitOnJoin(numbered, '\n');
    assert Lines(LinedCode(m)) == numbered;
  }

  /** Numbering lines that hold no newline gives lines that hold none either. */
  lemma NumberedLinesFree(lines: seq<string>, first: nat)
    requires forall k | 0 <= k < |lines| :: !Contains(lines[k], "\n")
    ensures forall k | 0 <= k < |lines| :: '\n' !in NumberLines(lines, first)[k]
  {
    forall k | 0 <= k < |lines| ensures '\n' !in NumberLines(lines, first)[k] {
      NotContainsChar(lines[k], '\n');
      NoNewlineInNumber(first + k, 4, lines[k]);
    }
  }

  /** A failing test case. `testClassName` and `testMethodName` are derived from `name`. */
  datatype TestCase = TestCase(
    name: string,
    testMethod: Option<JMethod>,
    testOutput: Option<string>,
    stackTrace: Option<string>,
    testClassName: string,
    testMethodName: string)

  /** `TestCase(name, ...)` with `__post_init__`: the name must split on "::" into exactly two
      parts; one part is too few and three or more too many for the unpacking, which raises
      ValueError either way. */
  function NewTestCase(name: string, testMethod: Option<JMethod>, testOutput: Option<string>,
                       stackTrace: Option<string>): (r: Result<TestCase>)
    ensures r.Ok? <==> |SplitOn(name, "::")| == 2
    ensures r.Ok? ==>
      && r.value.name == name && r.value.testMethod == testMethod
      && r.value.testOutput == testOutput && r.value.stackTrace == stackTrace
    ensures r.Err? && !Contains(name, "::") ==>
      r.error == ValueError("not enough values to unpack (expected 2, got 1)")
    ensures r.Err? && Contains(name, "::") ==> r.error == ValueError("too many values to unpack (expected 2)")
  {
    var parts := SplitOn(name, "::");
    if |parts| == 2 then Ok(TestCase(name, testMethod, testOutput, stackTrace, parts[0], parts[1]))
    else if |parts| < 2 then Err(ValueError("not enough values to unpack (expected 2, got 1)"))
    else Err(ValueError("too many values to unpack (expected 2)"))
  }

  /** The two parts put back together around "::" give the name, neither contains "::", and the
      "::" between them is the first one in the name: `"a:::b"` gives `"a"` and `":b"`. */
  lemma TestCaseNameRoundTrip(name: string, tc: TestCase)
    requires NewTestCase(name, tc.testMethod, tc.testOutput, tc.stackTrace) == Ok(tc)
    ensures tc.testClassName + "::" + tc.testMethodName == name
    ensures !Contains(tc.testClassName, "::") && !Contains(tc.testMethodName, "::")
    ensures Find(name, "::", 0) == Some(|tc.testClassName|)
  {
    var parts := SplitOn(name, "::");
    JoinSplitOn(name, "::");
    SplitOnPiecesFree(name, "::");
    assert parts[1..] == [parts[1]];
    var j := Find(name, "::", 0).value;
    SplitOnStep(name, "::", j);
  }
}
