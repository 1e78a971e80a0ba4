# MethodLevelSBFL in Dafny

A model of the core of MethodLevelSBFL. The repository lifts line-level spectrum-based fault
localisation (SBFL) rankings of Java programs to the level of methods, and measures how well the
lifted rankings localise known bugs. The model covers four parts.

- **The Java method resolver** (`java_method_extractor.dfy`):
  - a depth-first walk over a parsed Java file that gives each class body its binary name
    (`Outer$Inner`, and `Outer$1` for anonymous classes) and emits one record per method or
    constructor;
  - the selection of the methods that a diff's hunks touch.
- **The SBFL ranking-file parsers** (`sbfl.dfy`):
  - `parse_sbfl`, which builds a map from class to (line, score) pairs;
  - `parse_sbfl_version_2`, which builds score tiers of method clusters;
  - `get_all_sbfl_res`.
- **The localisation evaluator** (`evaluate.dfy`):
  - rank lists of a single-function or multi-function bug;
  - Top-1/3/5/10 counters, MFR and MAR per project, and the removal of empty projects;
  - the verbose-result analysis.
- **The indexing helpers**:
  - method signatures and signature regular expressions (`my_types.dfy`);
  - the class/method splitter over a syntax tree (`splitter.dfy`);
  - node building and node metadata (`my_utils.dfy`);
  - node-hierarchy filters and document parsing (`node_parser.dfy`);
  - the summary-length step function (`code_extractors.dfy`);
  - content and metadata rendering of a code node (`code_node.dfy`).

Shared modules:

- `wrappers.dfy` holds `Option` and `Result`. A Python exception is an `Err` carrying the
  exception's class (`AttributeError`, `KeyError`, `IndexError`, `AssertionError`, `ValueError`,
  `OSError`).
- `strings.dfy` holds the Python string operations the code uses (`split`, `join`, slicing,
  `in`, decimal rendering, `os.path.join`).
- `dicts.dfy` holds insertion-ordered dictionaries as lists of entries.
- `syntax_tree.dfy` holds the tree-sitter tree as an arena of nodes. Each node has its kind,
  text, start and end points, parent, ordered children, previous sibling and field name.

Where the source updates state step by step, the model does too:

- `MethodWalk` is a class whose `Dfs` updates the method list and the name and counter maps in
  place.
- `CodeNode` is a class whose text and metadata are updated in place.
- The loops of the parsers, the evaluator and the node filters are `while`/`for` loops.

Each such method is proved equal to a function of its inputs. The lemmas state what the source
promises about that function.

Where the code and the behaviour one would expect from its documentation disagree, the model
follows the code:

- A project is dropped from the Top-N table exactly when its `total` is 0.
- `evaluate_all_mf` takes the first rank of the first non-empty per-function list, not the least
  rank.
- `get_content` in mode ALL returns nothing for a node that has metadata (see Findings).
- `get_source_with_comment` raises AttributeError for a node without a previous sibling.
- In `parse_sbfl_version_2`, a `"0.0"` row always appends one empty final tier, because
  `last_score` can never be `"0.0"` when that row arrives. IndexError arises only when the first
  data row matches with an empty score.
- `get_buggy_methods` stops at the first changed point inside a method, so each method is listed
  at most once.
- `get_java_methods` emits the methods of anonymous classes declared inside a method, after that
  method. Its docstring (functions/MethodExtractor/java_method_extractor.py:41-43) says only the
  outer method is kept. JavaMethodsPreOrder states the order.
- `get_nodes_from_documents` removes `ast` and `source` only from the nodes it collects.
- `analyze_verbose_result` writes to a path built from a name that is not defined in the
  function. The model returns the analysis.

## Model

| member | source | states |
|---|---|---|
| CodeNodes.Content | preprocess/code_node.py:53-67 | NONE and LLM give the text. EMBED gives the shown `summary` value, or fails exactly when there is no `summary` key, with ValueError "This CodeNode does not have a summary yet.". ALL never raises, and whatever it returns is the text |
| CodeNodes.ContentAll | preprocess/code_node.py:65-67 | In mode ALL, as written, the result is the text exactly when the node has no metadata, and `None` whenever it has some. |
| CodeNodes.ContentIntended | preprocess/code_node.py:53-67 | Outside mode ALL the corrected `get_content` agrees with the code as written. Only the ALL rendering changes. |
| CodeNodes.ContentIntendedAll | preprocess/code_node.py:9-10 | The corrected rendering always yields a string in mode ALL. With metadata, that string starts with the non-empty stripped metadata string. |
| CodeNodes.MetadataStr | preprocess/code_node.py:81-102 | Empty for NONE. Otherwise the `"key: value"` entries whose key is in the key set less the mode's excluded keys, in metadata order, joined with the separator. |
| CodeNodes.KeptWithout | preprocess/code_node.py:86-100 | Filtering the entries by the set of usable keys is the same as deleting the excluded keys from the ordered dict. |
| CodeNodes.MetadataNotBlank | preprocess/code_node.py:96-102 | A node with metadata has an ALL metadata string that does not strip to nothing. |
| CodeNodes.StripEmpty | preprocess/code_node.py:65-66 | A string strips to `""` exactly when every character is white space: the `not metadata_str` test. |
| CodeNodes.CodeNode.constructor | preprocess/code_node.py:12-37 | A new node has the given id, text, excluded keys and separator; no metadata, no character span and no relationships. |
| CodeNodes.CodeNode.GetText | preprocess/code_node.py:78-79 | `get_text` is `get_content(NONE)`, which is always present. |
| CodeNodes.CodeNode.GetNodeInfo | preprocess/code_node.py:74-76 | The dict has keys `start` and `end`, in that order, with the node's start and end character indices. |
| CodeNodes.CodeNode.SetContent | preprocess/code_node.py:70-72 | After `set_content(v)`, `get_text()` is `v`. Every other field is unchanged, and so is `get_node_info()`. |
| CodeExtractors.LineCount | preprocess/code_extractors.py:72 | The line count is the number of pieces of `split("\n")`, at least 1. |
| CodeExtractors.DynamicSummaryLength | preprocess/code_extractors.py:70-77 | The loop's answer is `SummaryLengthFor` of the line count. |
| CodeExtractors.SummaryLengthSmallest | preprocess/code_extractors.py:73-75 | Up to 50 lines, the answer is 5·i for the least i among 10, 20, 30, 40, 50 with n ≤ i. |
| CodeExtractors.SummaryLengthRange | preprocess/code_extractors.py:70-77 | The answer is always one of 50, 100, 150, 200, 250, 300. |
| CodeExtractors.SummaryLengthMonotone | preprocess/code_extractors.py:70-77 | More lines never give a shorter summary. |
| Splitter.SourceWithComment | preprocess/splitter.py:83-87 | The text starts at the previous sibling's row when that sibling is a comment, otherwise at the node's own row, and ends at the node's end row. AttributeError exactly when there is no previous sibling. |
| Splitter.SourceWithCommentLines | preprocess/splitter.py:83-87 | When the rows lie inside the source, splitting the text at newlines gives back exactly the source lines of that row range. |
| Splitter.Candidates | preprocess/splitter.py:99-102 | The children of a `program` node, or else the children of the `body` field. AttributeError when there is no body. Every candidate lies below the node. |
| Splitter.SplitsOfOk | preprocess/splitter.py:104-112 | On success, the splits are exactly the selected candidates, in candidate order, each with its source text. Selected: class declarations (not interfaces or enums), and methods or constructors whose body has a named child. |
| Splitter.SplitsOfErr | preprocess/splitter.py:104-112 | The splits fail exactly when some selected candidate has no previous sibling. |
| Splitter.SplitNode | preprocess/splitter.py:89-117 | The loop's result is the split of the node: KeyError for a missing `ast` or `source`, then the candidates' splits. |
| Splitter.ParseNode | preprocess/splitter.py:32-44 | One new, distinct code node per split, in split order, each built from its split as `build_nodes_from_splits` does. No splits give no nodes. It fails exactly when splitting the node fails, with that exception, or when there are splits and the node has no `file_path`, with KeyError |
| MyUtils.AstNodeType | preprocess/my_utils.py:30-37 | `class_node` exactly for a class declaration, `method_node` exactly for a method or constructor declaration, `others` exactly otherwise. |
| MyUtils.SplitMetadataPuts | preprocess/my_utils.py:64-80 | The two `metadata.update` calls on an empty dict give the built node's metadata. |
| MyUtils.SplitMetadataKeys | preprocess/my_utils.py:64-80 | Metadata keys are `ast`, `node_type`, `source`, `file_path`, plus `start_line` and `end_line` exactly for method nodes. |
| MyUtils.SplitMetadataValues | preprocess/my_utils.py:64-80 | The metadata holds the split's AST node, the node type that agrees with it, the document's `source` and `file_path`, and, for a method node, start row and end row + 1. |
| MyUtils.NewSplitNode | preprocess/my_utils.py:54-82 | The new node has the text's id and the text, the document's excluded keys and separator, and the split's metadata. |
| MyUtils.BuildNodesFromSplits | preprocess/my_utils.py:39-84 | One new, distinct node per split, in split order. KeyError exactly when there is a split and the document lacks `source` or `file_path`. |
| NodeParser.AddParentChild | preprocess/node_parser.py:20-26 | The child's id is appended to the parent's CHILD list, which is created when absent. The child's PARENT becomes the parent's id. |
| NodeParser.LeavesMember | preprocess/node_parser.py:29-35 | A node is a leaf exactly when it is one of the nodes and has no CHILD relationship. |
| NodeParser.RootsMember | preprocess/node_parser.py:38-44 | A node is a root exactly when it is one of the nodes and has no PARENT relationship. |
| NodeParser.GetLeafNodes | preprocess/node_parser.py:29-35 | The loop gives the leaves in order. |
| NodeParser.GetRootNodes | preprocess/node_parser.py:38-44 | The loop gives the roots in order. |
| NodeParser.ChildIdsMember | preprocess/node_parser.py:49-56 | An id is collected exactly when some node's CHILD relationship lists it. |
| NodeParser.ChildNodesMember | preprocess/node_parser.py:47-64 | A node is returned exactly when it is one of `all_nodes` and some given node lists its id as a child. |
| NodeParser.GetChildNodes | preprocess/node_parser.py:47-64 | The two loops give the subsequence of `all_nodes` whose ids the given nodes list as children. |
| NodeParser.DeeperStep | preprocess/node_parser.py:75-77 | Level d+1 is `get_child_nodes` of level d among all the nodes. |
| NodeParser.DescendFromRoots | preprocess/node_parser.py:75-79 | The loop gives the roots, then `depth` applications of `get_child_nodes`. |
| NodeParser.GetDeeperNodes | preprocess/node_parser.py:67-79 | ValueError for a negative depth or when no node is a root. Otherwise the level `depth` below the roots. |
| NodeParser.SubNodesOf | preprocess/node_parser.py:168-179 | A method node gives nothing. A missing `node_type` raises KeyError. Any other node gives new nodes, each split from a syntax-tree node strictly below it. |
| NodeParser.RecursivelyGetNodes | preprocess/node_parser.py:160-186 | Empty when every node is a method node. Every returned node is new and lies below the given ones in the tree, which bounds the recursion. |
| NodeParser.SkipDocument | preprocess/node_parser.py:212-215 | Unless `all_methods` is set, a document is skipped exactly when its file name cut at the first `.` is not among `classes`. KeyError without `file_name`. |
| NodeParser.PreparedFacts | preprocess/node_parser.py:219-221 | After the update, the document's AST is the root and its source is its text's lines, so it can be split. |
| NodeParser.SplitDocument | preprocess/node_parser.py:218-224 | The document's metadata gets the root, the lines and the node type `document_node`, and the document is split recursively. |
| NodeParser.ProcessDocument | preprocess/node_parser.py:211-224 | A skipped document gives nothing and is left unchanged. A kept one is prepared and split. |
| NodeParser.CollectNodes | preprocess/node_parser.py:206-224 | Skipped documents stay unchanged and kept ones are prepared. When every document is skipped, nothing is returned. |
| NodeParser.PopKeys | preprocess/node_parser.py:228-230 | Popping keys deletes exactly those keys from the ordered metadata and changes nothing else. |
| NodeParser.RemoveAstAndSource | preprocess/node_parser.py:226-237 | Every collected node loses `ast` and `source` and keeps its other entries, its id, its text and its relationships. |
| NodeParser.GetNodesFromDocuments | preprocess/node_parser.py:188-241 | No returned node has `ast` or `source` in its metadata. The class-name filter decides which documents are prepared and which stay unchanged. |
| MyTypes.SignatureRoundTrip | functions/my_types.py:17-18 | Reading back `"{return} {class}::{name}({params})"` gives the parts and parameter list, when the parts do not contain the punctuation. |
| MyTypes.GeneralizeAll | functions/my_types.py:33 | Each parameter type is replaced by `\w+` exactly when it is one ASCII upper-case letter or `Object`, position by position |
| MyTypes.EscapeChainIsEscape | functions/my_types.py:35-38 | The four chained `replace` calls put one backslash before every `$`, `.`, `[`, `]`, character by character, and never re-escape an inserted backslash. |
| MyTypes.EscapeChainChar | functions/my_types.py:35-38 | On one character, the four chained `replace` calls escape it exactly when it is `$`, `.`, `[` or `]`. |
| MyTypes.GenericsReShape | functions/my_types.py:20-39 | The regular expression is the escaped return type, class, name and parameter types, around an intact `\(` and `\)`. |
| MyTypes.GeneralizeEscaped | functions/my_types.py:23-34 | A generic-looking type becomes `\w+` and stays unescaped in the expression. Any other type is kept as it is. |
| MyTypes.NumberLines | functions/my_types.py:42 | One output line per code line. Line k is `first+k` right-aligned to width 4, a blank, then the code line. |
| MyTypes.LinedCodeLines | functions/my_types.py:41-42 | `get_lined_code` has exactly as many lines as the code. Line k is numbered `loc[0][0]+1+k`, right-aligned to width 4. |
| MyTypes.NumberedLinesFree | functions/my_types.py:41-42 | Numbering lines that hold no newline gives lines that hold none. |
| MyTypes.NewTestCase | functions/my_types.py:55-56 | Construction succeeds exactly when the name splits on `::` into two parts, and keeps the given fields. Otherwise ValueError: "not enough values to unpack" without `::`, "too many values to unpack" with two or more |
| MyTypes.TestCaseNameRoundTrip | functions/my_types.py:55-56 | The two parts joined by `::` give the name back, neither part contains `::`, and the class name ends at the first `::` of the name, so `"a:::b"` gives `"a"` and `":b"` |
| JavaMethodExtractor.FirstNonModifier | functions/MethodExtractor/java_method_extractor.py:55-59 | The child found is not a `modifiers` node. No child is found only when every child is one. |
| JavaMethodExtractor.CutTypeArguments | functions/MethodExtractor/java_method_extractor.py:75-76 | The result has no `<` and is a prefix of the argument: the whole argument when it has no `<`, otherwise the text up to its first `<` |
| JavaMethodExtractor.ParamTypeRules | functions/MethodExtractor/java_method_extractor.py:53-77 | A spread parameter gives its first non-`modifiers` child's text plus `[]`, uncut, or nothing when every child is `modifiers`. Another parameter gives nothing without a type field. With one, the base text is the type's own, or the last named child's for a scoped type (IndexError when it has none); `[]` is appended exactly when there are dimensions; the result is that text up to its first `<` |
| JavaMethodExtractor.ParamTypesOfStep | functions/MethodExtractor/java_method_extractor.py:53-78 | Each parameter in turn appends its type, appends nothing, or ends the list with its exception. |
| JavaMethodExtractor.MethodWalk.GetParamTypes | functions/MethodExtractor/java_method_extractor.py:50-78 | The loop over the named parameters gives `ParamTypes`, with AttributeError when there is no parameter list. |
| JavaMethodExtractor.ReturnType | functions/MethodExtractor/java_method_extractor.py:80-88 | `""` without a type field (a constructor). A generic type gives its first named child's text, a scoped type its last named child's text, each an IndexError when there is no named child. Any other type gives its own text |
| JavaMethodExtractor.MethodName | functions/MethodExtractor/java_method_extractor.py:90-93 | `None` exactly when no child is an identifier. |
| JavaMethodExtractor.NearestBody | functions/MethodExtractor/java_method_extractor.py:95-100 | The body found is a class body at or above the start node. |
| JavaMethodExtractor.FindNearestBody | functions/MethodExtractor/java_method_extractor.py:129-137 | The parent-climbing while-loop finds the nearest class body, or `None`. |
| JavaMethodExtractor.ClassNameOf | functions/MethodExtractor/java_method_extractor.py:95-101 | Succeeds exactly when there is a nearest class body and it has a cached name. The result is that name. |
| JavaMethodExtractor.MethodWalk.ClassNameForMethod | functions/MethodExtractor/java_method_extractor.py:95-101 | The method gives `ClassNameOf` of the current name cache. |
| JavaMethodExtractor.MethodObjectFields | functions/MethodExtractor/java_method_extractor.py:103-127 | A record has the nearest body's cached name (`only_class` when set), the rows start..end joined by `\n` as code, the loc, name, parameter and return types. Text and comment come from a preceding comment sibling, else the code and `""`. |
| JavaMethodExtractor.MethodWalk.GetMethodObject | functions/MethodExtractor/java_method_extractor.py:103-127 | The method gives `MethodObject` of the current state. |
| JavaMethodExtractor.DeclaredClassName | functions/MethodExtractor/java_method_extractor.py:144-157 | A declared body's name is the `$`-join of the identifiers of all enclosing declarations, outermost first. AssertionError when there are none. |
| JavaMethodExtractor.DeclSegmentsPrefix | functions/MethodExtractor/java_method_extractor.py:147-155 | The segments of an enclosing node are a prefix of the segments of any node below it, so `Outer$Inner` extends `Outer`. |
| JavaMethodExtractor.PrependIdentifiers | functions/MethodExtractor/java_method_extractor.py:152-154 | The loop that inserts each declaration's identifier at the front of `classes` gives the identifiers in reverse walk order, followed by the old list. |
| JavaMethodExtractor.NonDeclarationAddsNothing | functions/MethodExtractor/java_method_extractor.py:151-155 | A node that is not a declaration, such as an anonymous class, adds no name segment. |
| JavaMethodExtractor.BodyNameRules | functions/MethodExtractor/java_method_extractor.py:144-163 | A declared body gets the `$`-joined declaration names, and the counters are unchanged. An anonymous body inside a body named C gets `C$k`, where k is C's counter plus one, and only C's counter changes, to k. |
| JavaMethodExtractor.VisitNumbers | functions/MethodExtractor/java_method_extractor.py:158-182 | Walking on from a node below class body `a` named C numbers the anonymous class bodies directly inside `a` on from C's counter, in the order the walk enters them, and adds their number to the counter. This assumes no body the walk names on the way is also called C. |
| JavaMethodExtractor.AnonymousNumbering | functions/MethodExtractor/java_method_extractor.py:158-182 | After `dfs` enters class body `a` named C and walks it, the i-th anonymous class body directly inside `a` is named `C$i`, counting from 1, and C's counter equals how many there are. This assumes no body named below `a` is also called C. |
| JavaMethodExtractor.MethodWalk.ClassNameForBody | functions/MethodExtractor/java_method_extractor.py:144-163 | The method gives `BodyName`'s name and counters, and leaves the method list and name cache alone. |
| JavaMethodExtractor.Enter | functions/MethodExtractor/java_method_extractor.py:169-184 | A method child appends exactly the record `get_method_object` builds for it, nothing when that is filtered out, and fails with that record's exception; it touches no map. A class-body child is cached under the name `get_class_name_for_class_body` gives it, with that name's counter set to 0, or fails with its exception; it appends nothing. Any other child changes nothing |
| JavaMethodExtractor.MethodWalk.Dfs | functions/MethodExtractor/java_method_extractor.py:165-184 | The recursive walk updates the object's methods, name cache and counters to the state `VisitFrom` computes, or returns the first exception. |
| JavaMethodExtractor.VisitAppends | functions/MethodExtractor/java_method_extractor.py:165-184 | The walk only appends: earlier records stay in front, in order |
| JavaMethodExtractor.VisitKeepsName | functions/MethodExtractor/java_method_extractor.py:165-184 | The walk leaves the cached name of every node it does not enter as it was, present or absent. |
| JavaMethodExtractor.VisitedPreOrder | functions/MethodExtractor/java_method_extractor.py:165-184 | `dfs` enters each node once, and every node before the nodes below it: a pre-order. |
| JavaMethodExtractor.DeclarationsPreOrdered | functions/MethodExtractor/java_method_extractor.py:169-174 | The method and constructor declarations among the entered nodes keep that pre-order. |
| JavaMethodExtractor.VisitEmits | functions/MethodExtractor/java_method_extractor.py:165-184 | The walk appends, in the order it enters them, the records of the declarations it enters that are not filtered out. Each record is built with the class names cached at the end of the walk, and none of these declarations raises. |
| JavaMethodExtractor.JavaMethodsPreOrder | functions/MethodExtractor/java_method_extractor.py:165-192 | Without `only_class`, `get_java_methods` returns one record per method or constructor declaration the walk enters, in pre-order: each declaration once, an enclosing method before the methods of the anonymous classes inside it. The i-th record is `get_method_object` of the i-th declaration and carries its location. |
| JavaMethodExtractor.VisitOnlyClass | functions/MethodExtractor/java_method_extractor.py:104-107 | With `only_class` set, every record the walk adds has that class name. |
| JavaMethodExtractor.OnlyClassFilters | functions/MethodExtractor/java_method_extractor.py:37-192 | With `only_class` set, every method `get_java_methods` returns belongs to that class. |
| JavaMethodExtractor.MethodObjectNoKey | functions/MethodExtractor/java_method_extractor.py:95-127 | Building a method record raises KeyError only when the class-name lookup does. |
| JavaMethodExtractor.EnterNoKey | functions/MethodExtractor/java_method_extractor.py:169-182 | Entering a child whose enclosing class bodies are all named raises no KeyError. It leaves the child's enclosing bodies named and every name counted. |
| JavaMethodExtractor.VisitNoKey | functions/MethodExtractor/java_method_extractor.py:165-184 | While the bodies above a node are named, the walk below it raises no KeyError and keeps every cached name. |
| JavaMethodExtractor.JavaMethodsNoKey | functions/MethodExtractor/java_method_extractor.py:186-192 | `get_java_methods` never raises KeyError. A class body is always named in the pre-order walk before any method or nested class inside it asks for its name. |
| JavaMethodExtractor.MethodWalk.constructor | functions/MethodExtractor/java_method_extractor.py:186-189 | A new walk object holds the tree, the code's lines and `only_class`, with no methods, no cached names and no counters. |
| JavaMethodExtractor.GetJavaMethods | functions/MethodExtractor/java_method_extractor.py:186-192 | A fresh walk object's `dfs` from the root gives `JavaMethods`. |
| JavaMethodExtractor.ChangedPointsExact | functions/MethodExtractor/java_method_extractor.py:206-209 | The changed points are exactly the first and last source lines of the hunks. |
| JavaMethodExtractor.InsertionHunkPoints | functions/MethodExtractor/java_method_extractor.py:208-209 | A zero-length hunk contributes `source_start` and `source_start - 1`. |
| JavaMethodExtractor.CollectChangedPoints | functions/MethodExtractor/java_method_extractor.py:206-209 | The loop collects the changed points of all hunks. |
| JavaMethodExtractor.TouchedMethodsExact | functions/MethodExtractor/java_method_extractor.py:210-218 | A method is selected exactly when its 1-based span contains a changed point. |
| JavaMethodExtractor.SpanHasPoint | functions/MethodExtractor/java_method_extractor.py:215-218 | The inner loop answers true exactly when some changed point lies in `[start_row+1, end_row+1]`, whatever order it walks the set in. |
| JavaMethodExtractor.SelectTouched | functions/MethodExtractor/java_method_extractor.py:210-218 | The outer loop keeps each touched method once, in order. |
| JavaMethodExtractor.GetBuggyMethods | functions/MethodExtractor/java_method_extractor.py:194-219 | AssertionError when the buggy file has no methods or there are no hunks. Otherwise the touched methods. |
| Sbfl.SplitFieldsCount | functions/sbfl.py:26 | `re.split("[#:;]", row)` gives one more field than the row has separators. |
| Sbfl.SbflRow | functions/sbfl.py:26-35 | A row whose score is `"0.0"` yields no entry. Every entry read has another score. |
| Sbfl.SbflEntriesRows | functions/sbfl.py:23-36 | The entries are the parses of the rows from the second line on, in file order. The row after the last one read is empty, past the end, or scored `"0.0"`. |
| Sbfl.AddEntriesPairs | functions/sbfl.py:32-35 | Adding entries extends each key's list by that key's (line, score) pairs, in order, and adds exactly the keys the entries carry. |
| Sbfl.ParseSbflGroups | functions/sbfl.py:21-37 | The map holds exactly the classes of the rows read, each with its pairs in file order. |
| Sbfl.AddSbflRow | functions/sbfl.py:26-35 | One loop turn raises the row's error, stops at `"0.0"`, or appends the row's pair under its class. |
| Sbfl.ParseSbflRows | functions/sbfl.py:23-36 | The while-loop gives `SbflOfRows` of the file's rows. |
| Sbfl.ParseSbfl | functions/sbfl.py:8-37 | `parse_sbfl` of a file's contents is `ParseSbflSpec`. |
| Sbfl.GetAllSbflRes | functions/sbfl.py:90-106 | On success, one parse per formula, in formula order, each of that formula's ranking file. A failure means some file is missing or fails to parse. |
| Sbfl.FindCharFirst | functions/sbfl.py:68 | A lazy `(.*?)` followed by a character stops at that character's first occurrence. |
| Sbfl.FindTailFirst | functions/sbfl.py:68 | The lazy argument group ends at the first `):<digits>;`. |
| Sbfl.MatchFormatted | functions/sbfl.py:68-70 | Matching a row written from parts that hold no separators gives back package, class, method, arguments, line and score. |
| Sbfl.RunsFlatten | functions/sbfl.py:73-85 | Putting the runs of equal keys back together gives the rows. This is the "concatenating the clusters reproduces the rows" property. |
| Sbfl.RunsMaximal | functions/sbfl.py:73-83 | Inside a run every row has the run's key. Neighbouring runs differ where they meet, so tiers and clusters are maximal. |
| Sbfl.TieredStops | functions/sbfl.py:73-76 | At an empty row the tiers are those of the rows read. At a `"0.0"` row one empty tier follows. |
| Sbfl.TieredNoMatch | functions/sbfl.py:68-72 | A row that does not match raises ValueError naming the row. |
| Sbfl.TieredUnscored | functions/sbfl.py:73-79 | A first row with an empty score opens no tier, and `res[-1]` raises IndexError. |
| Sbfl.SingleRow | functions/sbfl.py:78-79 | A single row is one cluster in one tier. |
| Sbfl.ClustersStep | functions/sbfl.py:80-83 | A row starts a new cluster exactly when its class or method differs from the last row's. Otherwise its line joins the last cluster. Package and arguments are not compared. |
| Sbfl.ClustersSameMethod | functions/sbfl.py:82-83 | A row with the last row's class and method adds its line to the last cluster. |
| Sbfl.ClustersNewMethod | functions/sbfl.py:80-81 | A row with another class or method appends a new cluster holding only that row. |
| Sbfl.TiersNewScore | functions/sbfl.py:73-74 | A row whose score differs from the previous one opens a new tier holding its cluster. |
| Sbfl.TiersSameScore | functions/sbfl.py:73-83 | A row with the previous score joins the last tier by the clustering step. |
| Sbfl.PlaceRowCases | functions/sbfl.py:78-83 | Each of the three ways the loop places a row gives the tiers of the rows with this one added. |
| Sbfl.PlaceFirst | functions/sbfl.py:73-79 | The first scored row is placed into the one opened tier as the first cluster. |
| Sbfl.PlaceNewScore | functions/sbfl.py:73-79 | A row with a new score is placed into a newly opened tier, after the tiers of the earlier rows. |
| Sbfl.PlaceSameScore | functions/sbfl.py:80-83 | A row with the previous score is placed into the last tier. |
| Sbfl.PlaceRow | functions/sbfl.py:78-83 | One placement step, with its result tied to `ScoreTiers` of the consumed rows. |
| Sbfl.AddTieredRow | functions/sbfl.py:73-83 | Opening a tier for a new score and placing the row. IndexError when there is no tier at all. |
| Sbfl.ParseTieredRows | functions/sbfl.py:64-86 | The while-loop gives `TieredOfRows` of the file's rows. |
| Sbfl.ParseTiered | functions/sbfl.py:40-87 | `parse_sbfl_version_2` of a file's contents is `ParseTieredSpec`. |
| Evaluate.ClassOfJavaPath | Evaluation/evaluate.py:36 | A path ending in `/<name>.<ext>` gives the class `name`. |
| Evaluate.TierRanksCount | Evaluation/evaluate.py:41-49 | Each matching cluster of a tier contributes its rank once. |
| Evaluate.RanksShape | Evaluation/evaluate.py:40-49 | The match list is non-decreasing, with values in 1..len(tiers). |
| Evaluate.RanksCount | Evaluation/evaluate.py:40-49 | Rank r occurs once per matching cluster of tier r, and nothing else occurs. One tier can repeat its rank. |
| Evaluate.RanksMember | Evaluation/evaluate.py:40-49 | A rank occurs exactly when its tier has a matching cluster. |
| Evaluate.ClusterHits | Evaluation/evaluate.py:42-49 | The inner loop answers whether some line of the cluster satisfies the match condition. |
| Evaluate.RankMatches | Evaluation/evaluate.py:40-49 | The nested loops give `Ranks`. |
| Evaluate.EvaluateSingle | Evaluation/evaluate.py:33-49 | `evaluate_sf`'s matches are the ranks for the target: class name from the file name, method name, line range. |
| Evaluate.EvaluateMulti | Evaluation/evaluate.py:58-76 | One match list per buggy function, in order, matching on class and line range only. |
| Evaluate.AddBug | Evaluation/evaluate.py:118-128 | `total` goes up by one. A first rank r adds one to top_1 when r = 1, and to top_N when r ≤ N. Ordered counters stay ordered. |
| Evaluate.AllZeroTotal | Evaluation/evaluate.py:159-167 | Ordered counters are all zero exactly when `total` is zero. |
| Evaluate.IsAllZero | Evaluation/evaluate.py:161-165 | The counter loop answers whether all five counters are zero. |
| Evaluate.CollectZeroNames | Evaluation/evaluate.py:159-167 | The loop collects the names of the all-zero projects. |
| Evaluate.ZeroNamesMember | Evaluation/evaluate.py:159-167 | A name is collected exactly when an entry with that name has all counters zero. |
| Evaluate.DeleteNames | Evaluation/evaluate.py:169-172 | The deletion loop removes exactly the collected names. |
| Evaluate.AnyPlausible | Evaluation/evaluate.py:139-144 | The for/else loop answers whether some patch is `PLAUSIBLE`. |
| Evaluate.SfProject | Evaluation/evaluate.py:102-157 | The per-project loop gives `SfTallyOf` over all its bug ids. |
| Evaluate.EvaluateAllSingle | Evaluation/evaluate.py:85-172 | `evaluate_all_sf` gives `SfReportOf`. |
| Evaluate.SfOrdered | Evaluation/evaluate.py:118-128 | top_1 ≤ top_3 ≤ top_5 ≤ top_10 ≤ total. |
| Evaluate.SfSizes | Evaluation/evaluate.py:102-130 | `total` counts the bugs that are neither deprecated nor missing a result file. MFR and MAR take one value per such bug with a non-empty match list. |
| Evaluate.SfTopCounts | Evaluation/evaluate.py:120-129 | top_1 counts the first ranks equal to 1, and top_N those ≤ N, over the first ranks MFR averages. |
| Evaluate.SfMeansNone | Evaluation/evaluate.py:149-157 | MFR and MAR are `None` exactly when no counted bug has a match. |
| Evaluate.SfRawShape | Evaluation/evaluate.py:93-157 | Before the clean-up there is one entry per project, in order, with the same keys in the Top-N, MFR and MAR dicts. |
| Evaluate.CleanupKeeps | Evaluation/evaluate.py:159-172 | The clean-up keeps exactly the entries with non-zero total. |
| Evaluate.SfKept | Evaluation/evaluate.py:159-172 | After the clean-up, Top-N holds exactly the projects with non-zero total, and MFR and MAR hold the same keys. |
| Evaluate.FirstRanksHead | Evaluation/evaluate.py:234-235 | First ranks exist exactly when some function has a match. The first one is the head of the first non-empty list. |
| Evaluate.MfProject | Evaluation/evaluate.py:214-246 | The per-project loop gives `MfTallyOf` over all its bug ids. |
| Evaluate.EvaluateAllMulti | Evaluation/evaluate.py:201-259 | `evaluate_all_mf` gives `MfReportOf`. |
| Evaluate.MfCounts | Evaluation/evaluate.py:214-246 | Counters are ordered, and `total` counts the bugs that are not deprecated and have a result file. |
| Evaluate.MfRawShape | Evaluation/evaluate.py:207-246 | Before the clean-up there is one Top-N entry per project, in order. |
| Evaluate.MfKept | Evaluation/evaluate.py:248-259 | After the clean-up, Top-N holds exactly the projects with non-zero total. |
| Evaluate.AnalyzeProject | Evaluation/evaluate.py:283-297 | The per-project loop extends the analysis by that project's labelled entries. |
| Evaluate.AnalyzeVerbose | Evaluation/evaluate.py:278-297 | `analyze_verbose_result` gives `Analyze` of the labelled entries. |
| Evaluate.AnalyzeOk | Evaluation/evaluate.py:284-285 | The analysis succeeds exactly when every entry has a non-empty match list and a status. |
| Evaluate.AnalyzeCounts | Evaluation/evaluate.py:286-297 | `no_patch` lists the labels of the NONE entries, in order. Each of the four SUCCESS/FAILURE buckets lists, in order, the labels of the entries with its status and a first rank on its side of the tolerance. Other statuses go nowhere |

## Left out

- Parsing is not modelled. The tree-sitter parser is foreign, so a syntax tree is an input: an arena of nodes.
- `byte_range` keys are replaced by node indices. Distinct class bodies have distinct byte ranges.
- The diff is not computed. `difflib.unified_diff` and `unidiff.PatchSet` are foreign, so the zero-context hunks are an input. An empty hunk list stands for an empty diff.
- The buggy and fixed files are not split into lines, since only the hunks are used.
- SHA-256 is a function parameter.
- The llama_index and pydantic base classes are not modelled: callback events, progress bars, embeddings, `hash`, `class_name`, `node_info` and the custom text and metadata templates. The default templates are fixed.
- A syntax-tree node in metadata renders as a fixed placeholder, and a list of lines as its Python `repr` without escaping.
- Relationships are held as node ids.
- The relationship pops inside the clean-up loop of `get_nodes_from_documents` are not modelled. Nodes built by the splitter carry no relationships, so those loops do nothing.
- Splitter.ParseNode: models `_parse_nodes` on one node, which is how `get_nodes_from_documents([node])` calls it. Several nodes at once are not modelled.
- NodeParser.RecursivelyGetNodes: does not state that the result is the first-level splits followed by the deeper levels. It states emptiness, freshness and the depth bound.
- NodeParser.GetNodesFromDocuments: does not state that the result is the concatenation of each kept document's nodes. It states the filter, the preparation and the removal of `ast` and `source`.
- The two example Java files are not built as trees. The naming and emission rules are stated for all trees instead.
- MyTypes.GeneralizeAll: a one-letter type counts as a type variable only when it is an ASCII upper-case letter. Python's `str.isupper` also accepts non-ASCII upper-case letters such as `É`, which the model escapes literally instead.
- JavaMethodExtractor.AnonymousNumbering: assumes the tree lists no child twice, and that no class body named inside C is itself called C. Such a clash needs a declaration without an identifier or an identifier containing `$`.
- JavaMethodExtractor.VisitNumbers: carries the same two assumptions as AnonymousNumbering.
- JavaMethodExtractor.JavaMethodsPreOrder: covers the declarations the walk reaches through children lists. The tree model does not require a node's parent to list it as a child, so this is not stated as every declaration in the tree. It also assumes no child is listed twice.
- File reads and writes are not modelled. JSON files become map parameters from path to contents, and results are returned instead of written.
- `os.path.exists` is membership in such a map.
- `print` warnings are not modelled.
- Scores stay strings. `float(score)` is not modelled, and MFR and MAR are exact `real` means, not floating point.
- `int()` and the `\d` of the ranking-line pattern are modelled on ASCII digits only: no sign, white space, underscores or non-ASCII digits.
- File contents are taken as text-mode `open` returns them, after `\r\n` has become `\n`. `Lines` splits on `\n` only.
- `OrderedDict`s and dicts are lists of entries in insertion order.
- `get_all_sbfl_res` takes the root, project and bug id directly instead of a path manager.
- `analyze_verbose_result` takes the verbose report already read. Its output path is not modelled.
- The printed totals at the end of `evaluate_all_sf` and `evaluate_all_mf` are not modelled.

## Findings

| source | as written | input that shows it | evidently intended | confidence | as-written member | corrected member |
|---|---|---|---|---|---|---|
| preprocess/code_node.py:65-67 | In mode ALL, `get_content` returns the text only when the metadata string strips to nothing. Otherwise it falls off the end and returns `None`. | A node with text `"int f()"` and metadata `{"file_path": "A.java"}`, rendered in mode ALL, gives `None`. | Render the default text template `"{metadata_str}\n\n{content}"` (line 9): the stripped metadata string, a blank line and the text. | not executed | CodeNodes.ContentAll | CodeNodes.ContentIntendedAll |
