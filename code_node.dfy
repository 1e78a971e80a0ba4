/** The code node: a piece of source text with its metadata, rendered for an LLM prompt or an
    embedding according to a metadata mode. The node is an object whose text is replaced in
    place; what it renders is a function of its fields. */
module CodeNodes {
  import opened Wrappers
  import opened Strings
  import opened Dicts

  /** llama_index's `MetadataMode`: which metadata a rendering includes. */
  datatype MetadataMode = ALL | EMBED | LLM | NONE

  /** A metadata value: a string, an integer, a syntax-tree node (an index into the file's
      tree) or the file's lines. */
  datatype MetaValue =
    | Text(s: string)
    | Number(i: int)
    | Ast(node: nat)
    | SourceLines(lines: seq<string>)

  /** Python `str(value)`. A syntax-tree node shows as a fixed placeholder, and the items of a
      list are quoted with `'` without escaping. */
  function Show(v: MetaValue): string {
    match v
    case Text(s) => s
    case Number(i) => IntToString(i)
    case Ast(_) => "<Node>"
    case SourceLines(lines) => "[" + Join(seq(|lines|, k requires 0 <= k < |lines| => "'" + lines[k] + "'"), ", ") + "]"
  }

  /** A character Python's `str.strip()` removes. */
  predicate IsSpace(c: char) {
    || c == ' ' || '\t' <= c <= '\r' || '\U{1C}' <= c <= '\U{1F}' || c == '\U{85}' || c == '\U{A0}'
    || c == '\U{1680}' || '\U{2000}' <= c <= '\U{200A}' || c == '\U{2028}' || c == '\U{2029}'
    || c == '\U{202F}' || c == '\U{205F}' || c == '\U{3000}'
  }

  /** Python `s.lstrip()`. */
  function LStrip(s: string): (r: string)
    ensures |r| <= |s| && r == s[|s| - |r|..]
    ensures forall k | 0 <= k < |s| - |r| :: IsSpace(s[k])
    ensures |r| > 0 ==> !IsSpace(r[0])
  {
    if |s| > 0 && IsSpace(s[0]) then LStrip(s[1..]) else s
  }

  /** Python `s.rstrip()`. */
  function RStrip(s: string): (r: string)
    ensures |r| <= |s| && r == s[..|r|]
    ensures forall k | |r| <= k < |s| :: IsSpace(s[k])
    ensures |r| > 0 ==> !IsSpace(r[|r| - 1])
  {
    if |s| > 0 && IsSpace(s[|s| - 1]) then RStrip(s[..|s| - 1]) else s
  }

  /** Python `s.strip()`. */
  function Strip(s: string): string {
    RStrip(LStrip(s))
  }

  /** A string strips to nothing exactly when all its characters are white space. */
  lemma StripEmpty(s: string)
    ensures Strip(s) == "" <==> forall k | 0 <= k < |s| :: IsSpace(s[k])
  {
  }

  /** What is left after stripping starts and ends with a character that is not white space. */
  lemma StripEnds(s: string)
    ensures var m := Strip(s); |m| > 0 ==> !IsSpace(m[0]) && !IsSpace(m[|m| - 1])
  {
    var l := LStrip(s);
    var m := RStrip(l);
    if |m| > 0 {
      assert m[0] == l[0];
    }
  }

  /** Stripping a string that starts with a stripped one keeps that one in front. */
  lemma StripKeepsFront(m: string, rest: string)
    requires |m| > 0 && !IsSpace(m[0]) && !IsSpace(m[|m| - 1])
    ensures |Strip(m + rest)| >= |m| && Strip(m + rest)[..|m|] == m
  {
    assert LStrip(m + rest) == m + rest;
    RStripAfter(m, rest);
  }

  /** A string whose last character is not white space survives `rstrip` of what follows it. */
  lemma {:induction false} RStripAfter(a: string, b: string)
    requires |a| > 0 && !IsSpace(a[|a| - 1])
    ensures RStrip(a + b) == a + RStrip(b)
    decreases |b|
  {
    if |b| > 0 {
      var n := |b| - 1;
      assert (a + b)[..|a + b| - 1] == a + b[..n];
      if IsSpace(b[n]) {
        RStripAfter(a, b[..n]);
      }
    } else {
      assert a + b == a;
    }
  }

  /** A metadata entry as `"{key}: {value}"`, the default metadata template. */
  function Entry(e: (string, MetaValue)): string {
    e.0 + ": " + Show(e.1)
  }

  function Entries(d: seq<(string, MetaValue)>): (r: seq<string>)
    ensures |r| == |d| && forall k | 0 <= k < |d| :: r[k] == Entry(d[k])
  {
    seq(|d|, k requires 0 <= k < |d| => Entry(d[k]))
  }

  /** The keys a mode leaves out. */
  function ExcludedFor(mode: MetadataMode, excludedLlm: seq<string>, excludedEmbed: seq<string>): seq<string> {
    match mode
    case LLM => excludedLlm
    case EMBED => excludedEmbed
    case _ => []
  }

  /** The entries whose key is among `usable`, in order. */
  function Kept(d: seq<(string, MetaValue)>, usable: set<string>): seq<(string, MetaValue)> {
    if |d| == 0 then []
    else Kept(d[..|d| - 1], usable) + (if d[|d| - 1].0 in usable then [d[|d| - 1]] else [])
  }

  /** Keeping the usable keys is deleting the excluded ones, when a key present is usable
      exactly when it is not excluded. */
  lemma {:induction false} KeptWithout(d: seq<(string, MetaValue)>, usable: set<string>, excluded: seq<string>)
    requires forall k | 0 <= k < |d| :: d[k].0 in usable <==> d[k].0 !in excluded
    ensures Kept(d, usable) == Without(d, excluded)
    decreases |d|
  {
    if |d| > 0 {
      KeptWithout(d[..|d| - 1], usable, excluded);
    }
  }

  /** `get_metadata_str`: empty for NONE; otherwise the entries whose key survives the mode's
      exclusions, in metadata order, each as `"{key}: {value}"`, joined with the separator. The
      usable keys are the set of keys less the excluded ones, as the source computes them. */
  function MetadataStr(d: seq<(string, MetaValue)>, mode: MetadataMode, excludedLlm: seq<string>,
                       excludedEmbed: seq<string>, separator: string): (r: string)
    ensures mode == NONE ==> r == ""
    ensures mode != NONE ==>
      var excluded := ExcludedFor(mode, excludedLlm, excludedEmbed);
      var usable := (set k | k in Keys(d)) - (set k | k in excluded);
      r == Join(Entries(Kept(d, usable)), separator)
  {
    if mode == NONE then ""
    else
      var excluded := ExcludedFor(mode, excludedLlm, excludedEmbed);
      var usable := (set k | k in Keys(d)) - (set k | k in excluded);
      forall k | 0 <= k < |d| ensures d[k].0 in usable <==> d[k].0 !in excluded {
        assert Keys(d)[k] == d[k].0;
      }
      KeptWithout(d, usable, excluded);
      Join(Entries(Without(d, excluded)), separator)
  }

  /** `get_content` as written: the text for NONE and LLM; the summary for EMBED, which must be
      present; for ALL the text when the metadata string strips to nothing, and otherwise
      nothing at all (`None`), since the method ends without a return. */
  function Content(mode: MetadataMode, text: string, d: seq<(string, MetaValue)>, excludedLlm: seq<string>,
                   excludedEmbed: seq<string>, separator: string): (r: Result<Option<string>>)
    ensures mode == NONE || mode == LLM ==> r == Ok(Some(text))
    ensures mode == EMBED ==> (r.Err? <==> "summary" !in Keys(d))
    ensures mode == EMBED && r.Err? ==> r.error == ValueError("This CodeNode does not have a summary yet.")
    ensures mode == EMBED && r.Ok? ==> r == Ok(Some(Show(Get(d, "summary").value)))
    ensures mode == ALL ==> r.Ok? && (r.value.Some? ==> r.value.value == text)
  {
    match mode
    case NONE => Ok(Some(text))
    case LLM => Ok(Some(text))
    case EMBED =>
      (match Get(d, "summary")
       case None => Err(ValueError("This CodeNode does not have a summary yet."))
       case Some(v) => Ok(Some(Show(v))))
    case ALL =>
      if Strip(MetadataStr(d, mode, excludedLlm, excludedEmbed, separator)) == "" then Ok(Some(text))
      else Ok(None)
  }

  /** The text of a join starts with its first part. */
  lemma JoinHead(parts: seq<string>, sep: string)
    requires |parts| > 0
    ensures |Join(parts, sep)| >= |parts[0]| && Join(parts, sep)[..|parts[0]|] == parts[0]
  {
  }

  /** The metadata string of a node with metadata, in mode ALL, has a ':' after the first key. */
  lemma MetadataStrColon(d: seq<(string, MetaValue)>, excludedLlm: seq<string>, excludedEmbed: seq<string>,
                         separator: string)
    requires |d| > 0
    ensures var s := MetadataStr(d, ALL, excludedLlm, excludedEmbed, separator);
      |s| > |d[0].0| && s[|d[0].0|] == ':'
  {
    WithoutNone(d);
    var s := MetadataStr(d, ALL, excludedLlm, excludedEmbed, separator);
    var parts := Entries(Without(d, []));
    JoinHead(parts, separator);
    assert parts[0] == d[0].0 + ": " + Show(d[0].1);
    assert s[..|parts[0]|][|d[0].0|] == ':';
  }

  /** In mode ALL, `get_content` as written gives the text only for a node without metadata, and
      `None` for every node that has some. */
  lemma ContentAll(text: string, d: seq<(string, MetaValue)>, excludedLlm: seq<string>,
                   excludedEmbed: seq<string>, separator: string)
    ensures Content(ALL, text, d, excludedLlm, excludedEmbed, separator) ==
      Ok(if |d| == 0 then Some(text) else None)
  {
    if |d| > 0 {
      MetadataNotBlank(d, excludedLlm, excludedEmbed, separator);
    } else {
      assert Without(d, []) == [];
    }
  }

  /** `get_content` as the default text template `"{metadata_str}\n\n{content}"` intends it: in
      mode ALL, the stripped metadata string, a blank line and the text, stripped. */
  function ContentIntended(mode: MetadataMode, text: string, d: seq<(string, MetaValue)>,
                           excludedLlm: seq<string>, excludedEmbed: seq<string>, separator: string)
    : (r: Result<Option<string>>)
    ensures mode != ALL ==> r == Content(mode, text, d, excludedLlm, excludedEmbed, separator)
  {
    if mode != ALL then Content(mode, text, d, excludedLlm, excludedEmbed, separator)
    else
      var m := Strip(MetadataStr(d, mode, excludedLlm, excludedEmbed, separator));
      if m == "" then Ok(Some(text)) else Ok(Some(Strip(m + "\n\n" + text)))
  }

  /** A node with metadata has a metadata string that does not strip to nothing in mode ALL. */
  lemma MetadataNotBlank(d: seq<(string, MetaValue)>, excludedLlm: seq<string>, excludedEmbed: seq<string>,
                         separator: string)
    requires |d| > 0
    ensures Strip(MetadataStr(d, ALL, excludedLlm, excludedEmbed, separator)) != ""
  {
    var s := MetadataStr(d, ALL, excludedLlm, excludedEmbed, separator);
    StripEmpty(s);
    MetadataStrColon(d, excludedLlm, excludedEmbed, separator);
    assert !IsSpace(s[|d[0].0|]);
  }

  /** The intended `get_content` always gives a string in mode ALL; with metadata, that string
      starts with the stripped metadata string, which is not empty. */
  lemma ContentIntendedAll(text: string, d: seq<(string, MetaValue)>, excludedLlm: seq<string>,
                           excludedEmbed: seq<string>, separator: string)
    ensures var r := ContentIntended(ALL, text, d, excludedLlm, excludedEmbed, separator);
      r.Ok? && r.value.Some? &&
      var m := Strip(MetadataStr(d, ALL, excludedLlm, excludedEmbed, separator));
      |r.value.value| >= |m| && r.value.value[..|m|] == m &&
      (|d| > 0 ==> |m| > 0)
  {
    var m := Strip(MetadataStr(d, ALL, excludedLlm, excludedEmbed, separator));
    if |d| > 0 {
      MetadataNotBlank(d, excludedLlm, excludedEmbed, separator);
    }
    if m != "" {
      StripEnds(MetadataStr(d, ALL, excludedLlm, excludedEmbed, separator));
      StripKeepsFront(m, "\n\n" + text);
      assert m + "\n\n" + text == m + ("\n\n" + text);
    }
  }

  /** A node of the index: its id, text, character span, metadata (an insertion-ordered dict),
      the metadata keys hidden from the LLM and from the embedding, the separator between
      rendered metadata entries, and the ids its CHILD and PARENT relationships name. */
  class CodeNode {
    var id: string
    var text: string
    var startCharIdx: Option<int>
    var endCharIdx: Option<int>
    var metadata: seq<(string, MetaValue)>
    var excludedEmbedKeys: seq<string>
    var excludedLlmKeys: seq<string>
    var separator: string
    var childIds: Option<seq<string>>
    var parentId: Option<string>

    /** A node with no metadata, no character span and no relationships. */
    constructor(id: string, text: string, excludedEmbedKeys: seq<string>, excludedLlmKeys: seq<string>,
                separator: string)
      ensures this.id == id && this.text == text && metadata == []
      ensures startCharIdx == None && endCharIdx == None
      ensures this.excludedEmbedKeys == excludedEmbedKeys && this.excludedLlmKeys == excludedLlmKeys
      ensures this.separator == separator
      ensures childIds == None && parentId == None
    {
      this.id := id;
      this.text := text;
      startCharIdx := None;
      endCharIdx := None;
      metadata := [];
      this.excludedEmbedKeys := excludedEmbedKeys;
      this.excludedLlmKeys := excludedLlmKeys;
      this.separator := separator;
      childIds := None;
      parentId := None;
    }

    /** `get_metadata_str` of this node. */
    function GetMetadataStr(mode: MetadataMode): string
      reads this
    {
      MetadataStr(metadata, mode, excludedLlmKeys, excludedEmbedKeys, separator)
    }

    /** `get_content` of this node. */
    function GetContent(mode: MetadataMode): Result<Option<string>>
      reads this
    {
      Content(mode, text, metadata, excludedLlmKeys, excludedEmbedKeys, separator)
    }

    /** `get_text`: the content with no metadata, which is always there. */
    function GetText(): (r: string)
      reads this
      ensures GetContent(NONE) == Ok(Some(r))
    {
      text
    }

    /** `get_node_info`: the dict `{"start": start_char_idx, "end": end_char_idx}`. */
    function GetNodeInfo(): (r: seq<(string, Option<int>)>)
      reads this
      ensures Keys(r) == ["start", "end"]
      ensures Get(r, "start") == Some(startCharIdx) && Get(r, "end") == Some(endCharIdx)
    {
      [("start", startCharIdx), ("end", endCharIdx)]
    }

    /** `set_content`: replaces the text and nothing else. */
    method SetContent(value: string)
      modifies this
      ensures GetText() == value
      ensures id == old(id) && metadata == old(metadata) && separator == old(separator)
      ensures startCharIdx == old(startCharIdx) && endCharIdx == old(endCharIdx)
      ensures excludedEmbedKeys == old(excludedEmbedKeys) && excludedLlmKeys == old(excludedLlmKeys)
      ensures childIds == old(childIds) && parentId == old(parentId)
      ensures GetNodeInfo() == old(GetNodeInfo())
    {
      text := value;
    }
  }
}
