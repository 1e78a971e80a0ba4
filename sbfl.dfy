/** functions/sbfl.py: reading a line-level suspiciousness ranking (one header line, then rows
    `pkg$Class#method(args):line;score`) either into a map from class name to its (line, score)
    pairs, or into tiers of equal score holding clusters of consecutive rows of one method.
    Scores stay text: the code compares them as strings. File contents are inputs. */
module Sbfl {
  import opened Wrappers
  import opened Strings

  /** What `readline().strip("\n")` gives for row `i` of a file split into lines: the line,
      or "" past the end of the file. */
  function RowAt(rows: seq<string>, i: nat): string {
    if i < |rows| then rows[i] else ""
  }

  // ---------------------------------------------------------------------------------
  // parse_sbfl

  /** Python `re.split("[#:;]", s)`: the pieces between the separator characters. */
  function SplitFields(s: string): (r: seq<string>)
    ensures |r| >= 1
  {
    if s == [] then [""]
    else
      var rest := SplitFields(s[1..]);
      if s[0] in "#:;" then [""] + rest else [[s[0]] + rest[0]] + rest[1..]
  }

  /** A ranking row has as many fields as separators plus one. */
  lemma {:induction false} SplitFieldsCount(s: string)
    ensures |SplitFields(s)| == CountSeparators(s) + 1
  {
    if s != [] {
      SplitFieldsCount(s[1..]);
    }
  }

  function CountSeparators(s: string): nat {
    if s == [] then 0 else (if s[0] in "#:;" then 1 else 0) + CountSeparators(s[1..])
  }

  /** One row as `parse_sbfl` keeps it: the class key, the line number and the score text. */
  datatype SbflEntry = SbflEntry(key: string, line: nat, score: string)

  /** One row: exactly four fields (ValueError otherwise), a class key taken as the piece after
      the first `$` of the qualified name (IndexError when there is none), then None for a
      "0.0" score, which ends the parse, and otherwise the entry, whose line number must be
      decimal digits (ValueError otherwise). */
  function SbflRow(row: string): (r: Result<Option<SbflEntry>>)
    ensures r.Ok? && r.value.Some? ==> r.value.value.score != "0.0"
  {
    var fields := SplitFields(row);
    if |fields| != 4 then Err(ValueError("unpacking " + row))
    else
      var names := SplitOn(fields[0], "$");
      if |names| < 2 then Err(IndexError("list index out of range"))
      else if fields[3] == "0.0" then Ok(None)
      else if !IsDigits(fields[2]) then Err(ValueError("invalid literal for int(): " + fields[2]))
      else Ok(Some(SbflEntry(names[1], DigitsValue(fields[2]), fields[3])))
  }

  /** The entries read from row `i` on, up to the first empty row or "0.0" score. */
  function SbflEntries(rows: seq<string>, i: nat): Result<seq<SbflEntry>>
    requires i <= |rows|
  {
    EntriesFrom(SbflRow, rows, i)
  }

  /** The same read with any row parser `parse`: rows are read until an empty row or one that
      `parse` maps to None, and the first error is raised. */
  function EntriesFrom(parse: string -> Result<Option<SbflEntry>>, rows: seq<string>, i: nat): Result<seq<SbflEntry>>
    requires i <= |rows|
    decreases |rows| - i
  {
    var row := RowAt(rows, i);
    if row == "" then Ok([])
    else
      var e :- parse(row);
      if e.None? then Ok([])
      else
        var rest :- EntriesFrom(parse, rows, i + 1);
        Ok([e.value] + rest)
  }

  /** A row that parses to an entry puts it in front of the entries of the following rows. */
  lemma SbflEntriesCons(rows: seq<string>, i: nat, e: SbflEntry)
    requires i < |rows| && rows[i] != "" && SbflRow(rows[i]) == Ok(Some(e))
    ensures SbflEntries(rows, i) ==
      (match SbflEntries(rows, i + 1) case Ok(rest) => Ok([e] + rest) case Err(x) => Err(x))
  {
  }

  /** The entries are the parses of the rows from `i` on, in file order; the row after the last
      one read is empty, past the end, or carries the score "0.0". */
  lemma SbflEntriesRows(rows: seq<string>, i: nat)
    requires i <= |rows| && SbflEntries(rows, i).Ok?
    ensures var es := SbflEntries(rows, i).value;
      && i + |es| <= |rows|
      && (forall j | 0 <= j < |es| :: SbflRow(rows[i + j]) == Ok(Some(es[j])))
      && (RowAt(rows, i + |es|) == "" || SbflRow(RowAt(rows, i + |es|)) == Ok(None))
  {
    EntriesFromRows(SbflRow, rows, i);
  }

  /** `SbflEntriesRows` for any row parser. */
  lemma {:induction false} EntriesFromRows(parse: string -> Result<Option<SbflEntry>>, rows: seq<string>, i: nat)
    requires i <= |rows| && EntriesFrom(parse, rows, i).Ok?
    ensures var es := EntriesFrom(parse, rows, i).value;
      && i + |es| <= |rows|
      && (forall j | 0 <= j < |es| :: parse(rows[i + j]) == Ok(Some(es[j])))
      && (RowAt(rows, i + |es|) == "" || parse(RowAt(rows, i + |es|)) == Ok(None))
    decreases |rows| - i
  {
    var row := RowAt(rows, i);
    if row != "" && parse(row).value.Some? {
      assert i < |rows|;
      var e := parse(row).value.value;
      EntriesFromRows(parse, rows, i + 1);
      var es := EntriesFrom(parse, rows, i).value;
      var rest := EntriesFrom(parse, rows, i + 1).value;
      assert es == [e] + rest;
      forall j | 0 <= j < |es| ensures parse(rows[i + j]) == Ok(Some(es[j])) {
        if j > 0 {
          assert es[j] == rest[j - 1];
        }
      }
    }
  }

  /** `res[key].append(pair)`, or `res[key] = [pair]` for a new key. */
  function AddEntry(res: map<string, seq<(nat, string)>>, e: SbflEntry): map<string, seq<(nat, string)>> {
    res[e.key := (if e.key in res then res[e.key] else []) + [(e.line, e.score)]]
  }

  function AddEntries(res: map<string, seq<(nat, string)>>, es: seq<SbflEntry>): map<string, seq<(nat, string)>>
    decreases |es|
  {
    if es == [] then res else AddEntries(AddEntry(res, es[0]), es[1..])
  }

  /** Adding one entry ahead of the rest is adding it to the map first. */
  lemma AddEntriesStep(res: map<string, seq<(nat, string)>>, e: SbflEntry, rest: Result<seq<SbflEntry>>)
    ensures rest.Ok? ==> AddEntries(res, [e] + rest.value) == AddEntries(AddEntry(res, e), rest.value)
  {
    if rest.Ok? {
      assert ([e] + rest.value)[1..] == rest.value;
    }
  }

  /** The (line, score) pairs of the entries with key `k`, in order. */
  function PairsOf(es: seq<SbflEntry>, k: string): seq<(nat, string)> {
    if es == [] then []
    else (if es[0].key == k then [(es[0].line, es[0].score)] else []) + PairsOf(es[1..], k)
  }

  predicate HasKey(es: seq<SbflEntry>, k: string) {
    exists j | 0 <= j < |es| :: es[j].key == k
  }

  /** Adding entries extends each key's list by that key's pairs, in order, and adds exactly
      the keys the entries carry. */
  lemma {:induction false} AddEntriesPairs(res: map<string, seq<(nat, string)>>, es: seq<SbflEntry>, k: string)
    ensures k in AddEntries(res, es) <==> k in res || HasKey(es, k)
    ensures k in AddEntries(res, es) ==>
      AddEntries(res, es)[k] == (if k in res then res[k] else []) + PairsOf(es, k)
    decreases |es|
  {
    if es != [] {
      AddEntriesPairs(AddEntry(res, es[0]), es[1..], k);
      if HasKey(es[1..], k) {
        var j :| 0 <= j < |es[1..]| && es[1..][j].key == k;
        assert es[j + 1].key == k;
      }
      if HasKey(es, k) && es[0].key != k {
        var j :| 0 <= j < |es| && es[j].key == k;
        assert es[1..][j - 1].key == k;
      }
    }
  }

  /** `parse_sbfl` on a file's contents. */
  function ParseSbflSpec(content: string): Result<map<string, seq<(nat, string)>>> {
    SbflOfRows(Lines(content))
  }

  /** The same on the file's rows. */
  function SbflOfRows(rows: seq<string>): Result<map<string, seq<(nat, string)>>>
    requires |rows| >= 1
  {
    var es :- SbflEntries(rows, 1);
    Ok(AddEntries(map[], es))
  }

  /** The map holds exactly the classes of the rows read, each with its (line, score) pairs in
      file order; together with `SbflEntriesRows` this says which rows those are. */
  lemma ParseSbflGroups(content: string, k: string)
    requires ParseSbflSpec(content).Ok?
    ensures var es := SbflEntries(Lines(content), 1).value;
      var res := ParseSbflSpec(content).value;
      (k in res <==> HasKey(es, k)) && (k in res ==> res[k] == PairsOf(es, k))
  {
    var es := SbflEntries(Lines(content), 1).value;
    AddEntriesPairs(map[], es, k);
  }

  /** `parse_sbfl`: the while-loop over the rows, appending to the map's lists. */
  method ParseSbfl(content: string) returns (r: Result<map<string, seq<(nat, string)>>>)
    ensures r == ParseSbflSpec(content)
  {
    r := ParseSbflRows(Lines(content));
  }

  /** The body of the loop of `parse_sbfl` for one non-empty row: the row's errors, None when
      its score is "0.0" (the loop stops), otherwise `res` with the row's pair appended under
      its method key. */
  method AddSbflRow(res: map<string, seq<(nat, string)>>, row: string)
    returns (r: Result<Option<map<string, seq<(nat, string)>>>>)
    ensures match SbflRow(row)
      case Err(x) => r == Err(x)
      case Ok(None) => r == Ok(None)
      case Ok(Some(e)) => r == Ok(Some(AddEntry(res, e)))
  {
    var fields := SplitFields(row);
    if |fields| != 4 {
      return Err(ValueError("unpacking " + row));
    }
    var names := SplitOn(fields[0], "$");
    if |names| < 2 {
      return Err(IndexError("list index out of range"));
    }
    if fields[3] == "0.0" {
      return Ok(None);
    }
    if !IsDigits(fields[2]) {
      return Err(ValueError("invalid literal for int(): " + fields[2]));
    }
    var key := names[1];
    var pair := (DigitsValue(fields[2]), fields[3]);
    if key in res {
      return Ok(Some(res[key := res[key] + [pair]]));
    } else {
      assert [] + [pair] == [pair];
      return Ok(Some(res[key := [pair]]));
    }
  }

  /** The loop of `parse_sbfl` over the file's rows. */
  method ParseSbflRows(rows: seq<string>) returns (r: Result<map<string, seq<(nat, string)>>>)
    requires |rows| >= 1
    ensures r == SbflOfRows(rows)
  {
    var res: map<string, seq<(nat, string)>> := map[];
    var i := 1;
    while RowAt(rows, i) != ""
      invariant 1 <= i <= |rows|
      invariant SbflOfRows(rows) ==
        (match SbflEntries(rows, i) case Ok(es) => Ok(AddEntries(res, es)) case Err(e) => Err(e))
      decreases |rows| - i
    {
      var next := AddSbflRow(res, rows[i]);
      if next.Err? {
        return Err(next.error);
      }
      if next.value.None? {
        break;
      }
      SbflEntriesCons(rows, i, SbflRow(rows[i]).value.value);
      AddEntriesStep(res, SbflRow(rows[i]).value.value, SbflEntries(rows, i + 1));
      res := next.value.value;
      i := i + 1;
    }
    assert SbflEntries(rows, i) == Ok([]);
    return Ok(res);
  }

  /** `get_all_sbfl_res`: the six formulas whose rankings are read, in order. */
  const FormulaNames: seq<string> := ["tarantula", "ochiai", "jaccard", "ample", "ochiai2", "dstar"]

  /** The ranking file of one formula for one bug. */
  function RankingPath(root: string, project: string, bugId: string, formula: string): string {
    PathJoin(PathJoin(PathJoin(PathJoin(PathJoin(root, "SBFL"), "results"), project), bugId), formula + ".ranking.csv")
  }

  /** `get_all_sbfl_res`: `parse_sbfl` of each formula's file, in formula order; a missing file
      raises. `files` maps a path to the file's contents. */
  method GetAllSbflRes(files: map<string, string>, root: string, project: string, bugId: string)
    returns (r: Result<seq<map<string, seq<(nat, string)>>>>)
    ensures r.Ok? ==> |r.value| == |FormulaNames|
    ensures r.Ok? ==> forall j | 0 <= j < |FormulaNames| ::
      RankingPath(root, project, bugId, FormulaNames[j]) in files &&
      Ok(r.value[j]) == ParseSbflSpec(files[RankingPath(root, project, bugId, FormulaNames[j])])
    ensures r.Err? ==> exists j | 0 <= j < |FormulaNames| ::
      var path := RankingPath(root, project, bugId, FormulaNames[j]);
      path !in files || ParseSbflSpec(files[path]).Err?
  {
    var reses: seq<map<string, seq<(nat, string)>>> := [];
    for j := 0 to |FormulaNames|
      invariant |reses| == j
      invariant forall h | 0 <= h < j ::
        RankingPath(root, project, bugId, FormulaNames[h]) in files &&
        Ok(reses[h]) == ParseSbflSpec(files[RankingPath(root, project, bugId, FormulaNames[h])])
    {
      var path := RankingPath(root, project, bugId, FormulaNames[j]);
      if path !in files {
        return Err(OSError(path));
      }
      var one := ParseSbfl(files[path]);
      if one.Err? {
        return Err(one.error);
      }
      reses := reses + [one.value];
    }
    return Ok(reses);
  }

  // ---------------------------------------------------------------------------------
  // parse_sbfl_version_2

  /** One row as `parse_sbfl_version_2` matches it. */
  datatype RankedLine = RankedLine(pkg: string, cls: string, meth: string, args: string, line: nat, score: string)

  /** The first position at or after `i` holding `c` (what a lazy `.*?` followed by `c` stops at). */
  function FindChar(s: string, c: char, i: nat): (r: Option<nat>)
    requires i <= |s|
    ensures r.Some? ==> i <= r.value < |s| && s[r.value] == c
    decreases |s| - i
  {
    if i == |s| then None else if s[i] == c then Some(i) else FindChar(s, c, i + 1)
  }

  /** `FindChar` finds the first `c`: none lies before the one found, and none at all when
      nothing is found. */
  lemma {:induction false} FindCharFirst(s: string, c: char, i: nat)
    requires i <= |s|
    ensures FindChar(s, c, i).Some? ==> forall k | i <= k < FindChar(s, c, i).value :: s[k] != c
    ensures FindChar(s, c, i).None? ==> forall k | i <= k < |s| :: s[k] != c
    decreases |s| - i
  {
    if i < |s| && s[i] != c {
      FindCharFirst(s, c, i + 1);
    }
  }

  /** `FindChar` passes over positions without `c`. */
  lemma {:induction false} FindCharSkips(s: string, c: char, i: nat, j: nat)
    requires i <= j < |s| && s[j] == c
    requires forall k | i <= k < j :: s[k] != c
    ensures FindChar(s, c, i) == Some(j)
    decreases j - i
  {
    if i < j {
      FindCharSkips(s, c, i + 1, j);
    }
  }

  /** The end of the run of digits that starts at `i`. */
  function DigitsEnd(s: string, i: nat): (r: nat)
    requires i <= |s|
    ensures i <= r <= |s|
    ensures forall k | i <= k < r :: IsDigit(s[k])
    ensures r < |s| ==> !IsDigit(s[r])
    decreases |s| - i
  {
    if i < |s| && IsDigit(s[i]) then DigitsEnd(s, i + 1) else i
  }

  /** At `p` the rest of the row reads `):<digits>;<anything>`. */
  predicate TailAt(s: string, p: nat) {
    p + 2 <= |s| && s[p] == ')' && s[p + 1] == ':' &&
    var q := DigitsEnd(s, p + 2);
    q > p + 2 && q < |s| && s[q] == ';'
  }

  /** The first position at or after `i` where the tail starts. */
  function FindTail(s: string, i: nat): (r: Option<nat>)
    requires i <= |s|
    ensures r.Some? ==> i <= r.value <= |s| && TailAt(s, r.value)
    decreases |s| - i
  {
    if TailAt(s, i) then Some(i)
    else if i == |s| then None
    else FindTail(s, i + 1)
  }

  /** The lazy group stops at the first tail: none starts before the one found, and none at all
      when there is none. */
  lemma {:induction false} FindTailFirst(s: string, i: nat)
    requires i <= |s|
    ensures FindTail(s, i).Some? ==> forall p | i <= p < FindTail(s, i).value :: !TailAt(s, p)
    ensures FindTail(s, i).None? ==> forall p | i <= p <= |s| :: !TailAt(s, p)
    decreases |s| - i
  {
    if !TailAt(s, i) && i < |s| {
      FindTailFirst(s, i + 1);
    }
  }

  /** `re.match(r"^(.*?)\$(.*?)\#(.*?)\((.*?)\):(\d+);(.*?)$", row)`. The lazy groups end at the
      first `$`, the first `#` after it and the first `(` after that (a later choice never
      succeeds where the first fails), the arguments at the first `):<digits>;`, and the score
      is the rest of the row. */
  function MatchRankedLine(s: string): Option<RankedLine> {
    match FindChar(s, '$', 0)
    case None => None
    case Some(a) => MatchAfterDollar(s, a)
  }

  /** The match once the package has ended at `a`. */
  function MatchAfterDollar(s: string, a: nat): Option<RankedLine>
    requires a < |s|
  {
    match FindChar(s, '#', a + 1)
    case None => None
    case Some(b) => MatchAfterHash(s, a, b)
  }

  /** The match once the class has ended at `b`. */
  function MatchAfterHash(s: string, a: nat, b: nat): Option<RankedLine>
    requires a < b < |s|
  {
    match FindChar(s, '(', b + 1)
    case None => None
    case Some(c) => MatchAfterParen(s, a, b, c)
  }

  /** The match once the method name has ended at `c`: the arguments run to the first tail. */
  function MatchAfterParen(s: string, a: nat, b: nat, c: nat): Option<RankedLine>
    requires a < b < c < |s|
  {
    match FindTail(s, c + 1)
    case None => None
    case Some(p) =>
      var q := DigitsEnd(s, p + 2);
      Some(RankedLine(s[..a], s[a + 1..b], s[b + 1..c], s[c + 1..p], DigitsValue(s[p + 2..q]), s[q + 1..]))
  }

  /** A ranking row written out from its parts; `MatchRankedLine` takes it apart again. */
  function FormatRankedLine(x: RankedLine): string {
    x.pkg + ("$" + (x.cls + ("#" + (x.meth + ("(" + (x.args + ("):" + (NatToString(x.line) + (";" + x.score)))))))))
  }

  /** Matching a row written from parts that hold none of the separators gives the parts back. */
  lemma MatchFormatted(x: RankedLine)
    requires '$' !in x.pkg && '#' !in x.cls && '(' !in x.meth && ')' !in x.args
    ensures MatchRankedLine(FormatRankedLine(x)) == Some(x)
  {
    NatToStringRoundTrip(x.line);
    MatchPieces(x.pkg, x.cls, x.meth, x.args, NatToString(x.line), x.score);
  }

  lemma MatchPieces(pkg: string, cls: string, meth: string, args: string, digits: string, score: string)
    requires '$' !in pkg && '#' !in cls && '(' !in meth && ')' !in args && IsDigits(digits)
    ensures MatchRankedLine(pkg + ("$" + (cls + ("#" + (meth + ("(" + (args + ("):" + (digits + (";" + score)))))))))) ==
      Some(RankedLine(pkg, cls, meth, args, DigitsValue(digits), score))
  {
    var r3 := args + ("):" + (digits + (";" + score)));
    var r2 := meth + ("(" + r3);
    var r1 := cls + ("#" + r2);
    var s := pkg + ("$" + r1);
    assert s[0..] == s;
    FindAfterPrefix(s, 0, |pkg|, pkg, '$', r1);
    assert s[..|pkg|] == s[0..|pkg|];
    FromDollar(s, |pkg|, pkg, cls, r2, meth, r3, args, digits, score);
  }

  /** The package has ended at `a`; the rest of the row holds the class and what follows. */
  lemma FromDollar(s: string, a: nat, pkg: string, cls: string, r2: string, meth: string, r3: string,
                   args: string, digits: string, score: string)
    requires a < |s| && FindChar(s, '$', 0) == Some(a) && s[..a] == pkg
    requires s[a + 1..] == cls + ("#" + r2) && r2 == meth + ("(" + r3)
    requires r3 == args + ("):" + (digits + (";" + score)))
    requires '#' !in cls && '(' !in meth && ')' !in args && IsDigits(digits)
    ensures MatchRankedLine(s) == Some(RankedLine(pkg, cls, meth, args, DigitsValue(digits), score))
  {
    var b := a + 1 + |cls|;
    FindAfterPrefix(s, a + 1, b, cls, '#', r2);
    FromHash(s, a, b, pkg, cls, meth, r3, args, digits, score);
  }

  /** The class has ended at `b`; the rest holds the method and what follows. */
  lemma FromHash(s: string, a: nat, b: nat, pkg: string, cls: string, meth: string, r3: string,
                 args: string, digits: string, score: string)
    requires a < b < |s| && FindChar(s, '$', 0) == Some(a) && FindChar(s, '#', a + 1) == Some(b)
    requires s[..a] == pkg && s[a + 1..b] == cls && s[b + 1..] == meth + ("(" + r3)
    requires r3 == args + ("):" + (digits + (";" + score)))
    requires '(' !in meth && ')' !in args && IsDigits(digits)
    ensures MatchAfterDollar(s, a) == Some(RankedLine(pkg, cls, meth, args, DigitsValue(digits), score))
  {
    var c := b + 1 + |meth|;
    FindAfterPrefix(s, b + 1, c, meth, '(', r3);
    FromParen(s, a, b, c, pkg, cls, meth, args, digits, score);
  }

  /** The method has ended at `c`; the rest holds the arguments and the tail. */
  lemma FromParen(s: string, a: nat, b: nat, c: nat, pkg: string, cls: string, meth: string,
                  args: string, digits: string, score: string)
    requires a < b < c < |s| && FindChar(s, '#', a + 1) == Some(b) && FindChar(s, '(', b + 1) == Some(c)
    requires s[..a] == pkg && s[a + 1..b] == cls && s[b + 1..c] == meth
    requires s[c + 1..] == args + ("):" + (digits + (";" + score)))
    requires ')' !in args && IsDigits(digits)
    ensures MatchAfterHash(s, a, b) == Some(RankedLine(pkg, cls, meth, args, DigitsValue(digits), score))
  {
    var p := c + 1 + |args|;
    var q := p + 2 + |digits|;
    var rest := "):" + (digits + (";" + score));
    assert s[p..] == rest by {
      assert s[p..] == s[c + 1..][|args|..];
    }
    DigitsRun(s, p + 2, q, digits, score);
    TailFound(s, c + 1, p, args, rest);
    FromTail(s, a, b, c, p, q, pkg, cls, meth, args, digits, score);
  }

  /** The arguments have ended at the tail at `p`, whose digits end at `q`: the match is
      complete. */
  lemma FromTail(s: string, a: nat, b: nat, c: nat, p: nat, q: nat, pkg: string, cls: string, meth: string,
                 args: string, digits: string, score: string)
    requires a < b < c < p && p + 2 <= q < |s|
    requires FindTail(s, c + 1) == Some(p) && DigitsEnd(s, p + 2) == q
    requires s[..a] == pkg && s[a + 1..b] == cls && s[b + 1..c] == meth && s[c + 1..p] == args
    requires s[p + 2..q] == digits && s[q + 1..] == score
    ensures MatchAfterParen(s, a, b, c) == Some(RankedLine(pkg, cls, meth, args, DigitsValue(digits), score))
  {
  }

  /** Where `s` reads `x + [c] + y` from `i` on, with no `c` in `x`, the first `c` from `i` on
      ends `x`. */
  lemma FindAfterPrefix(s: string, i: nat, j: nat, x: string, c: char, y: string)
    requires i <= |s| && s[i..] == x + ([c] + y) && c !in x && j == i + |x|
    ensures j < |s| && FindChar(s, c, i) == Some(j)
    ensures s[i..j] == x && s[j + 1..] == y
  {
    assert s[j] == s[i..][|x|] == c;
    forall k | i <= k < j ensures s[k] != c {
      assert s[k] == s[i..][k - i] == x[k - i];
    }
    FindCharSkips(s, c, i, j);
    assert s[i..j] == s[i..][..|x|];
    assert s[j + 1..] == s[i..][|x| + 1..];
  }

  /** In `s` whose part from `i` is `args + rest` with no ')' in `args` and a tail starting
      `rest`, the first tail from `i` on is right after `args`. */
  lemma TailFound(s: string, i: nat, p: nat, args: string, rest: string)
    requires i <= |s| && s[i..] == args + rest && |rest| > 0 && rest[0] == ')'
    requires ')' !in args && p == i + |args| && TailAt(s, p)
    ensures FindTail(s, i) == Some(p) && s[i..p] == args && s[p..] == rest
  {
    assert s[i..p] == s[i..][..|args|] == (args + rest)[..|args|] == args;
    assert s[p..] == s[i..][|args|..] == (args + rest)[|args|..] == rest;
    NoTailInside(s, i, args);
    TailSkips(s, i, p);
  }

  /** No tail starts inside a stretch without ')'. */
  lemma NoTailInside(s: string, i: nat, args: string)
    requires i + |args| <= |s| && s[i..i + |args|] == args && ')' !in args
    ensures forall k | i <= k < i + |args| :: !TailAt(s, k)
  {
    forall k | i <= k < i + |args| ensures s[k] != ')' {
      assert s[k] == s[i..i + |args|][k - i];
    }
  }

  lemma {:induction false} TailSkips(s: string, i: nat, p: nat)
    requires i <= p <= |s| && TailAt(s, p)
    requires forall k | i <= k < p :: !TailAt(s, k)
    ensures FindTail(s, i) == Some(p)
    decreases p - i
  {
    if i < p {
      TailSkips(s, i + 1, p);
    }
  }

  /** A digit string followed by ';' is one whole run of digits. */
  lemma DigitsRun(s: string, i: nat, q: nat, digits: string, score: string)
    requires 2 <= i <= |s| && IsDigits(digits) && q == i + |digits|
    requires s[i - 2..] == "):" + (digits + (";" + score))
    ensures q < |s| && DigitsEnd(s, i) == q && TailAt(s, i - 2)
    ensures s[i..q] == digits && s[q + 1..] == score
  {
    var t := s[i - 2..];
    assert s[i - 2] == t[0] == ')' && s[i - 1] == t[1] == ':';
    forall k | i <= k < q ensures IsDigit(s[k]) {
      assert s[k] == t[k - i + 2] == digits[k - i];
    }
    assert s[q] == t[|digits| + 2] == ';';
    DigitsEndAt(s, i, q);
    assert s[i..q] == t[2..|digits| + 2];
    assert s[q + 1..] == t[|digits| + 3..];
  }

  lemma {:induction false} DigitsEndAt(s: string, i: nat, q: nat)
    requires i <= q < |s| && !IsDigit(s[q])
    requires forall k | i <= k < q :: IsDigit(s[k])
    ensures DigitsEnd(s, i) == q
    decreases q - i
  {
    if i < q {
      DigitsEndAt(s, i + 1, q);
    }
  }

  /** The rows read from row `i` on: the matched rows up to the first empty row (false) or up to
      the first row scored "0.0" (true). A row that does not match raises ValueError naming it. */
  function ReadRanked(rows: seq<string>, i: nat): Result<(seq<RankedLine>, bool)>
    requires i <= |rows|
    decreases |rows| - i
  {
    var row := RowAt(rows, i);
    if row == "" then Ok(([], false))
    else
      match MatchRankedLine(row)
      case None => Err(ValueError("Failed to parse line: " + row))
      case Some(x) =>
        if x.score == "0.0" then Ok(([], true))
        else
          var rest :- ReadRanked(rows, i + 1);
          Ok(([x] + rest.0, rest.1))
  }

  /** A cluster: consecutive rows of one method (package of its first row) and their lines. */
  datatype Cluster = Cluster(pkg: string, cls: string, meth: string, lines: seq<nat>)

  function Last<T>(xs: seq<T>): T
    requires |xs| > 0
  {
    xs[|xs| - 1]
  }

  /** The maximal runs of consecutive elements with equal keys. */
  function Runs<T, K(==)>(xs: seq<T>, key: T -> K): (r: seq<seq<T>>)
    ensures |r| <= |xs|
    ensures |r| == 0 <==> |xs| == 0
    ensures forall i | 0 <= i < |r| :: |r[i]| > 0
    decreases |xs|
  {
    if xs == [] then []
    else
      var front := Runs(xs[..|xs| - 1], key);
      var x := Last(xs);
      if |front| > 0 && key(Last(Last(front))) == key(x) then front[..|front| - 1] + [Last(front) + [x]]
      else front + [[x]]
  }

  function Flatten<T>(xss: seq<seq<T>>): seq<T> {
    if xss == [] then [] else Flatten(xss[..|xss| - 1]) + Last(xss)
  }

  /** The runs put back together give the sequence. */
  lemma {:induction false} RunsFlatten<T, K>(xs: seq<T>, key: T -> K)
    ensures Flatten(Runs(xs, key)) == xs
    decreases |xs|
  {
    if xs != [] {
      var front := xs[..|xs| - 1];
      var r := Runs(front, key);
      RunsFlatten(front, key);
      var x := Last(xs);
      if |r| > 0 && key(Last(Last(r))) == key(x) {
        var init := r[..|r| - 1];
        assert Runs(xs, key) == init + [Last(r) + [x]];
        assert (init + [Last(r) + [x]])[..|init|] == init;
        assert r[..|r| - 1] == init;
        assert Flatten(r) == Flatten(init) + Last(r);
      } else {
        assert (r + [[x]])[..|r|] == r;
      }
      assert xs == front + [x];
    }
  }

  /** Every element of a run has the key of the run's first element. */
  ghost predicate Uniform<T, K>(r: seq<seq<T>>, key: T -> K) {
    forall i, j | 0 <= i < |r| && 0 <= j < |r[i]| :: key(r[i][j]) == key(r[i][0])
  }

  /** Neighbouring runs have different keys where they meet. */
  ghost predicate Separated<T, K>(r: seq<seq<T>>, key: T -> K) {
    forall i | 0 < i < |r| && |r[i - 1]| > 0 && |r[i]| > 0 :: key(Last(r[i - 1])) != key(r[i][0])
  }

  /** Inside a run every element has the run's key, and two neighbouring runs have different keys
      where they meet: the runs are maximal. */
  lemma {:induction false} RunsMaximal<T, K>(xs: seq<T>, key: T -> K)
    ensures Uniform(Runs(xs, key), key)
    ensures Separated(Runs(xs, key), key)
    decreases |xs|
  {
    if xs != [] {
      var front := xs[..|xs| - 1];
      var r := Runs(front, key);
      RunsMaximal(front, key);
      var x := Last(xs);
      var n := |r|;
      if n > 0 && key(Last(Last(r))) == key(x) {
        var r' := r[..n - 1] + [Last(r) + [x]];
        assert Runs(xs, key) == r';
        forall i, j | 0 <= i < |r'| && 0 <= j < |r'[i]| ensures key(r'[i][j]) == key(r'[i][0]) {
          if i < n - 1 {
            assert r'[i] == r[i];
          } else if j < |r[n - 1]| {
            assert r'[i][j] == r[n - 1][j] && r'[i][0] == r[n - 1][0];
          } else {
            assert r'[i][j] == x && r'[i][0] == r[n - 1][0];
            assert key(r[n - 1][|r[n - 1]| - 1]) == key(r[n - 1][0]);
          }
        }
        forall i | 0 < i < |r'| ensures key(Last(r'[i - 1])) != key(r'[i][0]) {
          assert r'[i - 1] == r[i - 1];
          assert key(Last(r[i - 1])) != key(r[i][0]);
          if i < n - 1 {
            assert r'[i] == r[i];
          } else {
            assert r'[i][0] == r[n - 1][0];
          }
        }
      } else {
        var r' := r + [[x]];
        assert Runs(xs, key) == r';
        forall i, j | 0 <= i < |r'| && 0 <= j < |r'[i]| ensures key(r'[i][j]) == key(r'[i][0]) {
          if i < n {
            assert r'[i] == r[i];
          }
        }
        forall i | 0 < i < |r'| ensures key(Last(r'[i - 1])) != key(r'[i][0]) {
          assert r'[i - 1] == r[i - 1];
          if i < n {
            assert r'[i] == r[i];
            assert key(Last(r[i - 1])) != key(r[i][0]);
          } else {
            assert Last(r) == r[i - 1];
          }
        }
      }
    }
  }

  function LinesOf(xs: seq<RankedLine>): (r: seq<nat>)
    ensures |r| == |xs|
  {
    if xs == [] then [] else LinesOf(xs[..|xs| - 1]) + [Last(xs).line]
  }

  /** The cluster of a run of rows of one method. */
  function MakeCluster(run: seq<RankedLine>): Cluster
    requires |run| > 0
  {
    Cluster(run[0].pkg, run[0].cls, run[0].meth, LinesOf(run))
  }

  function MakeClusters(runs: seq<seq<RankedLine>>): (r: seq<Cluster>)
    requires forall i | 0 <= i < |runs| :: |runs[i]| > 0
    ensures |r| == |runs|
  {
    if runs == [] then [] else MakeClusters(runs[..|runs| - 1]) + [MakeCluster(Last(runs))]
  }

  /** The method a row belongs to, for clustering. */
  function MethodKey(x: RankedLine): (string, string) {
    (x.cls, x.meth)
  }

  function ScoreKey(x: RankedLine): string {
    x.score
  }

  /** The clusters of one tier. */
  function ClustersOf(tier: seq<RankedLine>): seq<Cluster> {
    MakeClusters(Runs(tier, MethodKey))
  }

  function MakeTiers(runs: seq<seq<RankedLine>>): (r: seq<seq<Cluster>>)
    ensures |r| == |runs|
  {
    if runs == [] then [] else MakeTiers(runs[..|runs| - 1]) + [ClustersOf(Last(runs))]
  }

  /** The tiers of the rows read: a tier per maximal run of one score, a cluster per maximal run
      of one method inside it. */
  function ScoreTiers(xs: seq<RankedLine>): seq<seq<Cluster>> {
    MakeTiers(Runs(xs, ScoreKey))
  }

  /** The first row matches but has an empty score: it opens no tier, and appending to the
      missing last tier raises IndexError. */
  predicate UnscoredFirstRow(rows: seq<string>) {
    var row := RowAt(rows, 1);
    row != "" && MatchRankedLine(row).Some? && MatchRankedLine(row).value.score == ""
  }

  /** `parse_sbfl_version_2` on a file's contents: the tiers of the rows read, and one empty tier
      more when the read stopped at a "0.0" row. */
  function ParseTieredSpec(content: string): Result<seq<seq<Cluster>>> {
    TieredOfRows(Lines(content))
  }

  /** The same on the file's rows. */
  function TieredOfRows(rows: seq<string>): Result<seq<seq<Cluster>>>
    requires |rows| >= 1
  {
    if UnscoredFirstRow(rows) then Err(IndexError("list index out of range"))
    else
      var read :- ReadRanked(rows, 1);
      Ok(ScoreTiers(read.0) + (if read.1 then [[]] else []))
  }

  /** What the loop of `parse_sbfl_version_2` knows at row `i`: the rows before it were read
      into `consumed`, and the first row is not an unscored one once passed. */
  predicate TieredLoop(rows: seq<string>, i: nat, consumed: seq<RankedLine>) {
    && 1 <= i <= |rows|
    && ReadRanked(rows, 1) == Prepend(consumed, ReadRanked(rows, i))
    && |consumed| == i - 1
    && (i > 1 ==> !UnscoredFirstRow(rows))
  }

  /** Where the loop stops at an empty row or a "0.0" row, having consumed `consumed`, the
      parse gives the tiers of those rows, with an empty tier more for a "0.0" row. */
  lemma TieredStops(rows: seq<string>, i: nat, consumed: seq<RankedLine>)
    requires 1 <= i <= |rows|
    requires ReadRanked(rows, 1) == Prepend(consumed, ReadRanked(rows, i))
    requires i > 1 ==> !UnscoredFirstRow(rows)
    requires RowAt(rows, i) == "" || (MatchRankedLine(RowAt(rows, i)).Some? &&
      MatchRankedLine(RowAt(rows, i)).value.score == "0.0")
    ensures RowAt(rows, i) == "" ==> TieredOfRows(rows) == Ok(ScoreTiers(consumed))
    ensures RowAt(rows, i) != "" ==> TieredOfRows(rows) == Ok(ScoreTiers(consumed) + [[]])
  {
    ReadRankedStop(rows, i, consumed);
    assert !UnscoredFirstRow(rows);
    assert ScoreTiers(consumed) + [] == ScoreTiers(consumed);
  }

  /** Where the loop meets a row that does not match, the parse raises ValueError naming it. */
  lemma TieredNoMatch(rows: seq<string>, i: nat, consumed: seq<RankedLine>)
    requires 1 <= i < |rows| && rows[i] != ""
    requires ReadRanked(rows, 1) == Prepend(consumed, ReadRanked(rows, i))
    requires i > 1 ==> !UnscoredFirstRow(rows)
    requires MatchRankedLine(rows[i]).None?
    ensures TieredOfRows(rows) == Err(ValueError("Failed to parse line: " + rows[i]))
  {
    assert ReadRanked(rows, i) == Err(ValueError("Failed to parse line: " + rows[i]));
    assert !UnscoredFirstRow(rows);
  }

  /** Where the loop meets a row with an empty score while no tier is open, the first row is
      unscored and the parse raises IndexError. */
  lemma TieredUnscored(rows: seq<string>, i: nat, consumed: seq<RankedLine>, x: RankedLine)
    requires 1 <= i < |rows| && RowAt(rows, i) != "" && MatchRankedLine(rows[i]) == Some(x)
    requires |consumed| == i - 1 && ScoreTiers(consumed) == [] && x.score == LastScore(consumed)
    ensures TieredOfRows(rows) == Err(IndexError("list index out of range"))
  {
    assert |Runs(consumed, ScoreKey)| == 0;
    assert consumed == [];
  }

  /** The cluster a single row opens. */
  function SingleCluster(x: RankedLine): Cluster {
    Cluster(x.pkg, x.cls, x.meth, [x.line])
  }

  /** The clusters with one more line on the last one. */
  function ExtendLast(cs: seq<Cluster>, line: nat): seq<Cluster>
    requires |cs| > 0
  {
    cs[..|cs| - 1] + [Last(cs).(lines := Last(cs).lines + [line])]
  }

  /** A single row is a single cluster in a single tier. */
  lemma SingleRow(x: RankedLine)
    ensures ClustersOf([x]) == [SingleCluster(x)]
    ensures ScoreTiers([x]) == [[SingleCluster(x)]]
  {
    assert [x][..0] == [];
    assert Runs([x], MethodKey) == [[x]];
    assert Runs([x], ScoreKey) == [[x]];
    assert LinesOf([x]) == [x.line];
  }

  /** One more row of a tier opens a cluster when its method differs from the last row's, and
      otherwise adds its line to the last cluster, which is that of the last row's method. */
  lemma ClustersStep(run: seq<RankedLine>, x: RankedLine)
    requires |run| > 0
    ensures |ClustersOf(run)| > 0
    ensures Last(ClustersOf(run)).cls == Last(run).cls && Last(ClustersOf(run)).meth == Last(run).meth
    ensures MethodKey(Last(run)) != MethodKey(x) ==> ClustersOf(run + [x]) == ClustersOf(run) + [SingleCluster(x)]
    ensures MethodKey(Last(run)) == MethodKey(x) ==> ClustersOf(run + [x]) == ExtendLast(ClustersOf(run), x.line)
  {
    LastCluster(run);
    if MethodKey(Last(run)) == MethodKey(x) {
      ClustersSameMethod(run, x);
    } else {
      ClustersNewMethod(run, x);
    }
  }

  /** The last cluster is that of the last run, whose rows share the last row's method. */
  lemma LastCluster(run: seq<RankedLine>)
    requires |run| > 0
    ensures var cr := Runs(run, MethodKey);
      && |cr| > 0 && |ClustersOf(run)| > 0
      && ClustersOf(run) == MakeClusters(cr[..|cr| - 1]) + [MakeCluster(Last(cr))]
      && Last(ClustersOf(run)).cls == Last(run).cls && Last(ClustersOf(run)).meth == Last(run).meth
  {
    var cr := Runs(run, MethodKey);
    RunsLastElement(run, MethodKey);
    RunsMaximal(run, MethodKey);
    var cl := Last(cr);
    assert MethodKey(cl[|cl| - 1]) == MethodKey(cl[0]);
  }

  /** A row of the last row's method joins the last run, and its line the last cluster. */
  lemma ClustersSameMethod(run: seq<RankedLine>, x: RankedLine)
    requires |run| > 0 && MethodKey(Last(run)) == MethodKey(x)
    requires var cr := Runs(run, MethodKey);
      |cr| > 0 && ClustersOf(run) == MakeClusters(cr[..|cr| - 1]) + [MakeCluster(Last(cr))]
    ensures |ClustersOf(run)| > 0 && ClustersOf(run + [x]) == ExtendLast(ClustersOf(run), x.line)
  {
    var run' := run + [x];
    assert run'[..|run'| - 1] == run;
    var cr := Runs(run, MethodKey);
    RunsLastElement(run, MethodKey);
    var cl := Last(cr);
    var cl' := cl + [x];
    assert Runs(run', MethodKey) == cr[..|cr| - 1] + [cl'];
    assert (cr[..|cr| - 1] + [cl'])[..|cr| - 1] == cr[..|cr| - 1];
    assert cl'[..|cl'| - 1] == cl;
  }

  /** A row of another method starts a run, and a cluster, of its own. */
  lemma ClustersNewMethod(run: seq<RankedLine>, x: RankedLine)
    requires |run| > 0 && MethodKey(Last(run)) != MethodKey(x)
    ensures ClustersOf(run + [x]) == ClustersOf(run) + [SingleCluster(x)]
  {
    var run' := run + [x];
    assert run'[..|run'| - 1] == run;
    var cr := Runs(run, MethodKey);
    RunsLastElement(run, MethodKey);
    assert Runs(run', MethodKey) == cr + [[x]];
    assert (cr + [[x]])[..|cr|] == cr;
    SingleRow(x);
  }

  /** A row with a new score opens a tier holding its cluster. */
  lemma TiersNewScore(xs: seq<RankedLine>, x: RankedLine)
    requires |xs| > 0 && Last(xs).score != x.score
    ensures ScoreTiers(xs + [x]) == ScoreTiers(xs) + [[SingleCluster(x)]]
  {
    var ys := xs + [x];
    assert ys[..|ys| - 1] == xs;
    var r := Runs(xs, ScoreKey);
    RunsLastElement(xs, ScoreKey);
    assert Runs(ys, ScoreKey) == r + [[x]];
    assert (r + [[x]])[..|r|] == r;
    SingleRow(x);
  }

  /** A row with the last row's score goes into the last tier, whose rows are the last run. */
  lemma TiersSameScore(xs: seq<RankedLine>, x: RankedLine)
    requires |xs| > 0 && Last(xs).score == x.score
    ensures |Runs(xs, ScoreKey)| > 0 && Last(Last(Runs(xs, ScoreKey))) == Last(xs)
    ensures |ScoreTiers(xs)| > 0 && Last(ScoreTiers(xs)) == ClustersOf(Last(Runs(xs, ScoreKey)))
    ensures ScoreTiers(xs + [x]) ==
      ScoreTiers(xs)[..|ScoreTiers(xs)| - 1] + [ClustersOf(Last(Runs(xs, ScoreKey)) + [x])]
  {
    var ys := xs + [x];
    assert ys[..|ys| - 1] == xs;
    var r := Runs(xs, ScoreKey);
    RunsLastElement(xs, ScoreKey);
    var run' := Last(r) + [x];
    assert Runs(ys, ScoreKey) == r[..|r| - 1] + [run'];
    assert (r[..|r| - 1] + [run'])[..|r| - 1] == r[..|r| - 1];
  }

  /** The last element of the sequence ends the last run. */
  lemma RunsLastElement<T, K>(xs: seq<T>, key: T -> K)
    requires |xs| > 0
    ensures |Runs(xs, key)| > 0 && Last(Last(Runs(xs, key))) == Last(xs)
  {
  }

  /** The rows consumed so far in front of what the rest of the file reads to. */
  function Prepend(done: seq<RankedLine>, rest: Result<(seq<RankedLine>, bool)>): Result<(seq<RankedLine>, bool)> {
    match rest
    case Ok(more) => Ok((done + more.0, more.1))
    case Err(e) => Err(e)
  }

  /** With nothing after them, the rows consumed are all that is read. */
  lemma ReadRankedFrom(rows: seq<string>, i: nat, done: seq<RankedLine>)
    requires i <= |rows|
    ensures done == [] ==> Prepend(done, ReadRanked(rows, i)) == ReadRanked(rows, i)
    ensures ReadRanked(rows, i).Ok? && ReadRanked(rows, i).value.0 == [] ==>
      Prepend(done, ReadRanked(rows, i)) == Ok((done, ReadRanked(rows, i).value.1))
  {
    if ReadRanked(rows, i).Ok? {
      var more := ReadRanked(rows, i).value;
      assert [] + more.0 == more.0;
      assert done + [] == done;
    }
  }

  /** At an empty row, or a matched row scored "0.0", the rows consumed are all that is read. */
  lemma ReadRankedStop(rows: seq<string>, i: nat, done: seq<RankedLine>)
    requires i <= |rows|
    requires RowAt(rows, i) == "" ||
      (MatchRankedLine(RowAt(rows, i)).Some? && MatchRankedLine(RowAt(rows, i)).value.score == "0.0")
    ensures Prepend(done, ReadRanked(rows, i)) ==
      Ok((done, RowAt(rows, i) != ""))
  {
    assert ReadRanked(rows, i) == Ok(([], RowAt(rows, i) != ""));
    assert done + [] == done;
  }

  /** Consuming a matched row that is not scored "0.0" moves it from what is left to read to the
      rows consumed. */
  lemma ReadRankedStep(rows: seq<string>, i: nat, x: RankedLine, done: seq<RankedLine>)
    requires i < |rows| && RowAt(rows, i) != "" && MatchRankedLine(RowAt(rows, i)) == Some(x)
    requires x.score != "0.0"
    ensures Prepend(done, ReadRanked(rows, i)) == Prepend(done + [x], ReadRanked(rows, i + 1))
  {
    if ReadRanked(rows, i + 1).Ok? {
      var more := ReadRanked(rows, i + 1).value;
      assert ReadRanked(rows, i) == Ok(([x] + more.0, more.1));
      assert done + ([x] + more.0) == (done + [x]) + more.0;
    }
  }

  /** The score the loop compares the next row with: the last row's, or "" before any. */
  function LastScore(consumed: seq<RankedLine>): string {
    if consumed == [] then "" else Last(consumed).score
  }

  /** The body of the loop once a tier has been opened for a new score: a row starts a cluster
      in an empty last tier, starts one after a cluster of another method, or else adds its line
      to the last cluster. The tiers become those of the rows with this one added. */
  method PlaceRow(ghost consumed: seq<RankedLine>, res: seq<seq<Cluster>>, x: RankedLine)
    returns (res': seq<seq<Cluster>>)
    requires res == TiersBefore(consumed, x)
    requires consumed != [] || x.score != ""
    ensures res' == ScoreTiers(consumed + [x])
  {
    PlaceRowCases(consumed, x);
    var tier := res[|res| - 1];
    if |tier| == 0 {
      res' := res[..|res| - 1] + [[SingleCluster(x)]];
    } else if tier[|tier| - 1].cls != x.cls || tier[|tier| - 1].meth != x.meth {
      res' := res[..|res| - 1] + [tier + [SingleCluster(x)]];
    } else {
      res' := res[..|res| - 1] + [ExtendLast(tier, x.line)];
    }
  }

  /** The three ways the loop places a row give `target`: a new cluster in an empty last tier,
      a new cluster after one of another method, or the row's line added to the last cluster. */
  predicate PlacesTo(res: seq<seq<Cluster>>, x: RankedLine, target: seq<seq<Cluster>>) {
    && |res| > 0
    && var tier := Last(res);
    && (|tier| == 0 ==> res[..|res| - 1] + [[SingleCluster(x)]] == target)
    && (|tier| > 0 && (Last(tier).cls != x.cls || Last(tier).meth != x.meth) ==>
          res[..|res| - 1] + [tier + [SingleCluster(x)]] == target)
    && (|tier| > 0 && Last(tier).cls == x.cls && Last(tier).meth == x.meth ==>
          res[..|res| - 1] + [ExtendLast(tier, x.line)] == target)
  }

  /** The tiers the loop has before placing `x`: those of the rows consumed, and an empty tier
      more when `x` opens a new score. */
  function TiersBefore(consumed: seq<RankedLine>, x: RankedLine): seq<seq<Cluster>> {
    ScoreTiers(consumed) + (if x.score != LastScore(consumed) then [[]] else [])
  }

  /** Placing a row as the loop does gives the tiers with the row added. */
  lemma PlaceRowCases(consumed: seq<RankedLine>, x: RankedLine)
    requires consumed != [] || x.score != ""
    ensures PlacesTo(TiersBefore(consumed, x), x, ScoreTiers(consumed + [x]))
  {
    if consumed == [] {
      PlaceFirst(consumed, x);
    } else if x.score != LastScore(consumed) {
      PlaceNewScore(consumed, x);
    } else {
      PlaceSameScore(consumed, x);
    }
  }

  /** The first row opens the first tier's first cluster. */
  lemma PlaceFirst(consumed: seq<RankedLine>, x: RankedLine)
    requires consumed == [] && x.score != ""
    ensures PlacesTo(TiersBefore(consumed, x), x, ScoreTiers(consumed + [x]))
  {
    SingleRow(x);
    assert consumed + [x] == [x];
    assert TiersBefore(consumed, x) == [[]];
  }

  /** A row with a new score opens a cluster in the empty tier opened for it. */
  lemma PlaceNewScore(consumed: seq<RankedLine>, x: RankedLine)
    requires consumed != [] && x.score != LastScore(consumed)
    ensures PlacesTo(TiersBefore(consumed, x), x, ScoreTiers(consumed + [x]))
  {
    TiersNewScore(consumed, x);
    var res := TiersBefore(consumed, x);
    assert res == ScoreTiers(consumed) + [[]];
    assert res[..|res| - 1] == ScoreTiers(consumed);
  }

  /** A row with the last row's score extends the last tier by the clustering step. */
  lemma PlaceSameScore(consumed: seq<RankedLine>, x: RankedLine)
    requires consumed != [] && x.score == LastScore(consumed)
    ensures PlacesTo(TiersBefore(consumed, x), x, ScoreTiers(consumed + [x]))
  {
    TiersSameScore(consumed, x);
    ClustersStep(Last(Runs(consumed, ScoreKey)), x);
    assert TiersBefore(consumed, x) == ScoreTiers(consumed);
  }

  /** The part of the loop of `parse_sbfl_version_2` that appends a matched row `x`, not scored
      "0.0", to the last tier (opened for it when its score is new): IndexError when there is no
      tier at all. */
  method AddTieredRow(ghost rows: seq<string>, ghost i: nat, ghost consumed: seq<RankedLine>,
                      res: seq<seq<Cluster>>, x: RankedLine)
    returns (r: Result<seq<seq<Cluster>>>)
    requires 1 <= i < |rows| && RowAt(rows, i) != "" && MatchRankedLine(rows[i]) == Some(x)
    requires |consumed| == i - 1 && (i > 1 ==> !UnscoredFirstRow(rows))
    requires res == TiersBefore(consumed, x)
    ensures r.Err? ==> r == TieredOfRows(rows)
    ensures r.Ok? ==> r.value == ScoreTiers(consumed + [x]) && !UnscoredFirstRow(rows)
  {
    if |res| == 0 {
      TieredUnscored(rows, i, consumed, x);
      return Err(IndexError("list index out of range"));
    }
    var res' := PlaceRow(consumed, res, x);
    return Ok(res');
  }

  /** `parse_sbfl_version_2`: the while-loop over the rows; a row that does not match raises
      ValueError, a new score opens a tier, a "0.0" score ends the parse. */
  method ParseTiered(content: string) returns (r: Result<seq<seq<Cluster>>>)
    ensures r == ParseTieredSpec(content)
  {
    r := ParseTieredRows(Lines(content));
  }

  /** The loop of `parse_sbfl_version_2` over the file's rows. */
  method ParseTieredRows(rows: seq<string>) returns (r: Result<seq<seq<Cluster>>>)
    requires |rows| >= 1
    ensures r == TieredOfRows(rows)
  {
    var res: seq<seq<Cluster>> := [];
    var lastScore := "";
    ghost var consumed: seq<RankedLine> := [];
    var i := 1;
    ReadRankedFrom(rows, 1, []);
    while RowAt(rows, i) != ""
      invariant TieredLoop(rows, i, consumed)
      invariant res == ScoreTiers(consumed)
      invariant lastScore == LastScore(consumed) && lastScore != "0.0"
      decreases |rows| - i
    {
      var row := rows[i];
      var m := MatchRankedLine(row);
      if m.None? {
        TieredNoMatch(rows, i, consumed);
        return Err(ValueError("Failed to parse line: " + row));
      }
      var x := m.value;
      if x.score != lastScore {
        res := res + [[]];
      }
      if x.score == "0.0" {
        TieredStops(rows, i, consumed);
        return Ok(res);
      }
      var placed := AddTieredRow(rows, i, consumed, res, x);
      if placed.Err? {
        return placed;
      }
      res := placed.value;
      ReadRankedStep(rows, i, x, consumed);
      lastScore := x.score;
      consumed := consumed + [x];
      i := i + 1;
    }
    TieredStops(rows, i, consumed);
    return Ok(res);
  }
}
