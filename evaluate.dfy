/** The localization evaluator: the ranks at which a bug's ground-truth method appears among the
    score tiers, and the Top-N, MFR and MAR figures aggregated over a corpus of bugs. Reading and
    writing the JSON files is replaced by parameters and return values. */
module Evaluate {
  import opened Wrappers
  import opened Strings
  import Sbfl
  import opened Dicts

  /** Tiers of clusters as `parse_sbfl_version_2` returns them, best tier first. */
  type Tiers = seq<seq<Sbfl.Cluster>>

  // ---------------------------------------------------------------------------------
  // evaluate_sf and evaluate_mf

  /** A single-function ground truth: `{loc, method_signature: {method_name}, start, end}`. */
  datatype BuggyMethod = BuggyMethod(loc: string, methodName: string, start: int, end: int)

  /** One function of a multi-function ground truth: `{path, start_loc, end_loc}`. */
  datatype BuggyFunc = BuggyFunc(path: string, startLoc: int, endLoc: int)

  /** What a cluster is compared with: a class name, a method name (compared only when present)
      and an inclusive line range. */
  datatype Target = Target(cls: string, meth: Option<string>, start: int, end: int)

  /** `loc.split("/")[-1].split(".")[0]`: the file name up to its first '.'. */
  function ClassOfPath(loc: string): string {
    var pieces := SplitOn(loc, "/");
    SplitOn(pieces[|pieces| - 1], ".")[0]
  }

  /** A path ending in `/<name>.<ext>` names the class `name`. */
  lemma ClassOfJavaPath(dir: string, name: string, ext: string)
    requires '/' !in name && '/' !in ext && '.' !in name
    ensures ClassOfPath(dir + "/" + name + "." + ext) == name
  {
    var file := name + "." + ext;
    assert '/' !in file;
    assert dir + "/" + name + "." + ext == dir + ['/'] + file;
    SplitOnLast(dir, '/', file);
    FindCharAfter(name, '.', ext);
    SplitOnStep(file, ".", |name|);
    assert file[..|name|] == name;
  }

  /** The target of a single-function bug. */
  function SingleTarget(b: BuggyMethod): Target {
    Target(ClassOfPath(b.loc), Some(b.methodName), b.start, b.end)
  }

  /** The target of one function of a multi-function bug: the method name is not compared. */
  function MultiTarget(f: BuggyFunc): Target {
    Target(ClassOfPath(f.path), None, f.startLoc, f.endLoc)
  }

  /** The condition tested on one line number of a cluster. */
  predicate LineHits(c: Sbfl.Cluster, t: Target, line: int) {
    c.cls == t.cls && (t.meth.None? || c.meth == t.meth.value) && t.start <= line <= t.end
  }

  /** A cluster matches when the condition holds for one of its line numbers. */
  predicate Hits(c: Sbfl.Cluster, t: Target) {
    exists k | 0 <= k < |c.lines| :: LineHits(c, t, c.lines[k])
  }

  /** `rank` once for each cluster of the tier that matches, in tier order. */
  function TierRanks(tier: seq<Sbfl.Cluster>, rank: nat, t: Target): (r: seq<nat>)
    ensures forall k | 0 <= k < |r| :: r[k] == rank
  {
    if |tier| == 0 then []
    else TierRanks(tier[..|tier| - 1], rank, t) + (if Hits(tier[|tier| - 1], t) then [rank] else [])
  }

  /** The match list: the 1-based rank of every matching cluster, tier by tier. */
  function Ranks(tiers: Tiers, t: Target): seq<nat> {
    if |tiers| == 0 then []
    else Ranks(tiers[..|tiers| - 1], t) + TierRanks(tiers[|tiers| - 1], |tiers|, t)
  }

  /** The positions of the matching clusters of a tier. */
  function HitSet(tier: seq<Sbfl.Cluster>, t: Target): set<nat> {
    set k: nat | k < |tier| && Hits(tier[k], t)
  }

  /** Each matching cluster of a tier contributes its rank once. */
  lemma {:induction false} TierRanksCount(tier: seq<Sbfl.Cluster>, rank: nat, t: Target)
    ensures |TierRanks(tier, rank, t)| == |HitSet(tier, t)|
    decreases |tier|
  {
    if |tier| > 0 {
      var n := |tier| - 1;
      TierRanksCount(tier[..n], rank, t);
      var front := tier[..n];
      var before := HitSet(front, t);
      assert forall k: nat | k < n :: front[k] == tier[k];
      assert n !in before;
      if Hits(tier[n], t) {
        assert HitSet(tier, t) == before + {n};
        assert TierRanks(tier, rank, t) == TierRanks(front, rank, t) + [rank];
      } else {
        assert HitSet(tier, t) == before;
        assert TierRanks(tier, rank, t) == TierRanks(front, rank, t) + [];
      }
    }
  }

  /** The match list is non-decreasing and its ranks lie in 1..len(tiers). */
  lemma {:induction false} RanksShape(tiers: Tiers, t: Target)
    ensures forall k | 0 <= k < |Ranks(tiers, t)| :: 1 <= Ranks(tiers, t)[k] <= |tiers|
    ensures forall i, j | 0 <= i <= j < |Ranks(tiers, t)| :: Ranks(tiers, t)[i] <= Ranks(tiers, t)[j]
    decreases |tiers|
  {
    if |tiers| > 0 {
      RanksShape(tiers[..|tiers| - 1], t);
    }
  }

  /** Rank `r` occurs in the match list once for every matching cluster of tier `r`, and no other
      number occurs; so a tier whose clusters match several times repeats its rank. */
  lemma {:induction false} RanksCount(tiers: Tiers, t: Target, r: nat)
    ensures multiset(Ranks(tiers, t))[r] == if 1 <= r <= |tiers| then |HitSet(tiers[r - 1], t)| else 0
    decreases |tiers|
  {
    if |tiers| > 0 {
      var n := |tiers|;
      var front := tiers[..n - 1];
      RanksCount(front, t, r);
      var last := TierRanks(tiers[n - 1], n, t);
      TierRanksCount(tiers[n - 1], n, t);
      ConstantCount(last, n, r);
      assert multiset(Ranks(tiers, t)) == multiset(Ranks(front, t)) + multiset(last);
      if 1 <= r < n {
        assert front[r - 1] == tiers[r - 1];
      }
    }
  }

  /** In a sequence holding only `v`, `v` occurs `|s|` times and nothing else occurs. */
  lemma {:induction false} ConstantCount(s: seq<nat>, v: nat, r: nat)
    requires forall k | 0 <= k < |s| :: s[k] == v
    ensures multiset(s)[r] == if r == v then |s| else 0
    decreases |s|
  {
    if |s| > 0 {
      ConstantCount(s[..|s| - 1], v, r);
      assert s == s[..|s| - 1] + [s[|s| - 1]];
    }
  }

  /** Some cluster of the tier matches. */
  predicate AnyHit(tier: seq<Sbfl.Cluster>, t: Target) {
    exists k | 0 <= k < |tier| :: Hits(tier[k], t)
  }

  /** A rank is in the match list iff the tier of that rank has a matching cluster. */
  lemma RanksMember(tiers: Tiers, t: Target, r: nat)
    ensures r in Ranks(tiers, t) <==> 1 <= r <= |tiers| && AnyHit(tiers[r - 1], t)
  {
    RanksCount(tiers, t, r);
    if 1 <= r <= |tiers| && AnyHit(tiers[r - 1], t) {
      var k :| 0 <= k < |tiers[r - 1]| && Hits(tiers[r - 1][k], t);
      assert k in HitSet(tiers[r - 1], t);
    }
  }

  /** The inner `for line_number in line_numbers` loop: stops at the first line that satisfies
      the condition. */
  method ClusterHits(c: Sbfl.Cluster, t: Target) returns (hit: bool)
    ensures hit == Hits(c, t)
  {
    hit := false;
    var k := 0;
    while k < |c.lines| && !hit
      invariant 0 <= k <= |c.lines|
      invariant hit ==> Hits(c, t)
      invariant !hit ==> forall j | 0 <= j < k :: !LineHits(c, t, c.lines[j])
    {
      if LineHits(c, t, c.lines[k]) {
        hit := true;
      }
      k := k + 1;
    }
  }

  /** The loops of `evaluate_sf` and `evaluate_mf`: one rank appended per matching cluster. */
  method RankMatches(tiers: Tiers, t: Target) returns (matches: seq<nat>)
    ensures matches == Ranks(tiers, t)
  {
    matches := [];
    for r := 0 to |tiers|
      invariant matches == Ranks(tiers[..r], t)
    {
      var tier := tiers[r];
      for j := 0 to |tier|
        invariant matches == Ranks(tiers[..r], t) + TierRanks(tier[..j], r + 1, t)
      {
        var hit := ClusterHits(tier[j], t);
        assert tier[..j + 1][..j] == tier[..j];
        if hit {
          matches := matches + [r + 1];
        }
      }
      assert tier[..|tier|] == tier;
      assert tiers[..r + 1][..r] == tiers[..r];
    }
    assert tiers[..|tiers|] == tiers;
  }

  /** `evaluate_sf`: the match list of a single-function bug. */
  method EvaluateSingle(tiers: Tiers, bug: BuggyMethod) returns (matches: seq<nat>)
    ensures matches == Ranks(tiers, SingleTarget(bug))
  {
    matches := RankMatches(tiers, SingleTarget(bug));
  }

  /** `evaluate_mf`: one match list per buggy function, in the order of the functions. */
  method EvaluateMulti(tiers: Tiers, funcs: seq<BuggyFunc>) returns (matches: seq<seq<nat>>)
    ensures |matches| == |funcs|
    ensures forall k | 0 <= k < |funcs| :: matches[k] == Ranks(tiers, MultiTarget(funcs[k]))
  {
    matches := [];
    for k := 0 to |funcs|
      invariant |matches| == k
      invariant forall h | 0 <= h < k :: matches[h] == Ranks(tiers, MultiTarget(funcs[h]))
    {
      var funcRes := RankMatches(tiers, MultiTarget(funcs[k]));
      matches := matches + [funcRes];
    }
  }

  // ---------------------------------------------------------------------------------
  // evaluate_all_sf and evaluate_all_mf

  /** One entry of `ALL_BUGS`: a project, its bug ids and the ids marked deprecated. */
  datatype ProjectBugs = ProjectBugs(name: string, bugIds: seq<nat>, deprecated: seq<nat>)

  /** The counters `top_1`, `top_3`, `top_5`, `top_10` and `total` of one project. */
  datatype Counts = Counts(top1: nat, top3: nat, top5: nat, top10: nat, total: nat)

  const NoCounts := Counts(0, 0, 0, 0, 0)

  /** Every Top-N bucket is contained in the next one, and all in the total. */
  predicate Ordered(c: Counts) {
    c.top1 <= c.top3 <= c.top5 <= c.top10 <= c.total
  }

  /** Every counter is zero. */
  predicate AllZero(c: Counts) {
    c.top1 == 0 && c.top3 == 0 && c.top5 == 0 && c.top10 == 0 && c.total == 0
  }

  /** The counters after one more counted bug whose first rank is `first` (`None`: no match). */
  function AddBug(c: Counts, first: Option<int>): (r: Counts)
    ensures r.total == c.total + 1
    ensures Ordered(c) ==> Ordered(r)
    ensures first.None? ==> r.top1 == c.top1 && r.top3 == c.top3 && r.top5 == c.top5 && r.top10 == c.top10
    ensures first.Some? ==> r.top1 == c.top1 + (if first.value == 1 then 1 else 0)
    ensures first.Some? ==> r.top3 == c.top3 + (if first.value <= 3 then 1 else 0)
    ensures first.Some? ==> r.top5 == c.top5 + (if first.value <= 5 then 1 else 0)
    ensures first.Some? ==> r.top10 == c.top10 + (if first.value <= 10 then 1 else 0)
  {
    match first
    case None => c.(total := c.total + 1)
    case Some(f) =>
      Counts(c.top1 + (if f == 1 then 1 else 0), c.top3 + (if f <= 3 then 1 else 0),
             c.top5 + (if f <= 5 then 1 else 0), c.top10 + (if f <= 10 then 1 else 0), c.total + 1)
  }

  /** Ordered counters are all zero exactly when the total is. */
  lemma AllZeroTotal(c: Counts)
    requires Ordered(c)
    ensures AllZero(c) <==> c.total == 0
  {
  }

  const Version: string := "GrowingBugs"

  /** `os.path.join(res_path, version, proj, f"{proj}-{bug_id}", "result.json")`. */
  function ResultPath(resPath: string, proj: string, bug: nat): string {
    PathJoinAll(resPath, [Version, proj, proj + "-" + NatToString(bug), "result.json"])
  }

  /** `os.path.join(patches_path, f"{proj}-{bug_id}-validated.jsonl")`. */
  function PatchPath(patchesPath: string, proj: string, bug: nat): string {
    PathJoin(patchesPath, proj + "-" + NatToString(bug) + "-validated.jsonl")
  }

  /** The names of the projects whose counters are all zero, in project order. */
  function ZeroNames(topN: seq<(string, Counts)>): seq<string> {
    if |topN| == 0 then []
    else ZeroNames(topN[..|topN| - 1]) + (if AllZero(topN[|topN| - 1].1) then [topN[|topN| - 1].0] else [])
  }

  /** The inner loop over a project's counters: true unless one of them is non-zero. */
  method IsAllZero(c: Counts) returns (allZero: bool)
    ensures allZero == AllZero(c)
  {
    var values := [c.top1, c.top3, c.top5, c.top10, c.total];
    allZero := true;
    var k := 0;
    while k < |values| && allZero
      invariant 0 <= k <= |values|
      invariant allZero <==> forall j | 0 <= j < k :: values[j] == 0
    {
      if values[k] != 0 {
        allZero := false;
      }
      k := k + 1;
    }
    assert values[0] == c.top1 && values[1] == c.top3 && values[2] == c.top5;
    assert values[3] == c.top10 && values[4] == c.total;
    assert AllZero(c) <==> forall j | 0 <= j < |values| :: values[j] == 0;
  }

  /** The first loop of the clean-up: the names of the all-zero projects. */
  method CollectZeroNames(topN: seq<(string, Counts)>) returns (names: seq<string>)
    ensures names == ZeroNames(topN)
  {
    names := [];
    for i := 0 to |topN|
      invariant names == ZeroNames(topN[..i])
    {
      var allZero := IsAllZero(topN[i].1);
      assert topN[..i + 1][..i] == topN[..i];
      if allZero {
        names := names + [topN[i].0];
      }
    }
    assert topN[..|topN|] == topN;
  }

  /** The second loop of the clean-up: `del d[proj]` for each collected name. */
  method DeleteNames<V>(d: seq<(string, V)>, names: seq<string>) returns (r: seq<(string, V)>)
    ensures r == Without(d, names)
  {
    r := d;
    WithoutNone(d);
    for i := 0 to |names|
      invariant r == Without(d, names[..i])
    {
      WithoutStep(d, names, i);
      r := Without(r, [names[i]]);
    }
    assert names[..|names|] == names;
  }

  /** A bug `evaluate_all_*` counts: not deprecated, and its result file exists. */
  predicate Counted<V>(resPath: string, results: map<string, V>, p: ProjectBugs, bug: nat) {
    bug !in p.deprecated && ResultPath(resPath, p.name, bug) in results
  }

  /** The positions among the first `n` bug ids of the bugs that are counted. */
  function CountedSet<V>(resPath: string, results: map<string, V>, p: ProjectBugs, n: nat): set<nat>
    requires n <= |p.bugIds|
  {
    set j: nat | j < n && Counted(resPath, results, p, p.bugIds[j])
  }

  /** What the verbose report holds for one bug of a single-function run: the result's `matches`
      and, when a patch directory is given, the patch `status`. */
  datatype VerboseEntry = VerboseEntry(matches: seq<int>, status: Option<string>)

  /** The files `evaluate_all_sf` reads: each result file's `matches` by path, the patch directory
      ("" when none is given) and, by path, the `patch_status` of each patch in a patch file. */
  datatype SfFiles = SfFiles(resPath: string, results: map<string, seq<int>>,
                             patchesPath: string, patches: map<string, seq<string>>)

  /** A project's running state in `evaluate_all_sf`: its counters, `mfr_tmp`, `mar_tmp` and its
      verbose entries keyed by bug id. */
  datatype SfTally = SfTally(counts: Counts, firsts: seq<real>, avgs: seq<real>, verbose: seq<(string, VerboseEntry)>)

  function Sum(xs: seq<real>): real {
    if |xs| == 0 then 0.0 else Sum(xs[..|xs| - 1]) + xs[|xs| - 1]
  }

  function AsReals(xs: seq<int>): (r: seq<real>)
    ensures |r| == |xs|
  {
    seq(|xs|, k requires 0 <= k < |xs| => xs[k] as real)
  }

  /** `sum(xs) / len(xs)` when `xs` is non-empty, else `None`. */
  function MeanOf(xs: seq<real>): Option<real> {
    if |xs| == 0 then None else Some(Sum(xs) / (|xs| as real))
  }

  /** The first rank of a match list, if any. */
  function FirstOf(matches: seq<int>): Option<int> {
    if |matches| == 0 then None else Some(matches[0])
  }

  /** The `status` recorded for a bug: none without a patch directory, "NONE" without a patch
      file, "SUCCESS" when some patch is "PLAUSIBLE", else "FAILURE". */
  function PatchStatus(f: SfFiles, proj: string, bug: nat): Option<string> {
    if f.patchesPath == "" then None
    else
      var path := PatchPath(f.patchesPath, proj, bug);
      if path !in f.patches then Some("NONE")
      else if "PLAUSIBLE" in f.patches[path] then Some("SUCCESS")
      else Some("FAILURE")
  }

  /** One bug id of the inner loop of `evaluate_all_sf`. */
  function SfStep(t: SfTally, f: SfFiles, p: ProjectBugs, bug: nat): SfTally {
    if !Counted(f.resPath, f.results, p, bug) then t
    else
      var m := f.results[ResultPath(f.resPath, p.name, bug)];
      SfTally(AddBug(t.counts, FirstOf(m)),
              t.firsts + (if |m| > 0 then [m[0] as real] else []),
              t.avgs + (if |m| > 0 then [Sum(AsReals(m)) / (|m| as real)] else []),
              Put(t.verbose, NatToString(bug), VerboseEntry(m, PatchStatus(f, p.name, bug))))
  }

  /** A project's state after its first `n` bug ids. */
  function SfTallyOf(f: SfFiles, p: ProjectBugs, n: nat): SfTally
    requires n <= |p.bugIds|
  {
    if n == 0 then SfTally(NoCounts, [], [], [])
    else SfStep(SfTallyOf(f, p, n - 1), f, p, p.bugIds[n - 1])
  }

  /** The four dictionaries `evaluate_all_sf` writes out, each as its list of entries. */
  datatype SfReport = SfReport(topN: seq<(string, Counts)>, mfr: seq<(string, Option<real>)>,
                               mar: seq<(string, Option<real>)>, verbose: seq<(string, seq<(string, VerboseEntry)>)>)

  /** The report over the first `n` projects, before the all-zero projects are deleted. */
  function SfRaw(f: SfFiles, all: seq<ProjectBugs>, n: nat): SfReport
    requires n <= |all|
  {
    if n == 0 then SfReport([], [], [], [])
    else
      var r := SfRaw(f, all, n - 1);
      var p := all[n - 1];
      var t := SfTallyOf(f, p, |p.bugIds|);
      SfReport(r.topN + [(p.name, t.counts)], r.mfr + [(p.name, MeanOf(t.firsts))],
               r.mar + [(p.name, MeanOf(t.avgs))], r.verbose + [(p.name, t.verbose)])
  }

  /** The report of `evaluate_all_sf`: the all-zero projects are deleted from the Top-N, MFR and
      MAR dictionaries but stay in the verbose one. */
  function SfReportOf(f: SfFiles, all: seq<ProjectBugs>): SfReport {
    var r := SfRaw(f, all, |all|);
    var zero := ZeroNames(r.topN);
    r.(topN := Without(r.topN, zero), mfr := Without(r.mfr, zero), mar := Without(r.mar, zero))
  }

  /** The `for patch in patches` loop: whether some patch is "PLAUSIBLE". */
  method AnyPlausible(statuses: seq<string>) returns (found: bool)
    ensures found <==> "PLAUSIBLE" in statuses
  {
    found := false;
    for k := 0 to |statuses|
      invariant found <==> "PLAUSIBLE" in statuses[..k]
    {
      assert statuses[..k + 1] == statuses[..k] + [statuses[k]];
      if statuses[k] == "PLAUSIBLE" {
        found := true;
        break;
      }
    }
    assert statuses[..|statuses|] == statuses;
  }

  /** The inner loop of `evaluate_all_sf` over one project's bug ids. */
  method SfProject(f: SfFiles, p: ProjectBugs) returns (t: SfTally)
    ensures t == SfTallyOf(f, p, |p.bugIds|)
  {
    var counts := NoCounts;
    var firsts: seq<real> := [];
    var avgs: seq<real> := [];
    var verbose: seq<(string, VerboseEntry)> := [];
    for j := 0 to |p.bugIds|
      invariant SfTally(counts, firsts, avgs, verbose) == SfTallyOf(f, p, j)
    {
      var bug := p.bugIds[j];
      if bug in p.deprecated {
        continue;
      }
      var path := ResultPath(f.resPath, p.name, bug);
      if path !in f.results {
        continue;
      }
      var m := f.results[path];
      counts := counts.(total := counts.total + 1);
      if |m| > 0 {
        if m[0] == 1 {
          counts := counts.(top1 := counts.top1 + 1);
        }
        if m[0] <= 3 {
          counts := counts.(top3 := counts.top3 + 1);
        }
        if m[0] <= 5 {
          counts := counts.(top5 := counts.top5 + 1);
        }
        if m[0] <= 10 {
          counts := counts.(top10 := counts.top10 + 1);
        }
        firsts := firsts + [m[0] as real];
        avgs := avgs + [Sum(AsReals(m)) / (|m| as real)];
      }
      var status: Option<string> := None;
      if f.patchesPath != "" {
        var patchPath := PatchPath(f.patchesPath, p.name, bug);
        if patchPath in f.patches {
          var plausible := AnyPlausible(f.patches[patchPath]);
          status := if plausible then Some("SUCCESS") else Some("FAILURE");
        } else {
          status := Some("NONE");
        }
      }
      verbose := Put(verbose, NatToString(bug), VerboseEntry(m, status));
    }
    t := SfTally(counts, firsts, avgs, verbose);
  }

  /** `evaluate_all_sf`: the counters, MFR, MAR and verbose entries of every project, then the
      clean-up of the all-zero projects. */
  method EvaluateAllSingle(f: SfFiles, all: seq<ProjectBugs>) returns (report: SfReport)
    ensures report == SfReportOf(f, all)
  {
    var raw := SfReport([], [], [], []);
    for i := 0 to |all|
      invariant raw == SfRaw(f, all, i)
    {
      var p := all[i];
      var t := SfProject(f, p);
      var mfr := if |t.firsts| > 0 then Some(Sum(t.firsts) / (|t.firsts| as real)) else None;
      var mar := if |t.avgs| > 0 then Some(Sum(t.avgs) / (|t.avgs| as real)) else None;
      raw := SfReport(raw.topN + [(p.name, t.counts)], raw.mfr + [(p.name, mfr)],
                      raw.mar + [(p.name, mar)], raw.verbose + [(p.name, t.verbose)]);
    }
    var zero := CollectZeroNames(raw.topN);
    var topN := DeleteNames(raw.topN, zero);
    var mfr := DeleteNames(raw.mfr, zero);
    var mar := DeleteNames(raw.mar, zero);
    report := SfReport(topN, mfr, mar, raw.verbose);
  }

  /** The counters of a project are always ordered: top_1 <= top_3 <= top_5 <= top_10 <= total. */
  lemma {:induction false} SfOrdered(f: SfFiles, p: ProjectBugs, n: nat)
    requires n <= |p.bugIds|
    ensures Ordered(SfTallyOf(f, p, n).counts)
  {
    if n > 0 {
      SfOrdered(f, p, n - 1);
    }
  }

  /** The positions among the first `n` bug ids of the counted bugs whose match list is non-empty. */
  function MatchedSet(f: SfFiles, p: ProjectBugs, n: nat): set<nat>
    requires n <= |p.bugIds|
  {
    PositionsWhere(p.bugIds, (bug: nat) => MatchedBug(f, p, bug), n)
  }

  /** A counted bug whose result file lists at least one match. */
  predicate MatchedBug(f: SfFiles, p: ProjectBugs, bug: nat) {
    Counted(f.resPath, f.results, p, bug) && |f.results[ResultPath(f.resPath, p.name, bug)]| > 0
  }

  /** The positions among the first `n` of `ids` whose id satisfies `keep`. */
  function PositionsWhere(ids: seq<nat>, keep: nat -> bool, n: nat): set<nat>
    requires n <= |ids|
  {
    set j: nat | j < n && keep(ids[j])
  }

  lemma PositionsGrow(ids: seq<nat>, keep: nat -> bool, n: nat)
    requires 0 < n <= |ids|
    ensures |PositionsWhere(ids, keep, n)| == |PositionsWhere(ids, keep, n - 1)| + (if keep(ids[n - 1]) then 1 else 0)
  {
    var before := PositionsWhere(ids, keep, n - 1);
    if keep(ids[n - 1]) {
      assert PositionsWhere(ids, keep, n) == before + {n - 1};
    } else {
      assert PositionsWhere(ids, keep, n) == before;
    }
  }

  /** `total` counts every bug that is not deprecated and has a result file; MFR and MAR take one
      value from each such bug with a non-empty match list. */
  lemma {:induction false} SfSizes(f: SfFiles, p: ProjectBugs, n: nat)
    requires n <= |p.bugIds|
    ensures SfTallyOf(f, p, n).counts.total == |CountedSet(f.resPath, f.results, p, n)|
    ensures |SfTallyOf(f, p, n).firsts| == |SfTallyOf(f, p, n).avgs| == |MatchedSet(f, p, n)|
  {
    if n > 0 {
      SfSizes(f, p, n - 1);
      SfStepSizes(SfTallyOf(f, p, n - 1), f, p, p.bugIds[n - 1]);
      CountedGrows(f.resPath, f.results, p, n);
      MatchedGrows(f, p, n);
    }
  }

  lemma SfStepSizes(t: SfTally, f: SfFiles, p: ProjectBugs, bug: nat)
    ensures var t' := SfStep(t, f, p, bug);
      var c := Counted(f.resPath, f.results, p, bug);
      var matched := c && |f.results[ResultPath(f.resPath, p.name, bug)]| > 0;
      t'.counts.total == t.counts.total + (if c then 1 else 0) &&
      |t'.firsts| == |t.firsts| + (if matched then 1 else 0) &&
      |t'.avgs| == |t.avgs| + (if matched then 1 else 0)
  {
  }

  lemma CountedGrows<V>(resPath: string, results: map<string, V>, p: ProjectBugs, n: nat)
    requires 0 < n <= |p.bugIds|
    ensures |CountedSet(resPath, results, p, n)| == |CountedSet(resPath, results, p, n - 1)| +
      (if Counted(resPath, results, p, p.bugIds[n - 1]) then 1 else 0)
  {
    var before := CountedSet(resPath, results, p, n - 1);
    if Counted(resPath, results, p, p.bugIds[n - 1]) {
      assert CountedSet(resPath, results, p, n) == before + {n - 1};
    } else {
      assert CountedSet(resPath, results, p, n) == before;
    }
  }

  lemma MatchedGrows(f: SfFiles, p: ProjectBugs, n: nat)
    requires 0 < n <= |p.bugIds|
    ensures var bug := p.bugIds[n - 1];
      |MatchedSet(f, p, n)| == |MatchedSet(f, p, n - 1)| +
      (if Counted(f.resPath, f.results, p, bug) && |f.results[ResultPath(f.resPath, p.name, bug)]| > 0 then 1 else 0)
  {
    PositionsGrow(p.bugIds, (bug: nat) => MatchedBug(f, p, bug), n);
  }

  /** MFR and MAR are `None` exactly when no counted bug of the project has a match. */
  lemma SfMeansNone(f: SfFiles, p: ProjectBugs)
    ensures MeanOf(SfTallyOf(f, p, |p.bugIds|).firsts).None? <==> MatchedSet(f, p, |p.bugIds|) == {}
    ensures MeanOf(SfTallyOf(f, p, |p.bugIds|).avgs).None? <==> MatchedSet(f, p, |p.bugIds|) == {}
  {
    SfSizes(f, p, |p.bugIds|);
  }

  /** The positions of the values at most `bound` in `xs`. */
  function AtMost(xs: seq<real>, bound: real): set<nat> {
    set k: nat | k < |xs| && xs[k] <= bound
  }

  /** The positions of the value 1 in `xs`. */
  function Ones(xs: seq<real>): set<nat> {
    set k: nat | k < |xs| && xs[k] == 1.0
  }

  /** The Top-N buckets are decided by the first ranks collected for MFR: top_1 counts those equal
      to 1 and top_N those at most N. */
  lemma {:induction false} SfTopCounts(f: SfFiles, p: ProjectBugs, n: nat)
    requires n <= |p.bugIds|
    ensures var t := SfTallyOf(f, p, n);
      t.counts.top1 == |Ones(t.firsts)| && t.counts.top3 == |AtMost(t.firsts, 3.0)| &&
      t.counts.top5 == |AtMost(t.firsts, 5.0)| && t.counts.top10 == |AtMost(t.firsts, 10.0)|
  {
    if n > 0 {
      SfTopCounts(f, p, n - 1);
      SfStepTop(SfTallyOf(f, p, n - 1), f, p, p.bugIds[n - 1]);
    }
  }

  /** One bug keeps the counters in step with the first ranks. */
  lemma SfStepTop(t: SfTally, f: SfFiles, p: ProjectBugs, bug: nat)
    requires t.counts.top1 == |Ones(t.firsts)| && t.counts.top3 == |AtMost(t.firsts, 3.0)|
    requires t.counts.top5 == |AtMost(t.firsts, 5.0)| && t.counts.top10 == |AtMost(t.firsts, 10.0)|
    ensures var t' := SfStep(t, f, p, bug);
      t'.counts.top1 == |Ones(t'.firsts)| && t'.counts.top3 == |AtMost(t'.firsts, 3.0)| &&
      t'.counts.top5 == |AtMost(t'.firsts, 5.0)| && t'.counts.top10 == |AtMost(t'.firsts, 10.0)|
  {
    if Counted(f.resPath, f.results, p, bug) {
      var m := f.results[ResultPath(f.resPath, p.name, bug)];
      if |m| > 0 {
        var x := m[0] as real;
        GrowOnes(t.firsts, x);
        GrowAtMost(t.firsts, x, 3.0);
        GrowAtMost(t.firsts, x, 5.0);
        GrowAtMost(t.firsts, x, 10.0);
      } else {
        assert t.firsts + [] == t.firsts;
      }
    }
  }

  lemma GrowAtMost(xs: seq<real>, x: real, bound: real)
    ensures |AtMost(xs + [x], bound)| == |AtMost(xs, bound)| + (if x <= bound then 1 else 0)
  {
    var ys := xs + [x];
    if x <= bound {
      assert AtMost(ys, bound) == AtMost(xs, bound) + {|xs|};
    } else {
      assert AtMost(ys, bound) == AtMost(xs, bound);
    }
  }

  lemma GrowOnes(xs: seq<real>, x: real)
    ensures |Ones(xs + [x])| == |Ones(xs)| + (if x == 1.0 then 1 else 0)
  {
    var ys := xs + [x];
    if x == 1.0 {
      assert Ones(ys) == Ones(xs) + {|xs|};
    } else {
      assert Ones(ys) == Ones(xs);
    }
  }

  /** A name is collected iff some entry with that name has all counters zero. */
  lemma {:induction false} ZeroNamesMember(topN: seq<(string, Counts)>, name: string)
    ensures name in ZeroNames(topN) <==> exists k | 0 <= k < |topN| :: topN[k].0 == name && AllZero(topN[k].1)
    decreases |topN|
  {
    if |topN| > 0 {
      var n := |topN| - 1;
      ZeroNamesMember(topN[..n], name);
      if exists k | 0 <= k < n :: topN[..n][k].0 == name && AllZero(topN[..n][k].1) {
        var k :| 0 <= k < n && topN[..n][k].0 == name && AllZero(topN[..n][k].1);
        assert topN[k] == topN[..n][k];
      }
      if exists k | 0 <= k < |topN| :: topN[k].0 == name && AllZero(topN[k].1) {
        var k :| 0 <= k < |topN| && topN[k].0 == name && AllZero(topN[k].1);
        if k < n {
          assert topN[..n][k] == topN[k];
        }
      }
    }
  }

  /** Before the clean-up: one entry per project, in project order, with the same keys in the
      Top-N, MFR and MAR dicts, and the project's own counters. */
  lemma {:induction false} SfRawShape(f: SfFiles, all: seq<ProjectBugs>, n: nat)
    requires n <= |all|
    ensures var r := SfRaw(f, all, n);
      |r.topN| == n && Keys(r.mfr) == Keys(r.topN) && Keys(r.mar) == Keys(r.topN) &&
      forall k | 0 <= k < n :: r.topN[k] == (all[k].name, SfTallyOf(f, all[k], |all[k].bugIds|).counts)
  {
    if n > 0 {
      SfRawShape(f, all, n - 1);
      var r := SfRaw(f, all, n - 1);
      var p := all[n - 1];
      var t := SfTallyOf(f, p, |p.bugIds|);
      var r' := SfRaw(f, all, n);
      assert r'.topN == r.topN + [(p.name, t.counts)];
      assert r'.mfr == r.mfr + [(p.name, MeanOf(t.firsts))];
      assert r'.mar == r.mar + [(p.name, MeanOf(t.avgs))];
      KeysAppend(r.topN, (p.name, t.counts));
      KeysAppend(r.mfr, (p.name, MeanOf(t.firsts)));
      KeysAppend(r.mar, (p.name, MeanOf(t.avgs)));
    }
  }

  /** The project names of `ALL_BUGS`, a dict, are distinct. */
  predicate DistinctNames(all: seq<ProjectBugs>) {
    forall i, j | 0 <= i < j < |all| :: all[i].name != all[j].name
  }

  /** The clean-up keeps exactly the entries with a non-zero total, when every entry's counters
      are ordered and the keys are distinct. */
  lemma CleanupKeeps(topN: seq<(string, Counts)>)
    requires forall k | 0 <= k < |topN| :: Ordered(topN[k].1)
    requires forall i, j | 0 <= i < j < |topN| :: topN[i].0 != topN[j].0
    ensures forall e | e in Without(topN, ZeroNames(topN)) :: e.1.total > 0
    ensures forall i | 0 <= i < |topN| :: topN[i] in Without(topN, ZeroNames(topN)) <==> topN[i].1.total > 0
  {
    var zero := ZeroNames(topN);
    forall e | e in Without(topN, zero)
      ensures e.1.total > 0
    {
      WithoutMember(topN, zero, e);
      ZeroNamesMember(topN, e.0);
      AllZeroTotal(e.1);
    }
    forall i | 0 <= i < |topN|
      ensures topN[i] in Without(topN, zero) <==> topN[i].1.total > 0
    {
      var e := topN[i];
      WithoutMember(topN, zero, e);
      ZeroNamesMember(topN, e.0);
      AllZeroTotal(e.1);
      if e.0 in zero {
        var k :| 0 <= k < |topN| && topN[k].0 == e.0 && AllZero(topN[k].1);
        assert k == i;
      }
    }
  }

  /** After the clean-up the Top-N dict holds exactly the projects with a non-zero total, with their
      counters, and the MFR and MAR dicts hold the same projects. */
  lemma SfKept(f: SfFiles, all: seq<ProjectBugs>)
    requires DistinctNames(all)
    ensures forall e | e in SfReportOf(f, all).topN :: e.1.total > 0
    ensures forall i | 0 <= i < |all| ::
      var c := SfTallyOf(f, all[i], |all[i].bugIds|).counts;
      (all[i].name, c) in SfReportOf(f, all).topN <==> c.total > 0
    ensures Keys(SfReportOf(f, all).mfr) == Keys(SfReportOf(f, all).topN)
    ensures Keys(SfReportOf(f, all).mar) == Keys(SfReportOf(f, all).topN)
  {
    var r := SfRaw(f, all, |all|);
    var zero := ZeroNames(r.topN);
    SfRawShape(f, all, |all|);
    WithoutKeys(r.mfr, r.topN, zero);
    WithoutKeys(r.mar, r.topN, zero);
    forall k | 0 <= k < |all|
      ensures Ordered(r.topN[k].1)
    {
      SfOrdered(f, all[k], |all[k].bugIds|);
    }
    CleanupKeeps(r.topN);
  }

  /** The files `evaluate_all_mf` reads: each result file's `matches`, one rank list per function. */
  datatype MfFiles = MfFiles(resPath: string, results: map<string, seq<seq<int>>>)

  /** `[m[0] for m in matched_indexes if m]`. */
  function FirstRanks(mm: seq<seq<int>>): seq<int> {
    if |mm| == 0 then []
    else FirstRanks(mm[..|mm| - 1]) + (if |mm[|mm| - 1]| > 0 then [mm[|mm| - 1][0]] else [])
  }

  /** The first rank of a multi-function bug: `first_ranks[0]`, and only when it is truthy. */
  function MfFirst(mm: seq<seq<int>>): Option<int> {
    var fr := FirstRanks(mm);
    if |fr| > 0 && fr[0] != 0 then Some(fr[0]) else None
  }

  /** The first ranks exist iff some function has a match, and the first of them is the head of
      the first non-empty list, not the least rank over the functions. */
  lemma {:induction false} FirstRanksHead(mm: seq<seq<int>>)
    ensures |FirstRanks(mm)| > 0 <==> exists i | 0 <= i < |mm| :: |mm[i]| > 0
    ensures |FirstRanks(mm)| > 0 ==> exists i | 0 <= i < |mm| ::
      |mm[i]| > 0 && FirstRanks(mm)[0] == mm[i][0] && forall j | 0 <= j < i :: |mm[j]| == 0
    decreases |mm|
  {
    if |mm| > 0 {
      var n := |mm| - 1;
      var front := mm[..n];
      FirstRanksHead(front);
      assert forall j | 0 <= j < n :: front[j] == mm[j];
      if |FirstRanks(front)| > 0 {
        var i :| 0 <= i < n && |front[i]| > 0 && FirstRanks(front)[0] == front[i][0] &&
          forall j | 0 <= j < i :: |front[j]| == 0;
        assert FirstRanks(mm)[0] == FirstRanks(front)[0];
      } else if |mm[n]| > 0 {
        assert FirstRanks(mm) == [mm[n][0]];
      }
    }
  }

  /** A project's running state in `evaluate_all_mf`: its counters and its verbose entries. */
  datatype MfTally = MfTally(counts: Counts, verbose: seq<(string, seq<seq<int>>)>)

  /** One bug id of the inner loop of `evaluate_all_mf`. */
  function MfStep(t: MfTally, f: MfFiles, p: ProjectBugs, bug: nat): MfTally {
    if !Counted(f.resPath, f.results, p, bug) then t
    else
      var mm := f.results[ResultPath(f.resPath, p.name, bug)];
      MfTally(AddBug(t.counts, MfFirst(mm)), Put(t.verbose, NatToString(bug), mm))
  }

  /** A project's state after its first `n` bug ids. */
  function MfTallyOf(f: MfFiles, p: ProjectBugs, n: nat): MfTally
    requires n <= |p.bugIds|
  {
    if n == 0 then MfTally(NoCounts, []) else MfStep(MfTallyOf(f, p, n - 1), f, p, p.bugIds[n - 1])
  }

  /** The two dictionaries `evaluate_all_mf` writes out. */
  datatype MfReport = MfReport(topN: seq<(string, Counts)>, verbose: seq<(string, seq<(string, seq<seq<int>>)>)>)

  /** The report over the first `n` projects, before the all-zero projects are deleted. */
  function MfRaw(f: MfFiles, all: seq<ProjectBugs>, n: nat): MfReport
    requires n <= |all|
  {
    if n == 0 then MfReport([], [])
    else
      var r := MfRaw(f, all, n - 1);
      var p := all[n - 1];
      var t := MfTallyOf(f, p, |p.bugIds|);
      MfReport(r.topN + [(p.name, t.counts)], r.verbose + [(p.name, t.verbose)])
  }

  /** The report of `evaluate_all_mf`: the all-zero projects are deleted from the Top-N dict only. */
  function MfReportOf(f: MfFiles, all: seq<ProjectBugs>): MfReport {
    var r := MfRaw(f, all, |all|);
    r.(topN := Without(r.topN, ZeroNames(r.topN)))
  }

  /** The inner loop of `evaluate_all_mf` over one project's bug ids. */
  method MfProject(f: MfFiles, p: ProjectBugs) returns (t: MfTally)
    ensures t == MfTallyOf(f, p, |p.bugIds|)
  {
    var counts := NoCounts;
    var verbose: seq<(string, seq<seq<int>>)> := [];
    for j := 0 to |p.bugIds|
      invariant MfTally(counts, verbose) == MfTallyOf(f, p, j)
    {
      var bug := p.bugIds[j];
      if bug in p.deprecated {
        continue;
      }
      var path := ResultPath(f.resPath, p.name, bug);
      if path !in f.results {
        continue;
      }
      var mm := f.results[path];
      counts := counts.(total := counts.total + 1);
      verbose := Put(verbose, NatToString(bug), mm);
      var firstRanks := FirstRanks(mm);
      if |firstRanks| > 0 && firstRanks[0] != 0 {
        var first := firstRanks[0];
        if first == 1 {
          counts := counts.(top1 := counts.top1 + 1);
        }
        if first <= 3 {
          counts := counts.(top3 := counts.top3 + 1);
        }
        if first <= 5 {
          counts := counts.(top5 := counts.top5 + 1);
        }
        if first <= 10 {
          counts := counts.(top10 := counts.top10 + 1);
        }
      }
    }
    t := MfTally(counts, verbose);
  }

  /** `evaluate_all_mf`: the counters and verbose entries of every project, then the clean-up of
      the all-zero projects. */
  method EvaluateAllMulti(f: MfFiles, all: seq<ProjectBugs>) returns (report: MfReport)
    ensures report == MfReportOf(f, all)
  {
    var raw := MfReport([], []);
    for i := 0 to |all|
      invariant raw == MfRaw(f, all, i)
    {
      var p := all[i];
      var t := MfProject(f, p);
      raw := MfReport(raw.topN + [(p.name, t.counts)], raw.verbose + [(p.name, t.verbose)]);
    }
    var zero := CollectZeroNames(raw.topN);
    var topN := DeleteNames(raw.topN, zero);
    report := MfReport(topN, raw.verbose);
  }

  /** The counters of a project are always ordered, and `total` counts every bug that is not
      deprecated and has a result file. */
  lemma {:induction false} MfCounts(f: MfFiles, p: ProjectBugs, n: nat)
    requires n <= |p.bugIds|
    ensures Ordered(MfTallyOf(f, p, n).counts)
    ensures MfTallyOf(f, p, n).counts.total == |CountedSet(f.resPath, f.results, p, n)|
  {
    if n > 0 {
      MfCounts(f, p, n - 1);
      CountedGrows(f.resPath, f.results, p, n);
    }
  }

  /** After the clean-up the Top-N dict holds exactly the projects with a non-zero total. */
  lemma MfKept(f: MfFiles, all: seq<ProjectBugs>)
    requires DistinctNames(all)
    ensures forall e | e in MfReportOf(f, all).topN :: e.1.total > 0
    ensures forall i | 0 <= i < |all| ::
      var c := MfTallyOf(f, all[i], |all[i].bugIds|).counts;
      (all[i].name, c) in MfReportOf(f, all).topN <==> c.total > 0
  {
    var r := MfRaw(f, all, |all|);
    MfRawShape(f, all, |all|);
    forall k | 0 <= k < |all|
      ensures Ordered(r.topN[k].1)
    {
      MfCounts(f, all[k], |all[k].bugIds|);
    }
    CleanupKeeps(r.topN);
  }

  lemma {:induction false} MfRawShape(f: MfFiles, all: seq<ProjectBugs>, n: nat)
    requires n <= |all|
    ensures var r := MfRaw(f, all, n);
      |r.topN| == n && forall k | 0 <= k < n :: r.topN[k] == (all[k].name, MfTallyOf(f, all[k], |all[k].bugIds|).counts)
  {
    if n > 0 {
      MfRawShape(f, all, n - 1);
    }
  }

  // ---------------------------------------------------------------------------------
  // analyze_verbose_result

  /** The buckets of the verbose analysis, each a list of "<proj>-<bug_id>" labels. */
  datatype Analysis = Analysis(shouldBeSuccess: seq<string>, shouldBeFailure: seq<string>,
                               isSuccess: seq<string>, isFailure: seq<string>, noPatch: seq<string>)

  /** A verbose report as read back: projects, each with its bug entries keyed by bug id text. */
  type Verbose = seq<(string, seq<(string, VerboseEntry)>)>

  /** A project's entries, labelled "<proj>-<bug_id>". */
  function ProjectEntries(proj: string, bugs: seq<(string, VerboseEntry)>): (r: seq<(string, VerboseEntry)>)
    ensures |r| == |bugs|
  {
    seq(|bugs|, k requires 0 <= k < |bugs| => (proj + "-" + bugs[k].0, bugs[k].1))
  }

  /** All labelled entries in iteration order: project by project, bug by bug. */
  function Entries(v: Verbose): seq<(string, VerboseEntry)> {
    if |v| == 0 then [] else Entries(v[..|v| - 1]) + ProjectEntries(v[|v| - 1].0, v[|v| - 1].1)
  }

  /** One entry: IndexError on an empty match list, then KeyError without a status. A "NONE" status
      goes to `no_patch`; "SUCCESS" and "FAILURE" go to one of four buckets by whether the first
      rank is within the tolerance; any other status goes nowhere. */
  function Classify(a: Analysis, key: string, e: VerboseEntry, tolerance: int): Result<Analysis> {
    if |e.matches| == 0 then Err(IndexError("list index out of range"))
    else if e.status.None? then Err(KeyError("status"))
    else
      var first := e.matches[0];
      var status := e.status.value;
      if status == "NONE" then Ok(a.(noPatch := a.noPatch + [key]))
      else if first <= tolerance && status == "SUCCESS" then Ok(a.(isSuccess := a.isSuccess + [key]))
      else if first > tolerance && status == "FAILURE" then Ok(a.(isFailure := a.isFailure + [key]))
      else if first <= tolerance && status == "FAILURE" then Ok(a.(shouldBeSuccess := a.shouldBeSuccess + [key]))
      else if first > tolerance && status == "SUCCESS" then Ok(a.(shouldBeFailure := a.shouldBeFailure + [key]))
      else Ok(a)
  }

  /** The analysis of a list of labelled entries; the first failing entry decides the error. */
  function Analyze(es: seq<(string, VerboseEntry)>, tolerance: int): Result<Analysis> {
    if |es| == 0 then Ok(Analysis([], [], [], [], []))
    else
      var a :- Analyze(es[..|es| - 1], tolerance);
      Classify(a, es[|es| - 1].0, es[|es| - 1].1, tolerance)
  }

  /** Once a prefix fails, the whole analysis fails with the same error. */
  lemma {:induction false} AnalyzeErrSticks(es: seq<(string, VerboseEntry)>, pre: seq<(string, VerboseEntry)>, tolerance: int)
    requires pre <= es && Analyze(pre, tolerance).Err?
    ensures Analyze(es, tolerance) == Analyze(pre, tolerance)
    decreases |es|
  {
    if |es| > |pre| {
      var front := es[..|es| - 1];
      assert pre <= front;
      AnalyzeErrSticks(front, pre, tolerance);
    } else {
      assert es == pre;
    }
  }

  /** A report read up to some project is a prefix of the whole one. */
  lemma {:induction false} EntriesMono(v: Verbose, m: nat)
    requires m <= |v|
    ensures Entries(v[..m]) <= Entries(v)
    decreases |v|
  {
    if m < |v| {
      var front := v[..|v| - 1];
      assert front[..m] == v[..m];
      EntriesMono(front, m);
    } else {
      assert v[..m] == v;
    }
  }

  /** The inner loop of `analyze_verbose_result` over one project's bugs, continuing the analysis
      `a` of the entries before them. */
  method AnalyzeProject(ghost done: seq<(string, VerboseEntry)>, a: Analysis, proj: string,
                        bugs: seq<(string, VerboseEntry)>, tolerance: int) returns (r: Result<Analysis>)
    requires Analyze(done, tolerance) == Ok(a)
    ensures r == Analyze(done + ProjectEntries(proj, bugs), tolerance)
  {
    var acc := a;
    ghost var seen := done;
    var all := ProjectEntries(proj, bugs);
    for j := 0 to |bugs|
      invariant seen == done + all[..j]
      invariant Analyze(seen, tolerance) == Ok(acc)
    {
      var key := proj + "-" + bugs[j].0;
      var entry := bugs[j].1;
      ghost var next := seen + [(key, entry)];
      assert all[..j + 1] == all[..j] + [(key, entry)];
      assert next == done + all[..j + 1] && next <= done + all;
      assert next[..|next| - 1] == seen;
      if |entry.matches| == 0 {
        AnalyzeErrSticks(done + all, next, tolerance);
        return Err(IndexError("list index out of range"));
      }
      var firstRank := entry.matches[0];
      if entry.status.None? {
        AnalyzeErrSticks(done + all, next, tolerance);
        return Err(KeyError("status"));
      }
      var status := entry.status.value;
      if status == "NONE" {
        acc := acc.(noPatch := acc.noPatch + [key]);
      } else if firstRank <= tolerance && status == "SUCCESS" {
        acc := acc.(isSuccess := acc.isSuccess + [key]);
      } else if firstRank > tolerance && status == "FAILURE" {
        acc := acc.(isFailure := acc.isFailure + [key]);
      } else if firstRank <= tolerance && status == "FAILURE" {
        acc := acc.(shouldBeSuccess := acc.shouldBeSuccess + [key]);
      } else if firstRank > tolerance && status == "SUCCESS" {
        acc := acc.(shouldBeFailure := acc.shouldBeFailure + [key]);
      }
      seen := next;
    }
    assert all[..|bugs|] == all;
    r := Ok(acc);
  }

  /** `analyze_verbose_result` over a report already read, with the tolerance as a parameter. */
  method AnalyzeVerbose(verbose: Verbose, tolerance: int) returns (r: Result<Analysis>)
    ensures r == Analyze(Entries(verbose), tolerance)
  {
    var a := Analysis([], [], [], [], []);
    for i := 0 to |verbose|
      invariant Analyze(Entries(verbose[..i]), tolerance) == Ok(a)
    {
      var (proj, bugs) := verbose[i];
      assert verbose[..i + 1][..i] == verbose[..i];
      assert Entries(verbose[..i + 1]) == Entries(verbose[..i]) + ProjectEntries(proj, bugs);
      var res := AnalyzeProject(Entries(verbose[..i]), a, proj, bugs, tolerance);
      if res.Err? {
        EntriesMono(verbose, i + 1);
        AnalyzeErrSticks(Entries(verbose), Entries(verbose[..i + 1]), tolerance);
        return res;
      }
      a := res.value;
    }
    assert verbose[..|verbose|] == verbose;
    r := Ok(a);
  }

  /** The analysis succeeds iff every entry has a non-empty match list and a status. */
  lemma {:induction false} AnalyzeOk(es: seq<(string, VerboseEntry)>, tolerance: int)
    ensures Analyze(es, tolerance).Ok? <==>
      forall k | 0 <= k < |es| :: |es[k].1.matches| > 0 && es[k].1.status.Some?
    decreases |es|
  {
    if |es| > 0 {
      var front := es[..|es| - 1];
      AnalyzeOk(front, tolerance);
      assert forall k | 0 <= k < |front| :: front[k] == es[k];
    }
  }

  /** An entry belongs to the bucket of `status`: for "NONE" whatever its rank, and otherwise
      only when its first rank lies within the tolerance (`low`) or beyond it (not `low`). */
  predicate InBucket(e: VerboseEntry, status: string, low: Option<bool>, tolerance: int) {
    e.status == Some(status) && (low.Some? ==> |e.matches| > 0 && (e.matches[0] <= tolerance) == low.value)
  }

  /** The labels of the entries that belong to a bucket, in entry order. */
  function BucketLabels(es: seq<(string, VerboseEntry)>, status: string, low: Option<bool>, tolerance: int): (r: seq<string>)
    ensures |r| <= |es|
  {
    if |es| == 0 then []
    else
      var e := es[|es| - 1];
      BucketLabels(es[..|es| - 1], status, low, tolerance) + (if InBucket(e.1, status, low, tolerance) then [e.0] else [])
  }

  /** A successful analysis sorts the entries by status, keeping their order: `no_patch` lists the
      "NONE" entries, and each of the four other buckets lists the "SUCCESS" or "FAILURE" entries
      whose first rank lies on its side of the tolerance. An entry with any other status is in
      no bucket. */
  lemma {:induction false} AnalyzeCounts(es: seq<(string, VerboseEntry)>, tolerance: int)
    requires Analyze(es, tolerance).Ok?
    ensures var a := Analyze(es, tolerance).value;
      && a.noPatch == BucketLabels(es, "NONE", None, tolerance)
      && a.isSuccess == BucketLabels(es, "SUCCESS", Some(true), tolerance)
      && a.shouldBeFailure == BucketLabels(es, "SUCCESS", Some(false), tolerance)
      && a.isFailure == BucketLabels(es, "FAILURE", Some(false), tolerance)
      && a.shouldBeSuccess == BucketLabels(es, "FAILURE", Some(true), tolerance)
    decreases |es|
  {
    if |es| > 0 {
      var front := es[..|es| - 1];
      var e := es[|es| - 1];
      AnalyzeCounts(front, tolerance);
      assert Analyze(es, tolerance) == Classify(Analyze(front, tolerance).value, e.0, e.1, tolerance);
    }
  }
}
