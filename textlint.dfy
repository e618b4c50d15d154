/** The textlint runner for book repositories: which repository root it
    works from, which PRH dictionaries it hands to the linter, how the
    linter's messages become the report, and when the run fails. */
module CheckTextlint {
  import opened Wrappers
  import opened Text
  import opened Seqs
  import opened Paths
  import JsMap
  import FailPolicy

  // ---------------------------------------------------------------------
  // resolveRepoRoot

  /** `resolveRepoRoot(scanDir)`, with the working directory `cwd`. */
  function ResolveRepoRoot(fs: FileSystem, cwd: Path, scanDir: string): Path
  {
    var baseDir := Resolve(cwd, scanDir);
    if Basename(baseDir) == "docs" && Exists(fs, Join(baseDir, "_config.yml")) then Dirname(baseDir)
    else if Exists(fs, Join(baseDir, "docs/_config.yml")) || Exists(fs, Join(baseDir, "_config.yml")) then baseDir
    else cwd
  }

  /** `path.join` of a normalised path and two plain names. */
  lemma JoinTwoNames(base: Path, a: string, b: string)
    requires IsName(a) && IsName(b)
    ensures Join(base, a + "/" + b) == Render(Climb(Segments(base), []) + [a, b])
  {
    var j := base + "/" + a + "/" + b;
    assert base + "/" + (a + "/" + b) == j;
    SegmentsAppendName(base, a);
    SegmentsAppendName(base + "/" + a, b);
    ClimbAppendName(Segments(base), [], a);
    ClimbAppendName(Segments(base) + [a], [], b);
    assert Segments(base) + [a] + [b] == Segments(base) + [a, b];
    assert Climb(Segments(base), []) + [a] + [b] == Climb(Segments(base), []) + [a, b];
    assert j[|j| - 1] == b[|b| - 1];
    assert !EndsWith(j, "/");
  }

  /** A path made of plain names is its parent's names and its basename. */
  lemma ParentNames(base: Path)
    requires AllNames(Segments(base)) && Segments(base) != []
    ensures Climb(Segments(Dirname(base)), []) + [Basename(base)] == Climb(Segments(base), [])
  {
    var segs := Segments(base);
    var init := segs[..|segs| - 1];
    assert segs == init + [Basename(base)];
    assert AllNames(init);
    SegmentsRender(init);
    ClimbOfNames(init, []);
    ClimbOfNames(segs, []);
    assert [] + init == init;
    assert [] + segs == segs;
  }

  /** For a path made of plain names whose last one is `d`, `d/b` under its
      parent is `b` inside it. */
  lemma ParentJoin(base: Path, d: string, b: string)
    requires IsName(d) && IsName(b)
    requires AllNames(Segments(base)) && Basename(base) == d
    ensures Join(Dirname(base), d + "/" + b) == Join(base, b)
  {
    ParentNames(base);
    JoinTwoNames(Dirname(base), d, b);
    JoinName(base, b);
    var p := Climb(Segments(Dirname(base)), []);
    assert p + [d, b] == p + [d] + [b];
  }

  lemma DocsConfigFromParent(base: Path, cwd: Path, scanDir: string)
    requires base == Resolve(cwd, scanDir) && Basename(base) == "docs"
    ensures Join(Dirname(base), "docs/_config.yml") == Join(base, "_config.yml")
  {
    var raw := if IsAbsolute(scanDir) then scanDir else cwd + "/" + scanDir;
    assert base == Canon(raw);
    CanonNames(raw);
    assert "docs" + "/" + "_config.yml" == "docs/_config.yml";
    ParentJoin(base, "docs", "_config.yml");
  }

  /** Unless it falls back to the working directory, the root it picks holds
      `docs/_config.yml` or `_config.yml`. */
  lemma RepoRootHasConfig(fs: FileSystem, cwd: Path, scanDir: string)
    ensures var root := ResolveRepoRoot(fs, cwd, scanDir);
      root != cwd ==> Exists(fs, Join(root, "docs/_config.yml")) || Exists(fs, Join(root, "_config.yml"))
  {
    var base := Resolve(cwd, scanDir);
    if Basename(base) == "docs" && Exists(fs, Join(base, "_config.yml")) {
      DocsConfigFromParent(base, cwd, scanDir);
    }
  }

  // ---------------------------------------------------------------------
  // collectPrhDictionaries

  /** One `--prh` value: trimmed, dropped when blank, resolved against the
      repository root unless absolute. */
  function ExtraPath(repoRoot: Path, p: string): Option<string>
  {
    var s := Trim(p);
    if s == "" then None else Some(if IsAbsolute(s) then s else Resolve(repoRoot, s))
  }

  function ResolvedExtra(repoRoot: Path, extra: seq<string>): seq<string>
  {
    if extra == [] then []
    else
      ResolvedExtra(repoRoot, extra[..|extra| - 1])
      + match ExtraPath(repoRoot, extra[|extra| - 1]) case Some(s) => [s] case None => []
  }

  /** The book-local dictionaries looked for, in order. */
  function Candidates(repoRoot: Path): seq<Path>
  {
    [ Join(repoRoot, ".book-formatter/prh.yml"),
      Join(repoRoot, ".book-formatter/prh.yaml"),
      Join(repoRoot, "prh.yml"),
      Join(repoRoot, "prh.yaml") ]
  }

  function Resolver(cwd: Path): string -> Path
  {
    (p: string) => Resolve(cwd, p)
  }

  /** The common dictionary, the extra ones and the candidates, resolved. */
  function Requested(cwd: Path, common: Path, repoRoot: Path, extra: seq<string>): seq<Path>
  {
    Map(Resolver(cwd), [common] + ResolvedExtra(repoRoot, extra) + Candidates(repoRoot))
  }

  /** `filter((p, idx, arr) => arr.indexOf(p) === idx)`: the first
      occurrence of every path, in order. */
  function Dedup(xs: seq<Path>): seq<Path>
  {
    if xs == [] then []
    else
      var init := xs[..|xs| - 1];
      Dedup(init) + (if xs[|xs| - 1] in init then [] else [xs[|xs| - 1]])
  }

  /** The paths that exist, in order. */
  function Existing(fs: FileSystem, xs: seq<Path>): seq<Path>
  {
    if xs == [] then []
    else Existing(fs, xs[..|xs| - 1]) + (if Exists(fs, xs[|xs| - 1]) then [xs[|xs| - 1]] else [])
  }

  /** `collectPrhDictionaries(repoRoot, extraRulePaths)`, with the common
      dictionary's path `common`. */
  function CollectPrhDictionaries(fs: FileSystem, cwd: Path, common: Path, repoRoot: Path, extra: seq<string>): seq<Path>
  {
    Existing(fs, Dedup(Requested(cwd, common, repoRoot, extra)))
  }

  /** The position of the first occurrence of `x`. */
  function FirstIndex(xs: seq<Path>, x: Path): (k: nat)
    requires x in xs
    ensures k < |xs| && xs[k] == x && x !in xs[..k]
  {
    if xs[0] == x then 0
    else
      var k := FirstIndex(xs[1..], x);
      assert xs[..k + 1] == [xs[0]] + xs[1..][..k];
      k + 1
  }

  lemma FirstIndexPrefix(xs: seq<Path>, n: nat, x: Path)
    requires n <= |xs| && x in xs[..n]
    ensures FirstIndex(xs, x) == FirstIndex(xs[..n], x)
  {
    var k := FirstIndex(xs[..n], x);
    assert xs[..n][..k] == xs[..k];
    FirstIndexAt(xs, x, k);
  }

  lemma FirstIndexAt(xs: seq<Path>, x: Path, k: nat)
    requires k < |xs| && xs[k] == x && x !in xs[..k]
    ensures FirstIndex(xs, x) == k
  {
  }

  /** The de-duplicated list has no repeats, the same paths, and lists them
      in the order of their first occurrences. */
  lemma {:induction false} DedupFacts(xs: seq<Path>)
    ensures Distinct(Dedup(xs))
    ensures forall x :: x in Dedup(xs) <==> x in xs
    ensures forall i, j :: 0 <= i < j < |Dedup(xs)| ==> FirstIndex(xs, Dedup(xs)[i]) < FirstIndex(xs, Dedup(xs)[j])
  {
    if xs != [] {
      var n := |xs| - 1;
      var init := xs[..n];
      var x := xs[n];
      DedupFacts(init);
      assert xs == init + [x];
      var d := Dedup(init);
      forall y | y in d ensures FirstIndex(xs, y) == FirstIndex(init, y) {
        FirstIndexPrefix(xs, n, y);
      }
      if x !in init {
        DistinctSnoc(d, x);
        FirstIndexAt(xs, x, n);
        var r := d + [x];
        forall i, j | 0 <= i < j < |r| ensures FirstIndex(xs, r[i]) < FirstIndex(xs, r[j]) {
          assert r[i] in d;
          if j < |d| {
            assert r[j] in d;
          }
        }
      }
    }
  }

  lemma {:induction false} ExistingMembers(fs: FileSystem, xs: seq<Path>)
    ensures forall x :: x in Existing(fs, xs) <==> x in xs && Exists(fs, x)
  {
    if xs != [] {
      var n := |xs| - 1;
      ExistingMembers(fs, xs[..n]);
      assert xs == xs[..n] + [xs[n]];
    }
  }

  lemma {:induction false} ExistingDistinct(fs: FileSystem, xs: seq<Path>)
    requires Distinct(xs)
    ensures Distinct(Existing(fs, xs))
  {
    if xs != [] {
      var n := |xs| - 1;
      var init := xs[..n];
      assert xs == init + [xs[n]];
      assert Distinct(init);
      ExistingDistinct(fs, init);
      assert xs[n] !in init;
      if Exists(fs, xs[n]) {
        ExistingMembers(fs, init);
        DistinctSnoc(Existing(fs, init), xs[n]);
      }
    }
  }

  /** Filtering keeps order: a subsequence of a list ordered by first
      occurrence is ordered the same way. */
  lemma {:induction false} ExistingOrder(fs: FileSystem, xs: seq<Path>, ref: seq<Path>)
    requires forall x :: x in xs ==> x in ref
    requires forall i, j :: 0 <= i < j < |xs| ==> FirstIndex(ref, xs[i]) < FirstIndex(ref, xs[j])
    ensures forall x :: x in Existing(fs, xs) ==> x in ref
    ensures forall i, j :: 0 <= i < j < |Existing(fs, xs)| ==>
      FirstIndex(ref, Existing(fs, xs)[i]) < FirstIndex(ref, Existing(fs, xs)[j])
  {
    ExistingMembers(fs, xs);
    if xs != [] {
      var n := |xs| - 1;
      var init := xs[..n];
      assert forall x :: x in init ==> x in xs;
      ExistingOrder(fs, init, ref);
      var e := Existing(fs, init);
      ExistingMembers(fs, init);
      if Exists(fs, xs[n]) {
        var r := e + [xs[n]];
        forall i, j | 0 <= i < j < |r| ensures FirstIndex(ref, r[i]) < FirstIndex(ref, r[j]) {
          if j == |e| {
            assert r[i] in init;
            var k :| 0 <= k < |init| && init[k] == r[i];
            assert xs[k] == r[i];
          }
        }
      }
    }
  }

  /** The dictionaries handed to the linter: no path twice, exactly the
      requested paths that exist, in the order they were first requested;
      the common dictionary comes first whenever it exists. */
  lemma PrhDictionaries(fs: FileSystem, cwd: Path, common: Path, repoRoot: Path, extra: seq<string>)
    ensures Distinct(CollectPrhDictionaries(fs, cwd, common, repoRoot, extra))
    ensures forall x :: x in CollectPrhDictionaries(fs, cwd, common, repoRoot, extra) <==>
      x in Requested(cwd, common, repoRoot, extra) && Exists(fs, x)
    ensures forall i, j :: 0 <= i < j < |CollectPrhDictionaries(fs, cwd, common, repoRoot, extra)| ==>
      FirstIndex(Requested(cwd, common, repoRoot, extra), CollectPrhDictionaries(fs, cwd, common, repoRoot, extra)[i])
      < FirstIndex(Requested(cwd, common, repoRoot, extra), CollectPrhDictionaries(fs, cwd, common, repoRoot, extra)[j])
    ensures Exists(fs, Resolve(cwd, common)) ==>
      |CollectPrhDictionaries(fs, cwd, common, repoRoot, extra)| > 0
      && CollectPrhDictionaries(fs, cwd, common, repoRoot, extra)[0] == Resolve(cwd, common)
  {
    var req := Requested(cwd, common, repoRoot, extra);
    var d := Dedup(req);
    var r := Existing(fs, d);
    DedupFacts(req);
    ExistingMembers(fs, d);
    ExistingDistinct(fs, d);
    ExistingOrder(fs, d, req);
    var c := Resolve(cwd, common);
    MapAt(Resolver(cwd), [common] + ResolvedExtra(repoRoot, extra) + Candidates(repoRoot), 0);
    assert req[0] == c;
    if Exists(fs, c) {
      assert c in r;
      FirstIndexAt(req, c, 0);
    }
  }

  // ---------------------------------------------------------------------
  // runTextlint: from linter results to the report

  /** A textlint message. */
  datatype Message = Message(ruleId: string, message: string, severity: int, line: int, column: int)

  /** A linter result: the file and its messages (`None` when `messages` is
      not an array). */
  datatype LintResult = LintResult(filePath: Path, messages: Option<seq<Message>>)

  datatype Issue = Issue(file: string, ruleId: string, message: string, severity: int, line: int, column: int)

  datatype Summary = Summary(
    filesChecked: nat, filesWithIssues: nat, totalIssues: nat, errors: nat, warnings: nat, infos: nat)

  datatype Report = Report(summary: Summary, issues: seq<Issue>, fileDetails: seq<(string, seq<Message>)>)

  /** The messages of a result that are reported: none unless it has an
      array of at least one. */
  function Reported(r: LintResult): seq<Message>
  {
    if r.messages.Some? then r.messages.value else []
  }

  function IssueIn(rel: string): Message -> Issue
  {
    (m: Message) => Issue(rel, m.ruleId, m.message, m.severity, m.line, m.column)
  }

  function ResultIssues(baseDir: Path): LintResult -> seq<Issue>
  {
    (r: LintResult) => Map(IssueIn(RelativeName(baseDir, r.filePath)), Reported(r))
  }

  /** The flat issue list: results in order, then their messages in order. */
  function IssuesOf(baseDir: Path, results: seq<LintResult>): seq<Issue>
  {
    FlatMap(ResultIssues(baseDir), results)
  }

  /** `fileDetails` after the results: one entry per file with messages. */
  function DetailsOf(baseDir: Path, results: seq<LintResult>): seq<(string, seq<Message>)>
  {
    if results == [] then []
    else
      var d := DetailsOf(baseDir, results[..|results| - 1]);
      var r := results[|results| - 1];
      if Reported(r) == [] then d else JsMap.Set(d, RelativeName(baseDir, r.filePath), Reported(r))
  }

  function IsError(): Issue -> bool { (i: Issue) => i.severity >= 2 }
  function IsWarning(): Issue -> bool { (i: Issue) => i.severity == 1 }
  function IsInfo(): Issue -> bool { (i: Issue) => i.severity == 0 }

  /** The report of a run over `filesChecked` files with linter `results`. */
  function ReportOf(baseDir: Path, filesChecked: nat, results: seq<LintResult>): Report
  {
    var issues := IssuesOf(baseDir, results);
    var details := DetailsOf(baseDir, results);
    Report(
      Summary(filesChecked, |details|, |issues|,
        CountWhere(IsError(), issues), CountWhere(IsWarning(), issues), CountWhere(IsInfo(), issues)),
      issues, details)
  }

  /** The loop over one result's messages. */
  method PushIssues(issues0: seq<Issue>, rel: string, messages: seq<Message>) returns (issues: seq<Issue>)
    ensures issues == issues0 + Map(IssueIn(rel), messages)
  {
    issues := issues0;
    for j := 0 to |messages|
      invariant issues == issues0 + Map(IssueIn(rel), messages[..j])
    {
      var m := messages[j];
      MapSnoc(IssueIn(rel), messages[..j], m);
      assert messages[..j + 1] == messages[..j] + [m];
      issues := issues + [Issue(rel, m.ruleId, m.message, m.severity, m.line, m.column)];
    }
    assert messages[..|messages|] == messages;
  }

  /** One more result: its issues follow, and its file's entry is set when
      it has messages. */
  lemma CollectStep(baseDir: Path, results: seq<LintResult>, i: nat)
    requires i < |results|
    ensures IssuesOf(baseDir, results[..i + 1]) == IssuesOf(baseDir, results[..i]) + ResultIssues(baseDir)(results[i])
    ensures DetailsOf(baseDir, results[..i + 1]) ==
      if Reported(results[i]) == [] then DetailsOf(baseDir, results[..i])
      else JsMap.Set(DetailsOf(baseDir, results[..i]), RelativeName(baseDir, results[i].filePath), Reported(results[i]))
  {
    var result := results[i];
    assert results[..i + 1] == results[..i] + [result];
    assert results[..i + 1][..i] == results[..i];
    FlatMapAppend(ResultIssues(baseDir), results[..i], [result]);
    assert FlatMap(ResultIssues(baseDir), [result]) == ResultIssues(baseDir)(result) by {
      assert [result][..0] == [];
    }
  }

  /** The loop over the results in `runTextlint`. */
  method CollectIssues(baseDir: Path, results: seq<LintResult>) returns (issues: seq<Issue>, fileDetails: seq<(string, seq<Message>)>)
    ensures issues == IssuesOf(baseDir, results)
    ensures fileDetails == DetailsOf(baseDir, results)
  {
    issues := [];
    fileDetails := [];
    for i := 0 to |results|
      invariant issues == IssuesOf(baseDir, results[..i])
      invariant fileDetails == DetailsOf(baseDir, results[..i])
    {
      var result := results[i];
      CollectStep(baseDir, results, i);
      var rel := RelativeName(baseDir, result.filePath);
      if result.messages.Some? && |result.messages.value| > 0 {
        fileDetails := JsMap.Set(fileDetails, rel, result.messages.value);
        issues := PushIssues(issues, rel, result.messages.value);
      }
    }
    assert results[..|results|] == results;
  }

  /** `runTextlint` once the linter has run: the report. */
  method Summarize(baseDir: Path, filesChecked: nat, results: seq<LintResult>) returns (report: Report)
    ensures report == ReportOf(baseDir, filesChecked, results)
  {
    var issues, fileDetails := CollectIssues(baseDir, results);
    var errors := CountWhere(IsError(), issues);
    var warnings := CountWhere(IsWarning(), issues);
    var infos := CountWhere(IsInfo(), issues);
    report := Report(Summary(filesChecked, |fileDetails|, |issues|, errors, warnings, infos), issues, fileDetails);
  }

  function Rel(baseDir: Path): LintResult -> string
  {
    (r: LintResult) => RelativeName(baseDir, r.filePath)
  }

  /** The files named by results with messages. */
  function FilesWithMessages(baseDir: Path, results: seq<LintResult>): set<string>
  {
    set r | r in results && Reported(r) != [] :: RelativeName(baseDir, r.filePath)
  }

  /** One more result adds its file to the files with messages exactly when
      it has messages. */
  lemma FilesWithMessagesSnoc(baseDir: Path, init: seq<LintResult>, r: LintResult)
    ensures FilesWithMessages(baseDir, init + [r])
      == FilesWithMessages(baseDir, init) + (if Reported(r) == [] then {} else {RelativeName(baseDir, r.filePath)})
  {
    var all := init + [r];
    forall x | x in all ensures x in init || x == r {
      var k :| 0 <= k < |all| && all[k] == x;
      if k < |init| {
        assert all[k] == init[k];
      }
    }
    forall x | x in init ensures x in all {
      var k :| 0 <= k < |init| && init[k] == x;
      assert all[k] == x;
    }
    assert r == all[|init|];
  }

  /** One more result of `DetailsOf`. */
  lemma DetailsSnoc(baseDir: Path, init: seq<LintResult>, r: LintResult)
    ensures DetailsOf(baseDir, init + [r])
      == if Reported(r) == [] then DetailsOf(baseDir, init)
         else JsMap.Set(DetailsOf(baseDir, init), RelativeName(baseDir, r.filePath), Reported(r))
  {
    assert (init + [r])[..|init|] == init;
  }

  /** Setting a key, or nothing, keeps the keys distinct and adds that key. */
  lemma DetailsKeysStep(d: seq<(string, seq<Message>)>, d2: seq<(string, seq<Message>)>,
                        files: set<string>, files2: set<string>, rel: string, msgs: seq<Message>)
    requires JsMap.DistinctKeys(d) && JsMap.Keys(d) == files
    requires msgs == [] ==> d2 == d && files2 == files
    requires msgs != [] ==> d2 == JsMap.Set(d, rel, msgs) && files2 == files + {rel}
    ensures JsMap.DistinctKeys(d2) && JsMap.Keys(d2) == files2
  {
    if msgs != [] {
      JsMap.SetDistinct(d, rel, msgs);
      JsMap.SetKeySet(d, rel, msgs);
    }
  }

  /** `fileDetails` has each file with messages once, holding the messages
      of the last result for it. */
  lemma {:induction false} DetailsFacts(baseDir: Path, results: seq<LintResult>)
    ensures JsMap.DistinctKeys(DetailsOf(baseDir, results))
    ensures JsMap.Keys(DetailsOf(baseDir, results)) == FilesWithMessages(baseDir, results)
  {
    if results != [] {
      var init := results[..|results| - 1];
      var r := results[|results| - 1];
      assert results == init + [r];
      DetailsFacts(baseDir, init);
      FilesWithMessagesSnoc(baseDir, init, r);
      DetailsSnoc(baseDir, init, r);
      DetailsKeysStep(DetailsOf(baseDir, init), DetailsOf(baseDir, results),
        FilesWithMessages(baseDir, init), FilesWithMessages(baseDir, results),
        RelativeName(baseDir, r.filePath), Reported(r));
    }
  }

  /** `filesWithIssues` is the number of distinct files with messages. */
  lemma FilesWithIssuesCount(baseDir: Path, filesChecked: nat, results: seq<LintResult>)
    ensures ReportOf(baseDir, filesChecked, results).summary.filesWithIssues == |FilesWithMessages(baseDir, results)|
  {
    DetailsFacts(baseDir, results);
    JsMap.DistinctKeysCount(DetailsOf(baseDir, results));
  }

  function Uncounted(): Issue -> bool { (i: Issue) => i.severity < 0 }

  lemma {:induction false} SeverityPartition(issues: seq<Issue>)
    ensures CountWhere(IsError(), issues) + CountWhere(IsWarning(), issues) + CountWhere(IsInfo(), issues)
      + CountWhere(Uncounted(), issues) == |issues|
  {
    if issues != [] {
      SeverityPartition(issues[..|issues| - 1]);
    }
  }

  /** Every issue is an error, a warning or an info, unless its severity is
      negative; so the three counts add up to the total for the severities
      textlint gives. */
  lemma ReportSeverities(baseDir: Path, filesChecked: nat, results: seq<LintResult>)
    ensures var s := ReportOf(baseDir, filesChecked, results).summary;
      s.errors + s.warnings + s.infos <= s.totalIssues
      && (s.errors + s.warnings + s.infos == s.totalIssues <==>
          CountWhere(Uncounted(), IssuesOf(baseDir, results)) == 0)
  {
    SeverityPartition(IssuesOf(baseDir, results));
  }

  /** The number of issues is the number of messages of the results. */
  lemma {:induction false} IssueCount(baseDir: Path, results: seq<LintResult>)
    ensures |IssuesOf(baseDir, results)| == MessageCount(results)
  {
    if results != [] {
      IssueCount(baseDir, results[..|results| - 1]);
    }
  }

  function MessageCount(results: seq<LintResult>): nat
  {
    if results == [] then 0 else MessageCount(results[..|results| - 1]) + |Reported(results[|results| - 1])|
  }

  // ---------------------------------------------------------------------
  // --fail-on

  /** `shouldFail(report, failOn)` on the normalised option. */
  function ShouldFail(report: Report, failOn: string): bool
  {
    if failOn == "none" then false
    else if failOn == "warn" then report.summary.errors + report.summary.warnings > 0
    else if failOn == "error" then report.summary.errors > 0
    else false
  }

  /** On a valid level it is the shared policy on errors and warnings, so
      infos never make a run fail; any other value never fails. */
  lemma ShouldFailPolicy(report: Report, failOn: string)
    ensures forall level :: failOn == FailPolicy.LevelName(level) ==>
      ShouldFail(report, failOn) == FailPolicy.ShouldFail(level, report.summary.errors, report.summary.warnings)
    ensures failOn !in {"none", "warn", "error"} ==> !ShouldFail(report, failOn)
  {
  }

  /** The exit status: 2 for an invalid `--fail-on`, 1 when the run throws
      (`None`) or fails under the level, else 0. */
  function ExitCode(failOnOption: string, report: Option<Report>): (code: nat)
    ensures code == 2 <==> FailPolicy.NormalizeFailOn(failOnOption).None?
    ensures code == 0 <==> (FailPolicy.NormalizeFailOn(failOnOption).Some? && report.Some?
      && !FailPolicy.ShouldFail(FailPolicy.NormalizeFailOn(failOnOption).value, report.value.summary.errors, report.value.summary.warnings))
  {
    match FailPolicy.NormalizeFailOn(failOnOption)
    case None => 2
    case Some(level) =>
      match report
      case None => 1
      case Some(r) =>
        ShouldFailPolicy(r, FailPolicy.LevelName(level));
        if ShouldFail(r, FailPolicy.LevelName(level)) then 1 else 0
  }

  /** `runTextlint` throws only when no dictionary exists at all. */
  function RunReport(fs: FileSystem, cwd: Path, common: Path, repoRoot: Path, extra: seq<string>,
                     baseDir: Path, filesChecked: nat, results: seq<LintResult>): (r: Option<Report>)
    ensures r.None? <==> CollectPrhDictionaries(fs, cwd, common, repoRoot, extra) == []
  {
    if CollectPrhDictionaries(fs, cwd, common, repoRoot, extra) == [] then None
    else Some(ReportOf(baseDir, filesChecked, results))
  }

  /** With the common dictionary in place the run never throws. */
  lemma CommonDictionaryRuns(fs: FileSystem, cwd: Path, common: Path, repoRoot: Path, extra: seq<string>,
                             baseDir: Path, filesChecked: nat, results: seq<LintResult>)
    requires Exists(fs, Resolve(cwd, common))
    ensures RunReport(fs, cwd, common, repoRoot, extra, baseDir, filesChecked, results).Some?
  {
    PrhDictionaries(fs, cwd, common, repoRoot, extra);
  }
}
