/** The `check-markdown-structure` script's runner: every issue is filed through
    `addIssue`, which appends it to the flat list and to its file's list and
    counts it as an error or a warning; `scanFile` reports a file's issues in
    the order of the scan; `scanDirectory` scans the files the glob found and
    fills in the summary; the `--fail-on` decision sets the exit status. */
module CheckMarkdownStructure {
  import opened Wrappers
  import opened Text
  import opened Paths
  import opened MdLines
  import JsMap
  import FailPolicy
  import Seqs
  import opened MarkdownStructure

  // ---------------------------------------------------------------------------
  // The runner's state
  // ---------------------------------------------------------------------------

  /** A file that could not be read, with the error's message. */
  datatype FileError = FileError(file: string, message: string)

  /** `runner.summary`. */
  datatype Summary = Summary(scannedFiles: nat, filesWithIssues: nat, totalIssues: nat,
                             errors: nat, warnings: nat, fileReadErrors: nat)

  /** `issues`, `fileIssues`, `fileErrors` and `summary` of `MarkdownStructureRunner`. */
  datatype RunState = RunState(issues: seq<Issue>, fileIssues: JsMap.Entries<string, seq<Issue>>,
                               fileErrors: seq<FileError>, summary: Summary)

  const Fresh := RunState([], [], [], Summary(0, 0, 0, 0, 0, 0))

  /** `addIssue`: the issue goes to the end of the flat list and of its file's
      list, and counts as an error or else as a warning. */
  function WithIssue(s: RunState, issue: Issue): RunState
  {
    var list := JsMap.Get(s.fileIssues, issue.file).UnwrapOr([]);
    RunState(s.issues + [issue], JsMap.Set(s.fileIssues, issue.file, list + [issue]), s.fileErrors,
             if issue.severity == SevError then s.summary.(errors := s.summary.errors + 1)
             else s.summary.(warnings := s.summary.warnings + 1))
  }

  /** `addIssue` on each issue in order. */
  function WithIssues(s: RunState, found: seq<Issue>): RunState
    decreases |found|
  {
    if found == [] then s else WithIssue(WithIssues(s, found[..|found| - 1]), found[|found| - 1])
  }

  lemma WithIssuesSnoc(s: RunState, found: seq<Issue>, issue: Issue)
    ensures WithIssues(s, found + [issue]) == WithIssue(WithIssues(s, found), issue)
  {
    assert (found + [issue])[..|found|] == found;
  }

  /** Filing two lists one after the other is filing their concatenation. */
  lemma {:induction false} WithIssuesAppend(s: RunState, a: seq<Issue>, b: seq<Issue>)
    ensures WithIssues(s, a + b) == WithIssues(WithIssues(s, a), b)
    decreases |b|
  {
    if b == [] {
      assert a + b == a;
    } else {
      var init := b[..|b| - 1];
      WithIssuesAppend(s, a, init);
      assert (a + b)[..|a + b| - 1] == a + init;
      assert (a + b)[|a + b| - 1] == b[|b| - 1];
    }
  }

  /** The issues of one file, in the order they were filed. */
  function OfFile(issues: seq<Issue>, file: string): (r: seq<Issue>)
    ensures forall i :: 0 <= i < |r| ==> r[i].file == file
    ensures |r| <= |issues|
  {
    if issues == [] then []
    else OfFile(issues[..|issues| - 1], file) + (if issues[|issues| - 1].file == file then [issues[|issues| - 1]] else [])
  }

  /** A file has issues in the list exactly when one of the issues names it. */
  lemma {:induction false} OfFileNonEmpty(issues: seq<Issue>, file: string)
    ensures OfFile(issues, file) != [] <==> exists i :: 0 <= i < |issues| && issues[i].file == file
  {
    if issues != [] {
      var init := issues[..|issues| - 1];
      OfFileNonEmpty(init, file);
      if exists i :: 0 <= i < |init| && init[i].file == file {
        var i :| 0 <= i < |init| && init[i].file == file;
        assert issues[i].file == file;
      }
      if exists i :: 0 <= i < |issues| && issues[i].file == file {
        var i :| 0 <= i < |issues| && issues[i].file == file;
        if i < |init| {
          assert init[i].file == file;
        }
      }
    }
  }

  lemma OfFileSnoc(issues: seq<Issue>, issue: Issue, file: string)
    ensures OfFile(issues + [issue], file) == OfFile(issues, file) + (if issue.file == file then [issue] else [])
  {
    assert (issues + [issue])[..|issues|] == issues;
  }

  /** The number of issues with the given severity. */
  function CountSeverity(issues: seq<Issue>, sev: Severity): (n: nat)
    ensures n <= |issues|
  {
    if issues == [] then 0
    else CountSeverity(issues[..|issues| - 1], sev) + (if issues[|issues| - 1].severity == sev then 1 else 0)
  }

  /** The number of read failures among the issues. */
  function ReadErrorCount(issues: seq<Issue>): (n: nat)
    ensures n <= |issues|
  {
    if issues == [] then 0
    else ReadErrorCount(issues[..|issues| - 1]) + (if issues[|issues| - 1].kind.FileReadError? then 1 else 0)
  }

  /** What `addIssue` keeps true: one entry per file, holding exactly that
      file's issues in filing order and never empty; every issue has its
      file's entry and its kind's severity; the summary counts each severity. */
  ghost predicate Filed(s: RunState)
  {
    && JsMap.DistinctKeys(s.fileIssues)
    && (forall k :: 0 <= k < |s.fileIssues| ==>
          s.fileIssues[k].1 == OfFile(s.issues, s.fileIssues[k].0) && s.fileIssues[k].1 != [])
    && (forall i :: 0 <= i < |s.issues| ==>
          JsMap.HasKey(s.fileIssues, s.issues[i].file) && s.issues[i].severity == SeverityOf(s.issues[i].kind))
    && s.summary.errors == CountSeverity(s.issues, SevError)
    && s.summary.warnings == CountSeverity(s.issues, SevWarning)
  }

  /** `Filed`, and one read error recorded for each read failure reported. */
  ghost predicate RunValid(s: RunState)
  {
    Filed(s) && |s.fileErrors| == ReadErrorCount(s.issues)
  }

  /** A file's entry is its issues. */
  lemma FiledGet(s: RunState, file: string)
    requires Filed(s)
    ensures JsMap.Get(s.fileIssues, file).UnwrapOr([]) == OfFile(s.issues, file)
  {
    if JsMap.HasKey(s.fileIssues, file) {
      var k := JsMap.IndexOf(s.fileIssues, file);
      assert s.fileIssues[k].0 == file;
    } else {
      forall i | 0 <= i < |s.issues|
        ensures s.issues[i].file != file
      {
        assert JsMap.HasKey(s.fileIssues, s.issues[i].file);
      }
      OfFileNonEmpty(s.issues, file);
    }
  }

  /** Filing an issue with its kind's severity keeps the lists consistent. */
  lemma WithIssueFiled(s: RunState, issue: Issue)
    requires Filed(s) && issue.severity == SeverityOf(issue.kind)
    ensures Filed(WithIssue(s, issue))
    ensures WithIssue(s, issue).fileErrors == s.fileErrors
    ensures ReadErrorCount(WithIssue(s, issue).issues)
         == ReadErrorCount(s.issues) + (if issue.kind.FileReadError? then 1 else 0)
  {
    var r := WithIssue(s, issue);
    FiledGet(s, issue.file);
    JsMap.SetDistinct(s.fileIssues, issue.file, OfFile(s.issues, issue.file) + [issue]);
    forall k | 0 <= k < |r.fileIssues|
      ensures r.fileIssues[k].1 == OfFile(r.issues, r.fileIssues[k].0) && r.fileIssues[k].1 != []
    {
      WithIssueEntry(s, issue, k);
    }
    WithIssueKeys(s, issue);
    assert r.issues[..|s.issues|] == s.issues;
  }

  /** After `addIssue`, each entry is still its file's issues. */
  lemma WithIssueEntry(s: RunState, issue: Issue, k: nat)
    requires Filed(s)
    requires k < |WithIssue(s, issue).fileIssues|
    ensures var r := WithIssue(s, issue);
      r.fileIssues[k].1 == OfFile(r.issues, r.fileIssues[k].0) && r.fileIssues[k].1 != []
  {
    var r := WithIssue(s, issue);
    var f := issue.file;
    var m := s.fileIssues;
    FiledGet(s, f);
    var list := OfFile(s.issues, f) + [issue];
    assert r.fileIssues == JsMap.Set(m, f, list);
    JsMap.SetKeys(m, f, list);
    var key := r.fileIssues[k].0;
    OfFileSnoc(s.issues, issue, key);
    if key == f {
      JsMap.SetDistinct(m, f, list);
      JsMap.GetSetSame(m, f, list);
      assert (f, list) in r.fileIssues;
    } else {
      assert k < |m| && r.fileIssues[k] == m[k];
    }
  }

  /** After `addIssue`, every issue's file has an entry. */
  lemma WithIssueKeys(s: RunState, issue: Issue)
    requires Filed(s)
    ensures var r := WithIssue(s, issue);
      forall i :: 0 <= i < |r.issues| ==> JsMap.HasKey(r.fileIssues, r.issues[i].file)
  {
    var r := WithIssue(s, issue);
    var f := issue.file;
    var m := s.fileIssues;
    var list := JsMap.Get(m, f).UnwrapOr([]) + [issue];
    JsMap.SetKeys(m, f, list);
    JsMap.GetSetSame(m, f, list);
    forall i | 0 <= i < |r.issues|
      ensures JsMap.HasKey(r.fileIssues, r.issues[i].file)
    {
      if i < |s.issues| {
        var j := JsMap.IndexOf(m, s.issues[i].file);
        assert r.fileIssues[j].0 == s.issues[i].file;
      }
    }
  }

  /** Filing a file's scan keeps the lists consistent and records no read error. */
  lemma {:induction false} WithIssuesFiled(s: RunState, file: string, found: seq<Issue>)
    requires Filed(s) && AllAbout(file, found)
    ensures Filed(WithIssues(s, found))
    ensures WithIssues(s, found).fileErrors == s.fileErrors
    ensures ReadErrorCount(WithIssues(s, found).issues) == ReadErrorCount(s.issues)
    decreases |found|
  {
    if found != [] {
      var init := found[..|found| - 1];
      assert AllAbout(file, init) by {
        forall i | 0 <= i < |init|
          ensures && init[i].file == file && init[i].column == 1
                  && init[i].severity == SeverityOf(init[i].kind) && !init[i].kind.FileReadError?
        {
          assert init[i] == found[i];
        }
      }
      WithIssuesFiled(s, file, init);
      WithIssueFiled(WithIssues(s, init), found[|found| - 1]);
    }
  }

  // ---------------------------------------------------------------------------
  // scanFile and scanDirectory, on values
  // ---------------------------------------------------------------------------

  /** `scanFile`'s effect: an unreadable file records its read error and
      files one read-failure issue on line 1; a readable one files its scan's
      issues in order. */
  function AfterFile(fs: FileSystem, yaml: YamlParser, baseDir: Path, filePath: Path, s: RunState): RunState
  {
    var rel := RelativeName(baseDir, filePath);
    match ReadFile(fs, filePath)
    case Err(message) =>
      WithIssue(s.(fileErrors := s.fileErrors + [FileError(rel, message)]), NewIssue(rel, 1, FileReadError(message)))
    case Ok(content) => WithIssues(s, FileIssues(rel, content, yaml))
  }

  lemma AfterFileValid(fs: FileSystem, yaml: YamlParser, baseDir: Path, filePath: Path, s: RunState)
    requires RunValid(s)
    ensures RunValid(AfterFile(fs, yaml, baseDir, filePath, s))
  {
    var rel := RelativeName(baseDir, filePath);
    match ReadFile(fs, filePath)
    case Err(message) =>
      WithIssueFiled(s.(fileErrors := s.fileErrors + [FileError(rel, message)]), NewIssue(rel, 1, FileReadError(message)));
    case Ok(content) =>
      FileIssuesAbout(rel, content, yaml);
      WithIssuesFiled(s, rel, FileIssues(rel, content, yaml));
  }

  /** The runner's state after scanning `files` in order. */
  function AfterFiles(fs: FileSystem, yaml: YamlParser, baseDir: Path, files: seq<Path>, s: RunState): RunState
  {
    if files == [] then s
    else AfterFile(fs, yaml, baseDir, files[|files| - 1], AfterFiles(fs, yaml, baseDir, files[..|files| - 1], s))
  }

  lemma AfterFilesStep(fs: FileSystem, yaml: YamlParser, baseDir: Path, files: seq<Path>, k: nat, s: RunState)
    requires k < |files|
    ensures AfterFiles(fs, yaml, baseDir, files[..k + 1], s) == AfterFile(fs, yaml, baseDir, files[k], AfterFiles(fs, yaml, baseDir, files[..k], s))
  {
    assert files[..k + 1][..k] == files[..k];
  }

  /** Unlike the per-file results of the other checkers, the lists stay
      consistent whatever the files are, even when two resolve to one name. */
  lemma {:induction false} AfterFilesValid(fs: FileSystem, yaml: YamlParser, baseDir: Path, files: seq<Path>, s: RunState)
    requires RunValid(s)
    ensures RunValid(AfterFiles(fs, yaml, baseDir, files, s))
  {
    if files != [] {
      AfterFilesValid(fs, yaml, baseDir, files[..|files| - 1], s);
      AfterFileValid(fs, yaml, baseDir, files[|files| - 1], AfterFiles(fs, yaml, baseDir, files[..|files| - 1], s));
    }
  }

  /** `this.summary.scannedFiles = files.length` before the loop. */
  function Started(s: RunState, fileCount: nat): RunState
  {
    s.(summary := s.summary.(scannedFiles := fileCount))
  }

  /** The counts filled in after the loop. */
  function Finished(s: RunState): RunState
  {
    s.(summary := s.summary.(totalIssues := |s.issues|, fileReadErrors := |s.fileErrors|,
                             filesWithIssues := |s.fileIssues|))
  }

  /** `scanDirectory`'s value; `fileDetails` keeps the map's entry order. */
  datatype Report = Report(summary: Summary, issues: seq<Issue>,
                           fileDetails: JsMap.Entries<string, seq<Issue>>, fileReadErrors: seq<FileError>)

  function ReportOf(s: RunState): Report
  {
    Report(s.summary, s.issues, s.fileIssues, s.fileErrors)
  }

  /** The report of scanning `files` with a fresh runner. */
  function RunReport(fs: FileSystem, yaml: YamlParser, baseDir: Path, files: seq<Path>): Report
  {
    ReportOf(Finished(AfterFiles(fs, yaml, baseDir, files, Started(Fresh, |files|))))
  }

  // ---------------------------------------------------------------------------
  // The report's counts
  // ---------------------------------------------------------------------------

  /** The files named by the issues. */
  function IssueFiles(issues: seq<Issue>): set<string>
  {
    set i | 0 <= i < |issues| :: issues[i].file
  }

  /** Every issue is an error or a warning, so the two counts add up to the total. */
  lemma {:induction false} SeveritiesPartition(issues: seq<Issue>)
    ensures CountSeverity(issues, SevError) + CountSeverity(issues, SevWarning) == |issues|
  {
    if issues != [] {
      SeveritiesPartition(issues[..|issues| - 1]);
    }
  }

  /** A read failure is an error, so there are no more of them than errors. */
  lemma {:induction false} ReadErrorsAreErrors(issues: seq<Issue>)
    requires forall i :: 0 <= i < |issues| ==> issues[i].severity == SeverityOf(issues[i].kind)
    ensures ReadErrorCount(issues) <= CountSeverity(issues, SevError)
  {
    if issues != [] {
      var init := issues[..|issues| - 1];
      assert forall i :: 0 <= i < |init| ==> init[i] == issues[i];
      ReadErrorsAreErrors(init);
    }
  }

  /** No more files than issues. */
  lemma {:induction false} IssueFilesBound(issues: seq<Issue>)
    ensures |IssueFiles(issues)| <= |issues|
  {
    if issues != [] {
      var init := issues[..|issues| - 1];
      IssueFilesBound(init);
      var last := issues[|issues| - 1].file;
      assert IssueFiles(issues) == IssueFiles(init) + {last} by {
        forall x | x in IssueFiles(issues)
          ensures x in IssueFiles(init) + {last}
        {
          var i :| 0 <= i < |issues| && issues[i].file == x;
          if i < |init| {
            assert init[i].file == x;
          }
        }
        forall x | x in IssueFiles(init)
          ensures x in IssueFiles(issues)
        {
          var i :| 0 <= i < |init| && init[i].file == x;
          assert issues[i].file == x;
        }
        assert issues[|issues| - 1].file == last;
      }
    }
  }

  /** The files with an entry are exactly the files named by some issue. */
  lemma FiledKeys(s: RunState)
    requires Filed(s)
    ensures JsMap.Keys(s.fileIssues) == IssueFiles(s.issues)
  {
    forall x | x in JsMap.Keys(s.fileIssues)
      ensures x in IssueFiles(s.issues)
    {
      var k :| 0 <= k < |s.fileIssues| && s.fileIssues[k].0 == x;
      OfFileNonEmpty(s.issues, x);
      var i :| 0 <= i < |s.issues| && s.issues[i].file == x;
    }
    forall x | x in IssueFiles(s.issues)
      ensures x in JsMap.Keys(s.fileIssues)
    {
      var i :| 0 <= i < |s.issues| && s.issues[i].file == x;
      JsMap.InKeys(s.fileIssues, x);
    }
  }

  /** The summary of a consistent run: every issue is an error or a warning,
      read failures are among the errors, `filesWithIssues` counts the files
      named by the issues, and each of those files' details are its issues in
      the order reported. */
  lemma ReportSummary(s: RunState)
    requires RunValid(s)
    ensures var r := ReportOf(Finished(s));
      && r.summary.totalIssues == r.summary.errors + r.summary.warnings
      && r.summary.fileReadErrors <= r.summary.errors
      && r.summary.filesWithIssues == |IssueFiles(r.issues)| <= r.summary.totalIssues
      && (forall i :: 0 <= i < |r.issues| ==>
            JsMap.Get(r.fileDetails, r.issues[i].file) == Some(OfFile(r.issues, r.issues[i].file)))
  {
    SeveritiesPartition(s.issues);
    ReadErrorsAreErrors(s.issues);
    FiledKeys(s);
    JsMap.DistinctKeysCount(s.fileIssues);
    IssueFilesBound(s.issues);
    forall i | 0 <= i < |s.issues|
      ensures JsMap.Get(s.fileIssues, s.issues[i].file) == Some(OfFile(s.issues, s.issues[i].file))
    {
      FiledGet(s, s.issues[i].file);
    }
  }

  /** The report of a whole run obeys `ReportSummary`, and a file whose read
      fails makes `fileReadErrors` positive. */
  lemma RunReportSummary(fs: FileSystem, yaml: YamlParser, baseDir: Path, files: seq<Path>)
    ensures var r := RunReport(fs, yaml, baseDir, files);
      && r.summary.scannedFiles == |files|
      && r.summary.totalIssues == r.summary.errors + r.summary.warnings
      && r.summary.fileReadErrors <= r.summary.errors
      && r.summary.filesWithIssues == |IssueFiles(r.issues)| <= r.summary.totalIssues
  {
    var s0 := Started(Fresh, |files|);
    AfterFilesValid(fs, yaml, baseDir, files, s0);
    ReportSummary(AfterFiles(fs, yaml, baseDir, files, s0));
    AfterFilesScanned(fs, yaml, baseDir, files, s0);
  }

  /** The read error a file adds: one when its read fails, none otherwise. */
  function ReadErrorOf(fs: FileSystem, baseDir: Path, filePath: Path): (e: seq<FileError>)
    ensures |e| == if ReadFile(fs, filePath).Err? then 1 else 0
  {
    match ReadFile(fs, filePath)
    case Err(message) => [FileError(RelativeName(baseDir, filePath), message)]
    case Ok(_) => []
  }

  /** The read errors of a run over `files`, in order. */
  function ReadErrorsOf(fs: FileSystem, baseDir: Path, files: seq<Path>): seq<FileError>
  {
    if files == [] then []
    else ReadErrorsOf(fs, baseDir, files[..|files| - 1]) + ReadErrorOf(fs, baseDir, files[|files| - 1])
  }

  /** Scanning a file keeps `scannedFiles` and appends its read error, if any. */
  lemma AfterFileScanned(fs: FileSystem, yaml: YamlParser, baseDir: Path, filePath: Path, s: RunState)
    ensures var r := AfterFile(fs, yaml, baseDir, filePath, s);
      && r.summary.scannedFiles == s.summary.scannedFiles
      && r.fileErrors == s.fileErrors + ReadErrorOf(fs, baseDir, filePath)
  {
    var rel := RelativeName(baseDir, filePath);
    match ReadFile(fs, filePath)
    case Err(message) =>
    case Ok(content) =>
      WithIssuesAppendOnly(s, FileIssues(rel, content, yaml));
  }

  /** Scanning never changes `scannedFiles`, and the read errors it appends
      are those of the files that cannot be read, in order. */
  lemma {:induction false} AfterFilesScanned(fs: FileSystem, yaml: YamlParser, baseDir: Path, files: seq<Path>, s: RunState)
    ensures var r := AfterFiles(fs, yaml, baseDir, files, s);
      && r.summary.scannedFiles == s.summary.scannedFiles
      && r.fileErrors == s.fileErrors + ReadErrorsOf(fs, baseDir, files)
  {
    if files != [] {
      var init := files[..|files| - 1];
      AfterFilesScanned(fs, yaml, baseDir, init, s);
      var t := AfterFiles(fs, yaml, baseDir, init, s);
      AfterFileScanned(fs, yaml, baseDir, files[|files| - 1], t);
      assert s.fileErrors + ReadErrorsOf(fs, baseDir, init) + ReadErrorOf(fs, baseDir, files[|files| - 1])
          == s.fileErrors + ReadErrorsOf(fs, baseDir, files);
    }
  }

  /** Filing issues changes neither the read errors nor `scannedFiles`. */
  lemma {:induction false} WithIssuesAppendOnly(s: RunState, found: seq<Issue>)
    ensures WithIssues(s, found).fileErrors == s.fileErrors
    ensures WithIssues(s, found).summary.scannedFiles == s.summary.scannedFiles
    decreases |found|
  {
    if found != [] {
      WithIssuesAppendOnly(s, found[..|found| - 1]);
    }
  }

  /** The number of files whose read fails. */
  function Unreadable(fs: FileSystem, files: seq<Path>): nat
  {
    Seqs.CountWhere(f => ReadFile(fs, f).Err?, files)
  }

  /** A run has one read error per file that cannot be read. */
  lemma {:induction false} ReadErrorsCount(fs: FileSystem, baseDir: Path, files: seq<Path>)
    ensures |ReadErrorsOf(fs, baseDir, files)| == Unreadable(fs, files)
  {
    if files != [] {
      ReadErrorsCount(fs, baseDir, files[..|files| - 1]);
    }
  }

  /** Some file cannot be read exactly when the count is positive. */
  lemma UnreadableExists(fs: FileSystem, files: seq<Path>)
    ensures Unreadable(fs, files) > 0 <==> exists k :: 0 <= k < |files| && ReadFile(fs, files[k]).Err?
  {
    Seqs.CountWhereExists(f => ReadFile(fs, f).Err?, files);
  }

  /** The report counts read errors exactly when some file cannot be read. */
  lemma UnreadableFileReported(fs: FileSystem, yaml: YamlParser, baseDir: Path, files: seq<Path>)
    ensures RunReport(fs, yaml, baseDir, files).summary.fileReadErrors > 0
        <==> exists k :: 0 <= k < |files| && ReadFile(fs, files[k]).Err?
    ensures |RunReport(fs, yaml, baseDir, files).fileReadErrors| == RunReport(fs, yaml, baseDir, files).summary.fileReadErrors
  {
    AfterFilesScanned(fs, yaml, baseDir, files, Started(Fresh, |files|));
    ReadErrorsCount(fs, baseDir, files);
    UnreadableExists(fs, files);
  }

  // ---------------------------------------------------------------------------
  // The runner
  // ---------------------------------------------------------------------------

  /** What the issues before the line loop are: they depend on the front
      matter alone. */
  lemma FileIssuesParts(file: string, content: string, yaml: YamlParser, lo: nat)
    requires lo == BodyStart(SplitLines(content)) - 1
    ensures var lines := SplitLines(content);
      var scan := ScanLines(file, Shapes(lines), lo, |lines|);
      FileIssues(file, content, yaml)
        == FrontMatterIssues(file, FrontMatterOf(lines), yaml) + scan.1 + EndIssues(file, scan.0, |lines|, BodyStart(lines))
  {
    var lines := SplitLines(content);
    var shapes := Shapes(lines);
    ScanLinesFrom(file, shapes, lo, BodyStart(lines) - 1, |lines|);
  }

  lemma ScanLinesFrom(file: string, shapes: seq<LineShape>, lo: nat, lo': int, hi: nat)
    requires lo == lo' && lo <= hi <= |shapes|
    ensures ScanLines(file, shapes, lo, hi) == ScanLines(file, shapes, lo', hi)
  {
  }

  /** One more line of the loop. */
  lemma ScanLinesStep(file: string, shapes: seq<LineShape>, lo: nat, i: nat, n: nat)
    requires lo <= i < |shapes| && n == i + 1
    ensures ScanLines(file, shapes, lo, n)
      == (Step(file, ScanLines(file, shapes, lo, i).0, shapes[i], n).0,
          ScanLines(file, shapes, lo, i).1 + Step(file, ScanLines(file, shapes, lo, i).0, shapes[i], n).1)
  {
  }

  lemma WithOne(s: RunState, issue: Issue)
    ensures WithIssues(s, [issue]) == WithIssue(s, issue)
  {
    WithIssuesSnoc(s, [], issue);
  }

  /** Filing three lists one after the other is filing their concatenation. */
  lemma FiledInThree(s0: RunState, s1: RunState, s2: RunState, s3: RunState, a: seq<Issue>, b: seq<Issue>, c: seq<Issue>)
    requires s1 == WithIssues(s0, a) && s2 == WithIssues(s1, b) && s3 == WithIssues(s2, c)
    ensures s3 == WithIssues(s0, a + b + c)
  {
    WithIssuesAppend(s0, a, b);
    WithIssuesAppend(s0, a + b, c);
  }

  class MarkdownStructureRunner {
    var issues: seq<Issue>
    var fileIssues: JsMap.Entries<string, seq<Issue>>
    var fileErrors: seq<FileError>
    var summary: Summary

    function StateOf(): RunState
      reads this
    {
      RunState(issues, fileIssues, fileErrors, summary)
    }

    constructor()
      ensures StateOf() == Fresh
    {
      issues := [];
      fileIssues := [];
      fileErrors := [];
      summary := Summary(0, 0, 0, 0, 0, 0);
    }

    /** `addIssue`. */
    method AddIssue(issue: Issue)
      modifies this
      ensures StateOf() == WithIssue(old(StateOf()), issue)
    {
      issues := issues + [issue];
      var list := JsMap.Get(fileIssues, issue.file).UnwrapOr([]);
      list := list + [issue];
      fileIssues := JsMap.Set(fileIssues, issue.file, list);
      if issue.severity == SevError {
        summary := summary.(errors := summary.errors + 1);
      } else {
        summary := summary.(warnings := summary.warnings + 1);
      }
    }

    /** One pass of the line loop of `scanFile`, on its variables. The three
        line patterns are pure, so they are matched once up front. */
    method ScanLine(file: string, lineText: string, lineNumber: nat, v: ScanState) returns (w: ScanState)
      modifies this
      ensures w == Step(file, v, ShapeOf(lineText), lineNumber).0
      ensures StateOf() == WithIssues(old(StateOf()), Step(file, v, ShapeOf(lineText), lineNumber).1)
    {
      var shape := ShapeOf(lineText);
      w := ScanShape(file, shape, lineNumber, v);
    }

    /** The branches of one pass, given what the patterns matched. */
    method ScanShape(file: string, shape: LineShape, lineNumber: nat, v: ScanState) returns (w: ScanState)
      modifies this
      ensures w == Step(file, v, shape, lineNumber).0
      ensures StateOf() == WithIssues(old(StateOf()), Step(file, v, shape, lineNumber).1)
    {
      w := v;
      if !w.inFence {
        var open := shape.open;
        if open.Some? {
          w := w.(inFence := true, fence := open, fenceStartLine := Some(lineNumber));
          if open.value.language == "" {
            AddIssue(NewIssue(file, lineNumber, MissingFenceLanguage));
            WithIssuesSnoc(old(StateOf()), [], NewIssue(file, lineNumber, MissingFenceLanguage));
          }
          return;
        }
        var heading := shape.heading;
        if heading.None? {
          return;
        }
        var level := heading.value.level;
        if level == 1 {
          w := w.(h1Count := w.h1Count + 1);
        }
        if w.previousLevel.Some? && level > w.previousLevel.value + 1 {
          var skip := NewIssue(file, lineNumber, HeadingLevelSkip(w.previousLevel.value, level));
          AddIssue(skip);
          WithIssuesSnoc(old(StateOf()), [], skip);
        }
        w := w.(previousLevel := Some(level));
        return;
      }
      if ClosesFence(shape.close, w.fence) {
        w := w.(inFence := false, fence := None, fenceStartLine := None);
      }
    }

    /** The line loop of `scanFile`, from index `lo`: its variables at the end,
        and every issue it reports filed in order. */
    method ScanBody(file: string, lines: seq<string>, ghost shapes: seq<LineShape>, lo: nat) returns (end: ScanState)
      requires ShapedAs(lines, shapes) && lo <= |lines|
      modifies this
      ensures end == ScanLines(file, shapes, lo, |lines|).0
      ensures StateOf() == WithIssues(old(StateOf()), ScanLines(file, shapes, lo, |lines|).1)
    {
      ghost var start := StateOf();
      end := Outside;
      for i := lo to |lines|
        invariant end == ScanLines(file, shapes, lo, i).0
        invariant StateOf() == WithIssues(start, ScanLines(file, shapes, lo, i).1)
      {
        var n: nat := i + 1;
        end := ScanLineAt(file, lines, shapes, lo, i, n, start, end);
      }
    }

    /** Line `n` = `i + 1` of the loop: the scan and the state move on from
        the lines before it to the lines up to it. */
    method ScanLineAt(file: string, lines: seq<string>, ghost shapes: seq<LineShape>, lo: nat, i: nat, n: nat,
                      ghost start: RunState, v: ScanState)
      returns (w: ScanState)
      requires ShapedAs(lines, shapes) && lo <= i < |lines| && n == i + 1
      requires v == ScanLines(file, shapes, lo, i).0
      requires StateOf() == WithIssues(start, ScanLines(file, shapes, lo, i).1)
      modifies this
      ensures w == ScanLines(file, shapes, lo, n).0
      ensures StateOf() == WithIssues(start, ScanLines(file, shapes, lo, n).1)
    {
      ghost var before := ScanLines(file, shapes, lo, i);
      ghost var step := Step(file, v, shapes[i], n);
      ShapedAsAt(lines, shapes, i);
      ScanLinesStep(file, shapes, lo, i, n);
      w := ScanLine(file, lines[i], n, v);
      WithIssuesAppend(start, before.1, step.1);
    }

    /** `scanFile`: an unreadable file gets a read error and one issue; a
        readable one gets its front matter issue, the line loop's issues and
        the end-of-file issues, in that order. */
    method ScanFile(fs: FileSystem, yaml: YamlParser, filePath: Path, baseDir: Path)
      modifies this
      ensures StateOf() == AfterFile(fs, yaml, baseDir, filePath, old(StateOf()))
    {
      var relativeFile := RelativeName(baseDir, filePath);
      var content := ReadFile(fs, filePath);
      if content.Err? {
        fileErrors := fileErrors + [FileError(relativeFile, content.error)];
        AddIssue(NewIssue(relativeFile, 1, FileReadError(content.error)));
        return;
      }
      ScanContent(relativeFile, content.value, yaml);
    }

    /** The rest of `scanFile`, once the file is read. */
    method ScanContent(relativeFile: string, content: string, yaml: YamlParser)
      modifies this
      ensures StateOf() == WithIssues(old(StateOf()), FileIssues(relativeFile, content, yaml))
    {
      var lines := SplitLines(content);
      ghost var s0 := StateOf();
      var bodyStartLine := ScanFrontMatter(relativeFile, lines, yaml);
      ghost var s1 := StateOf();
      var lo: nat := bodyStartLine - 1;
      ShapesShaped(lines);
      var end := ScanBody(relativeFile, lines, Shapes(lines), lo);
      ghost var s2 := StateOf();
      ScanEnd(relativeFile, end, |lines|, bodyStartLine);
      ghost var scan := ScanLines(relativeFile, Shapes(lines), lo, |lines|);
      ghost var front := FrontMatterIssues(relativeFile, FrontMatterOf(lines), yaml);
      ghost var tail := EndIssues(relativeFile, end, |lines|, bodyStartLine);
      FiledInThree(s0, s1, s2, StateOf(), front, scan.1, tail);
      FileIssuesParts(relativeFile, content, yaml, lo);
    }

    /** The front matter part of `scanFile`: its issue, and the line the body starts on. */
    method ScanFrontMatter(relativeFile: string, lines: seq<string>, yaml: YamlParser) returns (bodyStartLine: nat)
      modifies this
      ensures bodyStartLine == BodyStart(lines)
      ensures StateOf() == WithIssues(old(StateOf()), FrontMatterIssues(relativeFile, FrontMatterOf(lines), yaml))
    {
      var frontMatter := FindFrontMatter(lines);
      bodyStartLine := ReportFrontMatter(relativeFile, frontMatter, |lines|, yaml);
    }

    /** The front matter checks on a found front matter block of a file of
        `lineCount` lines; an unclosed block leaves no line for the body. */
    method ReportFrontMatter(relativeFile: string, frontMatter: FrontMatter, lineCount: nat, yaml: YamlParser)
      returns (bodyStartLine: nat)
      modifies this
      ensures bodyStartLine == if frontMatter.hasFrontMatter && frontMatter.unclosed then lineCount + 1
                               else frontMatter.bodyStartLine
      ensures StateOf() == WithIssues(old(StateOf()), FrontMatterIssues(relativeFile, frontMatter, yaml))
    {
      bodyStartLine := frontMatter.bodyStartLine;
      if frontMatter.hasFrontMatter && frontMatter.unclosed {
        AddIssue(NewIssue(relativeFile, 1, UnclosedFrontMatter));
        WithOne(old(StateOf()), NewIssue(relativeFile, 1, UnclosedFrontMatter));
        bodyStartLine := lineCount + 1;
      } else if frontMatter.hasFrontMatter {
        var errors := yaml(frontMatter.raw);
        if |errors| > 0 {
          var firstError := errors[0];
          var relativeLine := if firstError.line == 0 then 1 else firstError.line;
          var message := if firstError.message == "" then "Invalid YAML in Front Matter." else firstError.message;
          AddIssue(NewIssue(relativeFile, 1 + relativeLine, InvalidFrontMatter(message)));
          WithOne(old(StateOf()), NewIssue(relativeFile, 1 + relativeLine, InvalidFrontMatter(message)));
        }
      }
    }

    /** The checks after the line loop: a fence left open, then several h1 headings. */
    method ScanEnd(relativeFile: string, end: ScanState, lineCount: nat, bodyStartLine: nat)
      modifies this
      ensures StateOf() == WithIssues(old(StateOf()), EndIssues(relativeFile, end, lineCount, bodyStartLine))
    {
      ghost var s0 := StateOf();
      ghost var first: seq<Issue> := [];
      if end.inFence {
        var unclosed := NewIssue(relativeFile, FenceLine(end.fenceStartLine, lineCount), UnclosedCodeFence);
        AddIssue(unclosed);
        WithOne(s0, unclosed);
        first := [unclosed];
      }
      ghost var s1 := StateOf();
      ghost var second: seq<Issue> := [];
      if end.h1Count > 1 {
        var many := NewIssue(relativeFile, bodyStartLine, MultipleH1(end.h1Count));
        AddIssue(many);
        WithOne(s1, many);
        second := [many];
      }
      WithIssuesAppend(s0, first, second);
      assert first + second == EndIssues(relativeFile, end, lineCount, bodyStartLine);
    }

    /** `scanDirectory` on the files the glob found: `scannedFiles` is set
        first, every file is scanned in order, then the counts are filled in. */
    method ScanDirectory(fs: FileSystem, yaml: YamlParser, cwd: Path, directory: string, files: seq<Path>)
      returns (report: Report)
      modifies this
      ensures StateOf() == Finished(AfterFiles(fs, yaml, Resolve(cwd, directory), files, Started(old(StateOf()), |files|)))
      ensures report == ReportOf(StateOf())
    {
      var baseDir := Resolve(cwd, directory);
      summary := summary.(scannedFiles := |files|);
      ghost var start := StateOf();
      for k := 0 to |files|
        invariant StateOf() == AfterFiles(fs, yaml, baseDir, files[..k], start)
      {
        AfterFilesStep(fs, yaml, baseDir, files, k, start);
        ScanFile(fs, yaml, files[k], baseDir);
      }
      assert files[..|files|] == files;
      summary := summary.(totalIssues := |issues|);
      summary := summary.(fileReadErrors := |fileErrors|);
      summary := summary.(filesWithIssues := |fileIssues|);
      report := Report(summary, issues, fileIssues, fileErrors);
    }
  }

  // ---------------------------------------------------------------------------
  // --fail-on and the exit status
  // ---------------------------------------------------------------------------

  /** `shouldFail`: read failures are counted on top of the errors, although
      each one is also an error issue already. */
  function ShouldFail(report: Report, failOn: string): (r: bool)
  {
    var errors := report.summary.errors;
    var warnings := report.summary.warnings;
    var fileReadErrors := report.summary.fileReadErrors;
    if failOn == "none" then false
    else if failOn == "warn" then errors + warnings + fileReadErrors > 0
    else if failOn == "error" then errors + fileReadErrors > 0
    else false
  }

  /** On a level name it is the shared policy with read failures added to the
      errors; any other value never fails. */
  lemma ShouldFailPolicy(report: Report, failOn: string)
    ensures forall level :: failOn == FailPolicy.LevelName(level) ==>
      ShouldFail(report, failOn)
        == FailPolicy.ShouldFail(level, report.summary.errors + report.summary.fileReadErrors, report.summary.warnings)
    ensures failOn !in {"none", "warn", "error"} ==> !ShouldFail(report, failOn)
  {
  }

  /** Because every read failure is also an error issue, counting it twice
      changes nothing: a run fails on errors exactly when it has an error, and
      on warnings exactly when it has any issue. */
  lemma RunFailsOn(fs: FileSystem, yaml: YamlParser, baseDir: Path, files: seq<Path>)
    ensures var r := RunReport(fs, yaml, baseDir, files);
      && (ShouldFail(r, "error") <==> r.summary.errors > 0)
      && (ShouldFail(r, "warn") <==> r.summary.totalIssues > 0)
      && !ShouldFail(r, "none")
  {
    RunReportSummary(fs, yaml, baseDir, files);
  }

  /** The process's exit status: 2 for an invalid `--fail-on` value (before
      any scanning), else 1 when the report fails under the level, else 0. */
  function ExitCode(failOn: string, report: Report): (code: nat)
    ensures code == 2 <==> FailPolicy.NormalizeFailOn(failOn).None?
    ensures code == 1 <==> (FailPolicy.NormalizeFailOn(failOn).Some?
      && FailPolicy.ShouldFail(FailPolicy.NormalizeFailOn(failOn).value,
                               report.summary.errors + report.summary.fileReadErrors, report.summary.warnings))
  {
    var level := FailPolicy.NormalizeFailOn(failOn);
    if level.None? then 2
    else
      ShouldFailPolicy(report, FailPolicy.LevelName(level.value));
      if ShouldFail(report, FailPolicy.LevelName(level.value)) then 1 else 0
  }

  /** With the default `--fail-on error`, a run exits 1 exactly when some
      issue is an error, in particular when a file cannot be read. */
  lemma DefaultExit(fs: FileSystem, yaml: YamlParser, baseDir: Path, files: seq<Path>)
    ensures var r := RunReport(fs, yaml, baseDir, files);
      ExitCode("error", r) == (if r.summary.errors > 0 then 1 else 0)
    ensures (exists k :: 0 <= k < |files| && ReadFile(fs, files[k]).Err?) ==>
      ExitCode("error", RunReport(fs, yaml, baseDir, files)) == 1
  {
    var r := RunReport(fs, yaml, baseDir, files);
    FailPolicy.NormalizeFailOnName(FailPolicy.FailError);
    RunFailsOn(fs, yaml, baseDir, files);
    RunReportSummary(fs, yaml, baseDir, files);
    UnreadableFileReported(fs, yaml, baseDir, files);
  }
}
