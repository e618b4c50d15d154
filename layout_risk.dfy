/** The `LayoutRiskScanner` class of `scripts/check-layout-risk.js` and its
    command line: `pushIssue` counts every issue and keeps at most
    `maxIssues` of them; `scanFile` reports a read failure or the findings of
    the line scan, the image scan and the wide-table check, and adds the
    file's counts to the summary; `scanDirectory` scans the files the glob
    found and fills in the derived counts; `--fail-on` decides the exit status. */
module CheckLayoutRisk {
  import opened Wrappers
  import opened Text
  import opened Paths
  import opened Tokens
  import opened MdLines
  import opened LayoutLines
  import opened LayoutScan
  import JsMap
  import FailPolicy
  import SiteRoots
  import LayoutAssets
  import LayoutHtml
  import Seqs

  // ---------------------------------------------------------------------------
  // The scanner's state
  // ---------------------------------------------------------------------------

  /** An entry of `fileReadErrors`. */
  datatype FileError = FileError(file: string, message: string)

  /** `this.summary`: the issue counts, and the per-file counts added up
      (sums, and maxima for the `max…`/`largest…` fields). */
  datatype Summary = Summary(scannedFiles: nat, filesWithIssues: nat, totalIssues: nat, errors: nat,
                             warnings: nat, fileReadErrors: nat, totals: Counts)

  /** The scanner's fields that change: `issues`, `fileReadErrors`, `summary`
      and `fileDetails` (a `Map` from file name to its counts). */
  datatype RunState = RunState(issues: seq<Issue>, fileReadErrors: seq<FileError>, summary: Summary,
                               fileDetails: JsMap.Entries<string, Counts>)

  const Fresh := RunState([], [], Summary(0, 0, 0, 0, 0, 0, NoCounts), [])

  /** What the scanner is built with and reads from: the file system, the
      Markdown parser, the thresholds and `maxIssues`. */
  datatype Settings = Settings(fs: FileSystem, parse: Tokenizer, th: Thresholds, maxIssues: int)

  /** `pushIssue`: every issue is counted, as an error or a warning; it is
      kept only while fewer than `maxIssues` are kept. */
  function Pushed(s: RunState, issue: Issue, maxIssues: int): RunState
  {
    var total := s.summary.(totalIssues := s.summary.totalIssues + 1);
    var counted := if issue.severity == SevError then total.(errors := total.errors + 1)
                   else total.(warnings := total.warnings + 1);
    s.(issues := if |s.issues| < maxIssues then s.issues + [issue] else s.issues, summary := counted)
  }

  /** `pushIssue` on each issue in order. */
  function PushedAll(s: RunState, found: seq<Issue>, maxIssues: int): RunState
  {
    if found == [] then s else Pushed(PushedAll(s, found[..|found| - 1], maxIssues), found[|found| - 1], maxIssues)
  }

  lemma PushedAllSnoc(s: RunState, found: seq<Issue>, issue: Issue, maxIssues: int)
    ensures PushedAll(s, found + [issue], maxIssues) == Pushed(PushedAll(s, found, maxIssues), issue, maxIssues)
  {
    assert (found + [issue])[..|found|] == found;
  }

  /** Pushing two lists one after the other is pushing their concatenation. */
  lemma {:induction false} PushedAllAppend(s: RunState, a: seq<Issue>, b: seq<Issue>, maxIssues: int)
    ensures PushedAll(s, a + b, maxIssues) == PushedAll(PushedAll(s, a, maxIssues), b, maxIssues)
    decreases |b|
  {
    if b == [] {
      assert a + b == a;
    } else {
      var init := b[..|b| - 1];
      PushedAllAppend(s, a, init, maxIssues);
      assert (a + b)[..|a + b| - 1] == a + init;
      assert (a + b)[|a + b| - 1] == b[|b| - 1];
    }
  }

  /** Pushing changes only the kept issues and the issue counts, and
      `totalIssues` grows by the number pushed. */
  lemma {:induction false} PushedAllKeeps(s: RunState, found: seq<Issue>, maxIssues: int)
    ensures var r := PushedAll(s, found, maxIssues);
      && r.fileReadErrors == s.fileReadErrors && r.fileDetails == s.fileDetails
      && r.summary.totals == s.summary.totals && r.summary.scannedFiles == s.summary.scannedFiles
      && r.summary.filesWithIssues == s.summary.filesWithIssues
      && r.summary.fileReadErrors == s.summary.fileReadErrors
      && r.summary.totalIssues == s.summary.totalIssues + |found|
  {
    if found != [] {
      PushedAllKeeps(s, found[..|found| - 1], maxIssues);
    }
  }

  /** The number of issues kept out of `n` pushed: none when `maxIssues` is
      not positive, else at most `maxIssues`. */
  function Cap(maxIssues: int, n: nat): (k: nat)
    ensures k <= n
    ensures k < n <==> n > (if maxIssues < 0 then 0 else maxIssues)
  {
    if maxIssues <= 0 then 0 else if maxIssues < n then maxIssues else n
  }

  /** What `pushIssue` keeps true of the issues `all` pushed so far: the kept
      list is their first `Cap` issues, and the counts count all of them, by
      severity. */
  predicate Tracks(s: RunState, all: seq<Issue>, maxIssues: int)
  {
    && s.issues == all[..Cap(maxIssues, |all|)]
    && s.summary.totalIssues == |all|
    && s.summary.errors == ErrorCount(all)
    && s.summary.errors + s.summary.warnings == |all|
  }

  lemma PushedTracks(s: RunState, all: seq<Issue>, issue: Issue, maxIssues: int)
    requires Tracks(s, all, maxIssues)
    ensures Tracks(Pushed(s, issue, maxIssues), all + [issue], maxIssues)
  {
    var next := all + [issue];
    ErrorCountSnoc(all, issue);
    if |s.issues| < maxIssues {
      assert Cap(maxIssues, |all|) == |all|;
      assert next[..Cap(maxIssues, |next|)] == all + [issue];
    } else {
      assert Cap(maxIssues, |next|) == Cap(maxIssues, |all|);
      assert next[..Cap(maxIssues, |next|)] == all[..Cap(maxIssues, |all|)];
    }
  }

  /** Pushing a list extends what has been pushed by that list. */
  lemma {:induction false} PushedAllTracks(s: RunState, all: seq<Issue>, found: seq<Issue>, maxIssues: int)
    requires Tracks(s, all, maxIssues)
    ensures Tracks(PushedAll(s, found, maxIssues), all + found, maxIssues)
    decreases |found|
  {
    if found == [] {
      assert all + found == all;
    } else {
      var init := found[..|found| - 1];
      PushedAllTracks(s, all, init, maxIssues);
      PushedTracks(PushedAll(s, init, maxIssues), all + init, found[|found| - 1], maxIssues);
      assert all + init + [found[|found| - 1]] == all + found;
    }
  }

  // ---------------------------------------------------------------------------
  // scanFile and scanDirectory, on values
  // ---------------------------------------------------------------------------

  /** The aggregation into the summary: counts add up, maxima take the larger. */
  function Combine(a: Counts, b: Counts): Counts
  {
    Counts(a.tableBlocks + b.tableBlocks, a.tableRows + b.tableRows, Max(a.maxTableCols, b.maxTableCols),
           a.codeBlocks + b.codeBlocks, Max(a.maxTextLineLen, b.maxTextLineLen), a.longTextLines + b.longTextLines,
           Max(a.maxCodeLineLen, b.maxCodeLineLen), a.longCodeLines + b.longCodeLines,
           a.imagesTotal + b.imagesTotal, a.imagesLocal + b.imagesLocal,
           a.imagesLocalMissing + b.imagesLocalMissing, a.imagesLocalOverLarge + b.imagesLocalOverLarge,
           Max(a.largestLocalImageBytes, b.largestLocalImageBytes))
  }

  /** The totals do not depend on the order the files are scanned in, and
      the zero counts change nothing. */
  lemma CombineLaws(a: Counts, b: Counts, c: Counts)
    ensures Combine(a, b) == Combine(b, a)
    ensures Combine(Combine(a, b), c) == Combine(a, Combine(b, c))
    ensures Combine(NoCounts, a) == a
  {
  }

  /** The `file_read_error` issue of a file that cannot be read. */
  function ReadErrorIssue(file: string, message: string): Issue
  {
    Issue(SevError, FileReadError, file, 1, 1, message)
  }

  /** A scanned file: its name relative to the scanned directory, and the read
      error's message or the counts and issues of its content. */
  datatype Scanned = Scanned(file: string, outcome: Result<FileResult, string>)

  /** What `scanFile` finds in the file at `filePath`. */
  function ScanOf(e: Settings, roots: SiteRoots.Roots, filePath: Path): Scanned
  {
    var rel := RelativeName(roots.baseDir, filePath);
    Scanned(rel, match ReadFile(e.fs, filePath)
                 case Err(message) => Err(message)
                 case Ok(content) => Ok(ScanContent(e.th, e.fs, roots, filePath, rel, content, e.parse(content))))
  }

  /** The state change of `scanFile`, given what it finds: an unreadable file
      records its read error and pushes one error issue; a readable one
      pushes its findings, adds its counts to the summary, sets its
      `fileDetails` entry and, when it pushed anything, counts as a file with
      issues. */
  function AfterScanned(sc: Scanned, maxIssues: int, s: RunState): RunState
  {
    match sc.outcome
    case Err(message) =>
      Pushed(s.(fileReadErrors := s.fileReadErrors + [FileError(sc.file, message)]),
             ReadErrorIssue(sc.file, message), maxIssues)
    case Ok(r) =>
      var t := PushedAll(s, r.found, maxIssues);
      t.(summary := t.summary.(totals := Combine(t.summary.totals, r.counts),
                               filesWithIssues := t.summary.filesWithIssues + (if r.found != [] then 1 else 0)),
         fileDetails := JsMap.Set(t.fileDetails, sc.file, r.counts))
  }

  /** `scanFile`'s effect. */
  function AfterFile(e: Settings, roots: SiteRoots.Roots, filePath: Path, s: RunState): RunState
  {
    AfterScanned(ScanOf(e, roots, filePath), e.maxIssues, s)
  }

  /** The state after scanning `files` in order. */
  function AfterFiles(e: Settings, roots: SiteRoots.Roots, files: seq<Path>, s: RunState): RunState
  {
    if files == [] then s else AfterFile(e, roots, files[|files| - 1], AfterFiles(e, roots, files[..|files| - 1], s))
  }

  lemma AfterFilesStep(e: Settings, roots: SiteRoots.Roots, files: seq<Path>, k: nat, s: RunState)
    requires k < |files|
    ensures AfterFiles(e, roots, files[..k + 1], s) == AfterFile(e, roots, files[k], AfterFiles(e, roots, files[..k], s))
  {
    assert files[..k + 1][..k] == files[..k];
  }

  /** The counts filled in after the loop. */
  function Finished(s: RunState, fileCount: nat): RunState
  {
    s.(summary := s.summary.(scannedFiles := fileCount, fileReadErrors := |s.fileReadErrors|))
  }

  /** `scanDirectory`'s value. */
  datatype Report = Report(thresholds: Thresholds, summary: Summary, issuesTruncated: bool, issues: seq<Issue>,
                           fileDetails: JsMap.Entries<string, Counts>, fileReadErrors: seq<FileError>)

  function ReportOf(th: Thresholds, s: RunState): Report
  {
    Report(th, s.summary, |s.issues| < s.summary.totalIssues, s.issues, s.fileDetails, s.fileReadErrors)
  }

  /** The report of a fresh scanner over the files the glob found below `directory`. */
  function RunReport(e: Settings, cwd: Path, directory: string, files: seq<Path>): Report
  {
    var roots := SiteRoots.ResolveRoots(e.fs, Resolve(cwd, directory));
    ReportOf(e.th, Finished(AfterFiles(e, roots, files, Fresh), |files|))
  }

  // ---------------------------------------------------------------------------
  // A run, file by file
  // ---------------------------------------------------------------------------

  /** `scanFile` as a function of the file's path. */
  function Scanner(e: Settings, roots: SiteRoots.Roots): Path -> Scanned
  {
    f => ScanOf(e, roots, f)
  }

  /** What each file of a run gives, in order. */
  function Scans(e: Settings, roots: SiteRoots.Roots, files: seq<Path>): (os: seq<Scanned>)
    ensures |os| == |files|
  {
    Seqs.Map(Scanner(e, roots), files)
  }

  lemma ScansAt(e: Settings, roots: SiteRoots.Roots, files: seq<Path>, k: nat)
    requires k < |files|
    ensures Scans(e, roots, files)[k] == ScanOf(e, roots, files[k])
  {
    Seqs.MapAt(Scanner(e, roots), files, k);
  }

  /** The state after the changes of `os`, in order. */
  function AfterAll(os: seq<Scanned>, maxIssues: int, s: RunState): RunState
  {
    if os == [] then s else AfterScanned(os[|os| - 1], maxIssues, AfterAll(os[..|os| - 1], maxIssues, s))
  }

  lemma {:induction false} AfterFilesScans(e: Settings, roots: SiteRoots.Roots, files: seq<Path>, s: RunState)
    ensures AfterFiles(e, roots, files, s) == AfterAll(Scans(e, roots, files), e.maxIssues, s)
  {
    if files != [] {
      var init := files[..|files| - 1];
      AfterFilesScans(e, roots, init, s);
      var os := Scans(e, roots, files);
      assert os[..|os| - 1] == Scans(e, roots, init);
    }
  }

  /** The issues a scanned file pushes. */
  function Pushes(sc: Scanned): seq<Issue>
  {
    match sc.outcome
    case Err(message) => [ReadErrorIssue(sc.file, message)]
    case Ok(r) => r.found
  }

  /** Every issue the files push, in order. */
  function AllPushes(os: seq<Scanned>): seq<Issue>
  {
    Seqs.FlatMap(Pushes, os)
  }

  /** The readable files' counts added up. */
  function Totals(os: seq<Scanned>): Counts
  {
    if os == [] then NoCounts
    else
      var t := Totals(os[..|os| - 1]);
      match os[|os| - 1].outcome
      case Err(_) => t
      case Ok(r) => Combine(t, r.counts)
  }

  /** The number of files that cannot be read. */
  function ReadFailures(os: seq<Scanned>): nat
  {
    Seqs.CountWhere((sc: Scanned) => sc.outcome.Err?, os)
  }

  /** The number of readable files whose result satisfies `pred`. */
  function CountReadable(os: seq<Scanned>, pred: FileResult -> bool): nat
  {
    Seqs.CountWhere((sc: Scanned) => sc.outcome.Ok? && pred(sc.outcome.value), os)
  }

  /** The files with a table wider than the limit, each warned about once. */
  function WideFiles(th: Thresholds, os: seq<Scanned>): nat
  {
    CountReadable(os, (r: FileResult) => r.counts.maxTableCols > th.maxTableCols)
  }

  /** The readable files with at least one finding. */
  function FilesWithFindings(os: seq<Scanned>): nat
  {
    CountReadable(os, (r: FileResult) => r.found != [])
  }

  /** The names of the readable files. */
  function ReadableNames(os: seq<Scanned>): set<string>
  {
    if os == [] then {}
    else ReadableNames(os[..|os| - 1]) + (if os[|os| - 1].outcome.Ok? then {os[|os| - 1].file} else {})
  }

  /** The state of a fresh scanner after the changes of `os`. */
  predicate RunTracks(maxIssues: int, os: seq<Scanned>, s: RunState)
  {
    && Tracks(s, AllPushes(os), maxIssues)
    && s.summary.totals == Totals(os)
    && |s.fileReadErrors| == ReadFailures(os)
    && s.summary.filesWithIssues == FilesWithFindings(os)
    && s.summary.scannedFiles == 0 && s.summary.fileReadErrors == 0
    && JsMap.DistinctKeys(s.fileDetails) && JsMap.Keys(s.fileDetails) == ReadableNames(os)
  }

  /** One more file keeps the state that of the files scanned. */
  lemma AfterScannedTracks(maxIssues: int, os: seq<Scanned>, sc: Scanned, s: RunState)
    requires RunTracks(maxIssues, os, s)
    ensures RunTracks(maxIssues, os + [sc], AfterScanned(sc, maxIssues, s))
  {
    var more := os + [sc];
    assert more[..|os|] == os;
    assert more[|more| - 1] == sc;
    var all := AllPushes(os);
    assert AllPushes(more) == all + Pushes(sc);
    match sc.outcome
    case Err(message) =>
      var s1 := s.(fileReadErrors := s.fileReadErrors + [FileError(sc.file, message)]);
      PushedTracks(s1, all, ReadErrorIssue(sc.file, message), maxIssues);
    case Ok(r) =>
      PushedAllTracks(s, all, r.found, maxIssues);
      PushedAllKeeps(s, r.found, maxIssues);
      var t := PushedAll(s, r.found, maxIssues);
      JsMap.SetDistinct(t.fileDetails, sc.file, r.counts);
      FileDetailsKeys(t.fileDetails, sc.file, r.counts);
  }

  /** Setting a key adds it to the keys. */
  lemma FileDetailsKeys(m: JsMap.Entries<string, Counts>, k: string, v: Counts)
    ensures JsMap.Keys(JsMap.Set(m, k, v)) == JsMap.Keys(m) + {k}
  {
    JsMap.SetKeys(m, k, v);
    var r := JsMap.Set(m, k, v);
    JsMap.GetSetSame(m, k, v);
    JsMap.InKeys(r, k);
    forall x | x in JsMap.Keys(r) ensures x in JsMap.Keys(m) + {k} {
      var i :| 0 <= i < |r| && r[i].0 == x;
      if i < |m| {
        assert m[i].0 == x;
      }
    }
  }

  lemma {:induction false} AfterAllTracks(maxIssues: int, os: seq<Scanned>)
    ensures RunTracks(maxIssues, os, AfterAll(os, maxIssues, Fresh))
  {
    if os == [] {
      assert AllPushes(os) == [];
    } else {
      var init := os[..|os| - 1];
      AfterAllTracks(maxIssues, init);
      AfterScannedTracks(maxIssues, init, os[|os| - 1], AfterAll(init, maxIssues, Fresh));
      assert init + [os[|os| - 1]] == os;
    }
  }

  /** What a readable file's counts say about the issues it pushes. */
  predicate Accounted(th: Thresholds, r: FileResult)
  {
    var c := r.counts;
    && |r.found| == c.longTextLines + c.longCodeLines + c.imagesLocalMissing + c.imagesLocalOverLarge
                    + (if c.maxTableCols > th.maxTableCols then 1 else 0)
    && ErrorCount(r.found) == c.imagesLocalMissing
  }

  predicate AllAccounted(th: Thresholds, os: seq<Scanned>)
  {
    forall k :: 0 <= k < |os| && os[k].outcome.Ok? ==> Accounted(th, os[k].outcome.value)
  }

  lemma ScanOfAccounted(e: Settings, roots: SiteRoots.Roots, filePath: Path)
    ensures ScanOf(e, roots, filePath).outcome.Ok? ==> Accounted(e.th, ScanOf(e, roots, filePath).outcome.value)
  {
    var rel := RelativeName(roots.baseDir, filePath);
    match ReadFile(e.fs, filePath)
    case Err(_) =>
    case Ok(content) =>
      ScanContentCounts(e.th, e.fs, roots, filePath, rel, content, e.parse(content));
  }

  lemma ScansAccounted(e: Settings, roots: SiteRoots.Roots, files: seq<Path>)
    ensures AllAccounted(e.th, Scans(e, roots, files))
  {
    var os := Scans(e, roots, files);
    forall k | 0 <= k < |os| && os[k].outcome.Ok? ensures Accounted(e.th, os[k].outcome.value) {
      ScansAt(e, roots, files, k);
      ScanOfAccounted(e, roots, files[k]);
    }
  }

  /** The issues of a run are accounted for by the read failures and the
      readable files' counts: one per unreadable file, long line, missing and
      large local image, and file with a wide table; the errors are the read
      failures and the missing images. Each file with findings or a read
      failure pushes at least one issue. */
  lemma {:induction false} AllPushesCount(th: Thresholds, os: seq<Scanned>)
    requires AllAccounted(th, os)
    ensures var all := AllPushes(os);
      var t := Totals(os);
      && |all| == ReadFailures(os) + t.longTextLines + t.longCodeLines + t.imagesLocalMissing
                  + t.imagesLocalOverLarge + WideFiles(th, os)
      && ErrorCount(all) == ReadFailures(os) + t.imagesLocalMissing
      && FilesWithFindings(os) + ReadFailures(os) <= |os|
      && FilesWithFindings(os) + ReadFailures(os) <= |all|
  {
    if os != [] {
      var init := os[..|os| - 1];
      var sc := os[|os| - 1];
      assert AllAccounted(th, init) by {
        forall k | 0 <= k < |init| && init[k].outcome.Ok? ensures Accounted(th, init[k].outcome.value) {
          assert init[k] == os[k];
        }
      }
      AllPushesCount(th, init);
      assert AllPushes(os) == AllPushes(init) + Pushes(sc);
      ErrorCountAppend(AllPushes(init), Pushes(sc));
      match sc.outcome
      case Err(message) =>
        ErrorCountSnoc([], ReadErrorIssue(sc.file, message));
      case Ok(r) =>
        assert Accounted(th, r);
    }
  }

  /** A file of the run cannot be read exactly when its outcome is a read error. */
  lemma ReadFailuresExist(e: Settings, roots: SiteRoots.Roots, files: seq<Path>)
    ensures ReadFailures(Scans(e, roots, files)) > 0 <==> exists k :: 0 <= k < |files| && ReadFile(e.fs, files[k]).Err?
  {
    var os := Scans(e, roots, files);
    Seqs.CountWhereExists((sc: Scanned) => sc.outcome.Err?, os);
    forall k | 0 <= k < |files| ensures os[k].outcome.Err? <==> ReadFile(e.fs, files[k]).Err? {
      ScansAt(e, roots, files, k);
    }
  }

  /** A scan's report: `scannedFiles` is the number of files; one read error
      is recorded and counted per unreadable file; every issue is an error or
      a warning and is counted, per the readable files' totals, whether or not
      it is kept; the kept issues are the first `maxIssues` pushed, and the
      list is marked truncated exactly when more were pushed; no more files
      have issues than were read, or than there are issues; `fileDetails`
      has one entry per readable file name. */
  lemma RunReportCounts(e: Settings, cwd: Path, directory: string, files: seq<Path>)
    ensures var os := Scans(e, SiteRoots.ResolveRoots(e.fs, Resolve(cwd, directory)), files);
      var r := RunReport(e, cwd, directory, files);
      var all := AllPushes(os);
      var t := r.summary.totals;
      && r.summary.scannedFiles == |files|
      && r.summary.fileReadErrors == |r.fileReadErrors| == ReadFailures(os)
      && t == Totals(os)
      && r.summary.totalIssues == |all| == r.summary.errors + r.summary.warnings
      && r.summary.errors == r.summary.fileReadErrors + t.imagesLocalMissing
      && r.summary.totalIssues == r.summary.fileReadErrors + t.longTextLines + t.longCodeLines
                                  + t.imagesLocalMissing + t.imagesLocalOverLarge + WideFiles(e.th, os)
      && r.issues == all[..Cap(e.maxIssues, |all|)]
      && (r.issuesTruncated <==> r.summary.totalIssues > (if e.maxIssues < 0 then 0 else e.maxIssues))
      && r.summary.filesWithIssues + r.summary.fileReadErrors <= r.summary.scannedFiles
      && r.summary.filesWithIssues + r.summary.fileReadErrors <= r.summary.totalIssues
      && JsMap.DistinctKeys(r.fileDetails) && JsMap.Keys(r.fileDetails) == ReadableNames(os)
  {
    var roots := SiteRoots.ResolveRoots(e.fs, Resolve(cwd, directory));
    var os := Scans(e, roots, files);
    AfterFilesScans(e, roots, files, Fresh);
    AfterAllTracks(e.maxIssues, os);
    ScansAccounted(e, roots, files);
    AllPushesCount(e.th, os);
  }

  // ---------------------------------------------------------------------------
  // The scanner
  // ---------------------------------------------------------------------------

  /** Three pushes one after the other are a push of their concatenation. */
  lemma PushedInThree(s0: RunState, s1: RunState, s2: RunState, s3: RunState, a: seq<Issue>, b: seq<Issue>,
                      c: seq<Issue>, maxIssues: int)
    requires s1 == PushedAll(s0, a, maxIssues) && s2 == PushedAll(s1, b, maxIssues) && s3 == PushedAll(s2, c, maxIssues)
    ensures s3 == PushedAll(s0, a + b + c, maxIssues)
  {
    PushedAllAppend(s0, a, b, maxIssues);
    PushedAllAppend(s0, a + b, c, maxIssues);
  }

  lemma PushedOne(s: RunState, issue: Issue, maxIssues: int)
    ensures PushedAll(s, [issue], maxIssues) == Pushed(s, issue, maxIssues)
  {
    PushedAllSnoc(s, [], issue, maxIssues);
  }

  class LayoutRiskScanner {
    const fs: FileSystem
    /** The `markdown-it` instance (`linkify: false`, `html: true`). */
    const parse: Tokenizer
    const thresholds: Thresholds
    const maxIssues: int
    var issues: seq<Issue>
    var fileReadErrors: seq<FileError>
    var summary: Summary
    var fileDetails: JsMap.Entries<string, Counts>

    function StateOf(): RunState
      reads this
    {
      RunState(issues, fileReadErrors, summary, fileDetails)
    }

    function SettingsOf(): Settings
    {
      Settings(fs, parse, thresholds, maxIssues)
    }

    constructor(fs: FileSystem, parse: Tokenizer, thresholds: Thresholds, maxIssues: int)
      ensures SettingsOf() == Settings(fs, parse, thresholds, maxIssues)
      ensures StateOf() == Fresh
    {
      this.fs := fs;
      this.parse := parse;
      this.thresholds := thresholds;
      this.maxIssues := maxIssues;
      issues := [];
      fileReadErrors := [];
      summary := Summary(0, 0, 0, 0, 0, 0, NoCounts);
      fileDetails := [];
    }

    /** `pushIssue`. */
    method PushIssue(issue: Issue)
      modifies this
      ensures StateOf() == Pushed(old(StateOf()), issue, maxIssues)
    {
      summary := summary.(totalIssues := summary.totalIssues + 1);
      if issue.severity == SevError {
        summary := summary.(errors := summary.errors + 1);
      }
      if issue.severity == SevWarning {
        summary := summary.(warnings := summary.warnings + 1);
      }
      if |issues| < maxIssues {
        issues := issues + [issue];
      }
    }

    /** `scanDirectory` on the files the glob found; the derived counts are
        filled in after the loop. */
    method ScanDirectory(cwd: Path, directory: string, files: seq<Path>) returns (report: Report)
      modifies this
      ensures var roots := SiteRoots.ResolveRoots(fs, Resolve(cwd, directory));
        StateOf() == Finished(AfterFiles(SettingsOf(), roots, files, old(StateOf())), |files|)
      ensures report == ReportOf(thresholds, StateOf())
      ensures old(StateOf()) == Fresh ==> report == RunReport(SettingsOf(), cwd, directory, files)
    {
      var roots := SiteRoots.ResolveRoots(fs, Resolve(cwd, directory));
      ScanFiles(files, roots);
      summary := summary.(scannedFiles := |files|);
      summary := summary.(fileReadErrors := |fileReadErrors|);
      report := Report(thresholds, summary, |issues| < summary.totalIssues, issues, fileDetails, fileReadErrors);
    }

    /** The loop of `scanDirectory`. */
    method ScanFiles(files: seq<Path>, roots: SiteRoots.Roots)
      modifies this
      ensures StateOf() == AfterFiles(SettingsOf(), roots, files, old(StateOf()))
    {
      ghost var start := StateOf();
      for k := 0 to |files|
        invariant StateOf() == AfterFiles(SettingsOf(), roots, files[..k], start)
      {
        AfterFilesStep(SettingsOf(), roots, files, k, start);
        ScanFile(files[k], roots);
      }
      assert files[..|files|] == files;
    }

    /** `scanFile`: a read failure is recorded and pushed; a readable file is scanned. */
    method ScanFile(filePath: Path, roots: SiteRoots.Roots)
      modifies this
      ensures StateOf() == AfterFile(SettingsOf(), roots, filePath, old(StateOf()))
    {
      var relativeFile := RelativeName(roots.baseDir, filePath);
      var content := ReadFile(fs, filePath);
      if content.Err? {
        fileReadErrors := fileReadErrors + [FileError(relativeFile, content.error)];
        PushIssue(ReadErrorIssue(relativeFile, content.error));
        return;
      }
      ScanReadable(filePath, roots, relativeFile, content.value);
    }

    /** The rest of `scanFile`: the findings, then the aggregation into the
        summary and `fileDetails`. */
    method ScanReadable(filePath: Path, roots: SiteRoots.Roots, relativeFile: string, content: string)
      modifies this
      ensures StateOf() == AfterScanned(Scanned(relativeFile,
                Ok(ScanContent(thresholds, fs, roots, filePath, relativeFile, content, parse(content)))),
                maxIssues, old(StateOf()))
    {
      var fileHadIssueBefore := summary.totalIssues;
      ghost var s0 := StateOf();
      ghost var found;
      var perFile;
      perFile, found := ScanFindings(filePath, roots, relativeFile, content);
      PushedAllKeeps(s0, found, maxIssues);
      summary := summary.(totals := Combine(summary.totals, perFile));
      fileDetails := JsMap.Set(fileDetails, relativeFile, perFile);
      if summary.totalIssues > fileHadIssueBefore {
        summary := summary.(filesWithIssues := summary.filesWithIssues + 1);
      }
    }

    /** The line scan, the image scan and the wide-table warning of
        `scanFile`: the file's counts, with its issues pushed in order. */
    method ScanFindings(filePath: Path, roots: SiteRoots.Roots, relativeFile: string, content: string)
      returns (perFile: Counts, ghost found: seq<Issue>)
      modifies this
      ensures FileResult(perFile, found) == ScanContent(thresholds, fs, roots, filePath, relativeFile, content, parse(content))
      ensures StateOf() == PushedAll(old(StateOf()), found, maxIssues)
    {
      ghost var s0 := StateOf();
      var shapes := Shapes(SplitLines(content));
      perFile := ScanLineLoop(relativeFile, shapes);
      ghost var lines := ScanLines(thresholds, relativeFile, shapes, 0, LineStart);
      ghost var s1 := StateOf();
      var imageSrcs := CollectImageSources(parse(content));
      perFile := ScanImages(relativeFile, filePath, roots, imageSrcs, perFile);
      ghost var images := ImagesOf(thresholds, Locator(filePath, roots), Stater(fs), roots.baseDir, relativeFile,
                                   imageSrcs, ImageScan({}, lines.counts, []));
      ghost var s2 := StateOf();
      ghost var wide: seq<Issue> := [];
      if perFile.maxTableCols > thresholds.maxTableCols {
        var issue := WideTableIssue(thresholds, relativeFile, perFile.maxTableCols);
        PushIssue(issue);
        PushedOne(s2, issue, maxIssues);
        wide := [issue];
      }
      found := lines.found + images.found + wide;
      PushedInThree(s0, s1, s2, StateOf(), lines.found, images.found, wide, maxIssues);
    }

    /** The line loop of `scanFile`, on the lines' shapes: the file's counts,
        and every warning it reports pushed in order. */
    method ScanLineLoop(file: string, shapes: seq<LineShape>) returns (perFile: Counts)
      modifies this
      ensures perFile == ScanLines(thresholds, file, shapes, 0, LineStart).counts
      ensures StateOf() == PushedAll(old(StateOf()), ScanLines(thresholds, file, shapes, 0, LineStart).found, maxIssues)
    {
      ghost var s0 := StateOf();
      ghost var found: seq<Issue> := [];
      var fenceState := Outside;
      perFile := NoCounts;
      var i := 0;
      while i < |shapes|
        invariant i <= |shapes|
        invariant ScanLines(thresholds, file, shapes, i, LineScan(fenceState, perFile, found))
               == ScanLines(thresholds, file, shapes, 0, LineStart)
        invariant StateOf() == PushedAll(s0, found, maxIssues)
        decreases |shapes| - i
      {
        ghost var r := Step(thresholds, file, shapes, i, fenceState, perFile);
        i, fenceState, perFile := ScanLine(file, shapes, i, fenceState, perFile);
        PushedAllAppend(s0, found, r.emitted, maxIssues);
        found := found + r.emitted;
      }
    }

    /** One pass of the line loop at index `i`, giving the index the loop
        goes on from. */
    method ScanLine(file: string, shapes: seq<LineShape>, i: nat, fenceState: FenceState, perFile: Counts)
      returns (next: nat, fenceOut: FenceState, counts: Counts)
      requires i < |shapes|
      modifies this
      ensures var r := Step(thresholds, file, shapes, i, fenceState, perFile);
        next == r.next && fenceOut == r.fence && counts == r.counts
        && StateOf() == PushedAll(old(StateOf()), r.emitted, maxIssues)
    {
      var line := shapes[i];
      next, fenceOut, counts := i + 1, fenceState, perFile;
      if fenceState.Outside? {
        if line.open.Some? {
          fenceOut := Inside(line.open.value.markerChar, line.open.value.markerLen);
          counts := counts.(codeBlocks := counts.codeBlocks + 1);
          return;
        }
        if line.hasPipe && i + 1 < |shapes| && shapes[i + 1].delimiter {
          counts := counts.(tableBlocks := counts.tableBlocks + 1);
          var headerCols := line.columns;
          counts := counts.(maxTableCols := Max(counts.maxTableCols, headerCols));
          counts := counts.(tableRows := counts.tableRows + 1);
          var last;
          last, counts := ConsumeTable(shapes, i + 1, counts);
          next := last + 1;
          return;
        }
        var textLen := line.length;
        counts := counts.(maxTextLineLen := Max(counts.maxTextLineLen, textLen));
        if textLen > thresholds.maxTextLineLength {
          counts := counts.(longTextLines := counts.longTextLines + 1);
          var issue := TextLineIssue(thresholds, file, i + 1, line);
          PushIssue(issue);
          PushedOne(old(StateOf()), issue, maxIssues);
        }
      } else {
        if ClosesWith(line.bare, fenceState) {
          fenceOut := Outside;
          return;
        }
        var codeLen := line.length;
        counts := counts.(maxCodeLineLen := Max(counts.maxCodeLineLen, codeLen));
        if codeLen > thresholds.maxCodeLineLength {
          counts := counts.(longCodeLines := counts.longCodeLines + 1);
          var issue := CodeLineIssue(thresholds, file, i + 1, line);
          PushIssue(issue);
          PushedOne(old(StateOf()), issue, maxIssues);
        }
      }
    }

    /** The table rows after the delimiter row at index `k`: the loop stops
        at a line without a pipe (an empty line has none) or with at most one
        column. */
    method ConsumeTable(shapes: seq<LineShape>, k: nat, perFile: Counts) returns (last: nat, counts: Counts)
      requires k < |shapes|
      ensures (last, counts) == TableEnd(shapes, k, perFile)
    {
      last, counts := k, perFile;
      while last + 1 < |shapes|
        invariant k <= last < |shapes|
        invariant TableEnd(shapes, last, counts) == TableEnd(shapes, k, perFile)
        decreases |shapes| - last
      {
        var nextLine := shapes[last + 1];
        if !nextLine.hasPipe {
          break;
        }
        var cols := nextLine.columns;
        if cols <= 1 {
          break;
        }
        counts := counts.(maxTableCols := Max(counts.maxTableCols, cols));
        counts := counts.(tableRows := counts.tableRows + 1);
        last := last + 1;
      }
    }

    /** The token loop collecting `imageSrcs`. */
    method CollectImageSources(tokens: seq<BlockToken>) returns (imageSrcs: seq<string>)
      ensures imageSrcs == ImageSources(tokens)
    {
      imageSrcs := [];
      for t := 0 to |tokens|
        invariant imageSrcs == ImageSources(tokens[..t])
      {
        var token := tokens[t];
        assert tokens[..t + 1][..t] == tokens[..t];
        if token.Inline? && token.children.Some? {
          var children := token.children.value;
          ghost var before := imageSrcs;
          for c := 0 to |children|
            invariant imageSrcs == before + ChildrenImages(children[..c])
          {
            var child := children[c];
            assert children[..c + 1][..c] == children[..c];
            if child.ImageToken? && child.src != "" {
              imageSrcs := imageSrcs + [child.src];
            }
            if child.HtmlInline? {
              imageSrcs := imageSrcs + LayoutHtml.ImgSources(child.content);
            }
          }
          assert children[..|children|] == children;
        }
        if token.HtmlBlock? {
          imageSrcs := imageSrcs + LayoutHtml.ImgSources(token.content);
        }
      }
      assert tokens[..|tokens|] == tokens;
    }

    /** The de-duplicating image loop of `scanFile`. */
    method ScanImages(file: string, filePath: Path, roots: SiteRoots.Roots, imageSrcs: seq<string>, perFile: Counts)
      returns (counts: Counts)
      modifies this
      ensures var r := ImagesOf(thresholds, Locator(filePath, roots), Stater(fs), roots.baseDir, file, imageSrcs,
                                ImageScan({}, perFile, []));
        counts == r.counts && StateOf() == PushedAll(old(StateOf()), r.found, maxIssues)
    {
      ghost var s0 := StateOf();
      ghost var found: seq<Issue> := [];
      var seenSrc: set<string> := {};
      counts := perFile;
      for k := 0 to |imageSrcs|
        invariant ImageScan(seenSrc, counts, found)
               == ImagesOf(thresholds, Locator(filePath, roots), Stater(fs), roots.baseDir, file, imageSrcs[..k],
                           ImageScan({}, perFile, []))
        invariant StateOf() == PushedAll(s0, found, maxIssues)
      {
        ImagesOfStep(thresholds, Locator(filePath, roots), Stater(fs), roots.baseDir, file, imageSrcs, k,
                     ImageScan({}, perFile, []));
        ghost var emitted;
        seenSrc, counts, emitted := CheckImage(file, filePath, roots, imageSrcs[k], seenSrc, counts, found);
        PushedAllAppend(s0, found, emitted, maxIssues);
        found := found + emitted;
      }
      assert imageSrcs[..|imageSrcs|] == imageSrcs;
    }

    /** One pass of the image loop: `emitted` is the issue it pushes, if any. */
    method CheckImage(file: string, filePath: Path, roots: SiteRoots.Roots, src: string, seenSrc: set<string>,
                      perFile: Counts, ghost found: seq<Issue>)
      returns (seen: set<string>, counts: Counts, ghost emitted: seq<Issue>)
      modifies this
      ensures ImageScan(seen, counts, found + emitted)
           == ImageStep(thresholds, Locator(filePath, roots), Stater(fs), roots.baseDir, file, src,
                        ImageScan(seenSrc, perFile, found))
      ensures StateOf() == PushedAll(old(StateOf()), emitted, maxIssues)
    {
      var s := Trim(src);
      if s == "" || s in seenSrc {
        seen, counts, emitted := seenSrc, perFile, [];
        assert found + [] == found;
        return;
      }
      ImageStepNew(thresholds, Locator(filePath, roots), Stater(fs), roots.baseDir, file, src,
                   ImageScan(seenSrc, perFile, found));
      seen := seenSrc + {s};
      counts := perFile.(imagesTotal := perFile.imagesTotal + 1);
      counts, emitted := CountImage(file, filePath, roots, s, seen, counts, found);
    }

    /** A new source, once counted: when it names a local file, that file is
        looked up and a missing or large one pushes its issue. */
    method CountImage(file: string, filePath: Path, roots: SiteRoots.Roots, s: string, seen: set<string>,
                      perFile: Counts, ghost found: seq<Issue>)
      returns (counts: Counts, ghost emitted: seq<Issue>)
      modifies this
      ensures ImageScan(seen, counts, found + emitted)
           == Counted(thresholds, roots.baseDir, file, s, LookUp(Locator(filePath, roots), Stater(fs), s),
                      seen, perFile, found)
      ensures StateOf() == PushedAll(old(StateOf()), emitted, maxIssues)
    {
      counts, emitted := perFile, [];
      assert found + [] == found;
      var localPath := LayoutAssets.AssetPath(s, filePath, roots);
      if localPath.None? {
        assert LookUp(Locator(filePath, roots), Stater(fs), s) == NotLocal;
        return;
      }
      var stat := Stat(fs, localPath.value);
      var look := Local(localPath.value, stat);
      assert LookUp(Locator(filePath, roots), Stater(fs), s) == look;
      counts, emitted := CountLookup(file, roots.baseDir, s, look, seen, perFile, found);
    }

    /** The lookup part of a new source: a local path that cannot be stat-ed
        is missing, a regular file over the limit is large. */
    method CountLookup(file: string, baseDir: Path, s: string, look: Lookup, seen: set<string>,
                       perFile: Counts, ghost found: seq<Issue>)
      returns (counts: Counts, ghost emitted: seq<Issue>)
      requires look.Local?
      modifies this
      ensures ImageScan(seen, counts, found + emitted) == Counted(thresholds, baseDir, file, s, look, seen, perFile, found)
      ensures StateOf() == PushedAll(old(StateOf()), emitted, maxIssues)
    {
      counts, emitted := perFile, [];
      assert found + [] == found;
      counts := counts.(imagesLocal := counts.imagesLocal + 1);
      var rel := RelativeName(baseDir, look.path);
      match look.info
      case None =>
        counts := counts.(imagesLocalMissing := counts.imagesLocalMissing + 1);
        var issue := MissingImageIssue(file, s, rel);
        PushIssue(issue);
        PushedOne(old(StateOf()), issue, maxIssues);
        emitted := [issue];
      case Some(Directory) =>
      case Some(RegularFile(bytes)) =>
        counts := counts.(largestLocalImageBytes := Max(counts.largestLocalImageBytes, bytes));
        if bytes > thresholds.largeImageBytes {
          counts := counts.(imagesLocalOverLarge := counts.imagesLocalOverLarge + 1);
          var issue := LargeImageIssue(thresholds, file, s, rel, bytes);
          PushIssue(issue);
          PushedOne(old(StateOf()), issue, maxIssues);
          emitted := [issue];
        }
    }
  }

  // ---------------------------------------------------------------------------
  // --fail-on and the exit status
  // ---------------------------------------------------------------------------

  /** `shouldFail`: unlike the Markdown structure checker, read failures are
      counted once, as the error issues they push. */
  function ShouldFail(report: Report, failOn: string): (r: bool)
  {
    var errors := report.summary.errors;
    var warnings := report.summary.warnings;
    if failOn == "none" then false
    else if failOn == "warn" then errors + warnings > 0
    else if failOn == "error" then errors > 0
    else false
  }

  /** On a level name it is the shared policy on errors and warnings; any
      other value never fails. */
  lemma ShouldFailPolicy(report: Report, failOn: string)
    ensures forall level :: failOn == FailPolicy.LevelName(level) ==>
      ShouldFail(report, failOn) == FailPolicy.ShouldFail(level, report.summary.errors, report.summary.warnings)
    ensures failOn !in {"none", "warn", "error"} ==> !ShouldFail(report, failOn)
  {
  }

  /** The process's exit status: 2 for an invalid `--fail-on` value, else 1
      when the report fails under the level, else 0. */
  function ExitCode(failOn: string, report: Report): (code: nat)
    ensures code == 2 <==> FailPolicy.NormalizeFailOn(failOn).None?
    ensures code == 1 <==> (FailPolicy.NormalizeFailOn(failOn).Some?
      && FailPolicy.ShouldFail(FailPolicy.NormalizeFailOn(failOn).value, report.summary.errors, report.summary.warnings))
  {
    var level := FailPolicy.NormalizeFailOn(failOn);
    if level.None? then 2
    else
      ShouldFailPolicy(report, FailPolicy.LevelName(level.value));
      if ShouldFail(report, FailPolicy.LevelName(level.value)) then 1 else 0
  }

  /** With the default `--fail-on none` a scan always exits 0; with `error` it
      exits 1 exactly when a file cannot be read or a local image is missing;
      with `warn` exactly when anything was reported. */
  lemma RunExit(e: Settings, cwd: Path, directory: string, files: seq<Path>)
    ensures var r := RunReport(e, cwd, directory, files);
      && ExitCode("none", r) == 0
      && (ExitCode("error", r) == 1 <==> r.summary.fileReadErrors + r.summary.totals.imagesLocalMissing > 0)
      && (ExitCode("warn", r) == 1 <==> r.summary.totalIssues > 0)
    ensures (exists k :: 0 <= k < |files| && ReadFile(e.fs, files[k]).Err?) ==>
      ExitCode("error", RunReport(e, cwd, directory, files)) == 1
  {
    FailPolicy.NormalizeFailOnName(FailPolicy.FailNone);
    FailPolicy.NormalizeFailOnName(FailPolicy.FailError);
    FailPolicy.NormalizeFailOnName(FailPolicy.FailWarn);
    RunReportCounts(e, cwd, directory, files);
    ReadFailuresExist(e, SiteRoots.ResolveRoots(e.fs, Resolve(cwd, directory)), files);
  }

  // ---------------------------------------------------------------------------
  // The command line's numbers
  // ---------------------------------------------------------------------------

  /** A numeric option: `Number(v)` when finite (`Some`), else the default. */
  function FiniteOr(v: Option<int>, default: int): int
  {
    v.UnwrapOr(default)
  }

  /** The thresholds and `maxIssues` the command line passes to the scanner. */
  function CliSettings(fs: FileSystem, parse: Tokenizer, maxTextLine: Option<int>, maxCodeLine: Option<int>,
                       maxTableCols: Option<int>, largeImageBytes: Option<int>, maxIssues: Option<int>): (e: Settings)
    ensures e.fs == fs && e.parse == parse
    ensures maxTextLine.Some? ==> e.th.maxTextLineLength == maxTextLine.value
    ensures maxIssues.Some? ==> e.maxIssues == maxIssues.value
  {
    Settings(fs, parse,
             Thresholds(FiniteOr(maxTextLine, DefaultThresholds.maxTextLineLength),
                        FiniteOr(maxCodeLine, DefaultThresholds.maxCodeLineLength),
                        FiniteOr(maxTableCols, DefaultThresholds.maxTableCols),
                        FiniteOr(largeImageBytes, DefaultThresholds.largeImageBytes)),
             FiniteOr(maxIssues, 200))
  }

  /** Without options (or with values that are not finite numbers) the
      thresholds are 160, 200, 10 and 1 000 000, and 200 issues are kept. */
  lemma CliDefaults(fs: FileSystem, parse: Tokenizer)
    ensures var e := CliSettings(fs, parse, None, None, None, None, None);
      e.th == Thresholds(160, 200, 10, 1_000_000) && e.maxIssues == 200
  {
  }
}
