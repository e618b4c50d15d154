/** The `check-unicode` script: where the allowlist comes from, the runner that
    scans every file the glob found and files its issues, the report and its
    summary, the display of an issue's character, and the `--fail-on` decision. */
module CheckUnicode {
  import opened Wrappers
  import opened Text
  import opened Paths
  import JsMap
  import FailPolicy
  import opened UnicodeChecking

  // ---------------------------------------------------------------------------
  // The allowlist file
  // ---------------------------------------------------------------------------

  /** The locations tried when no allowlist is given, in order. */
  function DefaultCandidates(baseDir: Path): seq<Path>
  {
    [Join(baseDir, ".book-formatter/unicode-allowlist.json"), Join(baseDir, "unicode-allowlist.json")]
  }

  /** The position of the first existing candidate at or after `from`, or
      the number of candidates when none exists. */
  function FirstExistingFrom(fs: FileSystem, candidates: seq<Path>, from: nat): (k: nat)
    requires from <= |candidates|
    ensures from <= k <= |candidates|
    ensures k < |candidates| ==> Exists(fs, candidates[k])
    ensures forall j :: from <= j < k ==> !Exists(fs, candidates[j])
    decreases |candidates| - from
  {
    if from == |candidates| || Exists(fs, candidates[from]) then from
    else FirstExistingFrom(fs, candidates, from + 1)
  }

  /** The first candidate that exists, if any. */
  function FirstExisting(fs: FileSystem, candidates: seq<Path>): (r: Option<Path>)
    ensures r.None? <==> forall j :: 0 <= j < |candidates| ==> !Exists(fs, candidates[j])
    ensures r.Some? ==> exists k :: (0 <= k < |candidates| && candidates[k] == r.value
      && Exists(fs, r.value) && forall j :: 0 <= j < k ==> !Exists(fs, candidates[j]))
  {
    var k := FirstExistingFrom(fs, candidates, 0);
    if k < |candidates| then Some(candidates[k]) else None
  }

  /** `findDefaultAllowlist`. */
  method FindDefaultAllowlist(fs: FileSystem, baseDir: Path) returns (r: Option<Path>)
    ensures r == FirstExisting(fs, DefaultCandidates(baseDir))
  {
    r := FirstExistingOf(fs, DefaultCandidates(baseDir));
  }

  /** The loop of `findDefaultAllowlist`: the first candidate that exists. */
  method FirstExistingOf(fs: FileSystem, candidates: seq<Path>) returns (r: Option<Path>)
    ensures r == FirstExisting(fs, candidates)
  {
    for k := 0 to |candidates|
      invariant forall j :: 0 <= j < k ==> !Exists(fs, candidates[j])
    {
      if Exists(fs, candidates[k]) {
        FirstExistingAt(fs, candidates, k);
        return Some(candidates[k]);
      }
    }
    return None;
  }

  /** An existing candidate after only missing ones is the first existing one. */
  lemma FirstExistingAt(fs: FileSystem, candidates: seq<Path>, k: nat)
    requires k < |candidates| && Exists(fs, candidates[k])
    requires forall j :: 0 <= j < k ==> !Exists(fs, candidates[j])
    ensures FirstExisting(fs, candidates) == Some(candidates[k])
  {
    var i := FirstExistingFrom(fs, candidates, 0);
    assert !(i < k) && !(k < i);
  }

  /** The default allowlist in `.book-formatter/` wins over the one in the
      directory itself, which is used only when the first is missing. */
  lemma DefaultAllowlistOrder(fs: FileSystem, baseDir: Path)
    ensures var first := Join(baseDir, ".book-formatter/unicode-allowlist.json");
      var second := Join(baseDir, "unicode-allowlist.json");
      FirstExisting(fs, DefaultCandidates(baseDir)) ==
        if Exists(fs, first) then Some(first) else if Exists(fs, second) then Some(second) else None
  {
    FirstOfTwo(fs, Join(baseDir, ".book-formatter/unicode-allowlist.json"), Join(baseDir, "unicode-allowlist.json"));
  }

  lemma FirstOfTwo(fs: FileSystem, first: Path, second: Path)
    ensures FirstExisting(fs, [first, second]) ==
      if Exists(fs, first) then Some(first) else if Exists(fs, second) then Some(second) else None
  {
    if Exists(fs, first) {
      FirstExistingAt(fs, [first, second], 0);
    } else if Exists(fs, second) {
      FirstExistingAt(fs, [first, second], 1);
    }
  }

  /** The allowlist file of a scan: the given path resolved against the
      working directory, or else the first default location that exists. */
  function AllowlistFile(fs: FileSystem, cwd: Path, baseDir: Path, allowlistPath: Option<string>): Option<Path>
  {
    if allowlistPath.Some? && allowlistPath.value != "" then Some(Resolve(cwd, allowlistPath.value))
    else FirstExisting(fs, DefaultCandidates(baseDir))
  }

  /** `fs.readJsonSync`'s parse step: the JSON value of a text as far as the
      checker looks at it, or the parse error. */
  type JsonReader = string -> Result<RawAllowlist, string>

  /** `loadAllowlistIfExists`: a missing file, a read error or a parse error
      gives `null` (`NotObject`); otherwise the parsed value. */
  function LoadAllowlist(fs: FileSystem, cwd: Path, file: Option<Path>, parseJson: JsonReader): (raw: RawAllowlist)
    ensures raw != NotObject ==> (file.Some? && Exists(fs, Resolve(cwd, file.value))
      && ReadFile(fs, Resolve(cwd, file.value)).Ok?
      && parseJson(ReadFile(fs, Resolve(cwd, file.value)).value) == Ok(raw))
  {
    if file.None? then NotObject
    else
      var resolved := Resolve(cwd, file.value);
      if !Exists(fs, resolved) then NotObject
      else
        match ReadFile(fs, resolved)
        case Err(_) => NotObject
        case Ok(text) =>
          match parseJson(text)
          case Err(_) => NotObject
          case Ok(value) => value
  }

  /** Whatever goes wrong loading the allowlist, the checker allows nothing. */
  lemma FailedLoadAllowsNothing(fs: FileSystem, cwd: Path, file: Option<Path>, parseJson: JsonReader, f: string, cp: string)
    requires file.None? || !Exists(fs, Resolve(cwd, file.value)) || ReadFile(fs, Resolve(cwd, file.value)).Err?
      || parseJson(ReadFile(fs, Resolve(cwd, file.value)).value).Err?
    ensures AllowlistOf(LoadAllowlist(fs, cwd, file, parseJson)) == NoAllowlist
    ensures !IsAllowed(AllowlistOf(LoadAllowlist(fs, cwd, file, parseJson)), f, cp)
  {
    NothingAllowed(f, cp);
  }

  // ---------------------------------------------------------------------------
  // The runner's lists
  // ---------------------------------------------------------------------------

  /** An issue of the flat list: the checker's issue with its file added. */
  datatype TaggedIssue = TaggedIssue(file: string, issue: Issue)

  /** A file that could not be read, with the error's message. */
  datatype FileError = FileError(file: string, message: string)

  /** `issues`, `fileIssues` and `fileErrors` of `UnicodeQualityRunner`. */
  datatype RunState = RunState(issues: seq<TaggedIssue>, fileIssues: JsMap.Entries<string, seq<Issue>>,
                               fileErrors: seq<FileError>)

  const Fresh := RunState([], [], [])

  /** The issues of one file, each tagged with the file. */
  function Tag(file: string, found: seq<Issue>): (r: seq<TaggedIssue>)
    ensures |r| == |found|
    ensures forall k :: 0 <= k < |found| ==> r[k] == TaggedIssue(file, found[k])
  {
    seq(|found|, k requires 0 <= k < |found| => TaggedIssue(file, found[k]))
  }

  /** The flat list the per-file lists make, in entry order. */
  function Flatten(entries: JsMap.Entries<string, seq<Issue>>): seq<TaggedIssue>
  {
    if entries == [] then []
    else
      var last := entries[|entries| - 1];
      Flatten(entries[..|entries| - 1]) + Tag(last.0, last.1)
  }

  /** The file name issues are reported under. */
  function FileName(baseDir: Path, filePath: Path): string
  {
    Relative(baseDir, filePath)
  }

  /** `scanFile`'s effect: an unreadable file adds a read error and no issues;
      a readable file with issues sets its entry and appends its tagged
      issues; a file without issues changes nothing. */
  function AfterFile(fs: FileSystem, al: Allowlist, baseDir: Path, filePath: Path, s: RunState): RunState
  {
    var rel := FileName(baseDir, filePath);
    match ReadFile(fs, filePath)
    case Err(message) => s.(fileErrors := s.fileErrors + [FileError(rel, message)])
    case Ok(content) =>
      var found := Issues(al, rel, content);
      if found == [] then s
      else RunState(s.issues + Tag(rel, found), JsMap.Set(s.fileIssues, rel, found), s.fileErrors)
  }

  /** An unreadable file adds its read error and no issue; a readable one
      adds no read error, and appends exactly its scan's issues. */
  lemma AfterFileEffect(fs: FileSystem, al: Allowlist, baseDir: Path, filePath: Path, s: RunState)
    ensures var r := AfterFile(fs, al, baseDir, filePath, s);
      var read := ReadFile(fs, filePath);
      && (read.Err? ==>
            r.issues == s.issues && r.fileIssues == s.fileIssues
            && r.fileErrors == s.fileErrors + [FileError(FileName(baseDir, filePath), read.error)])
      && (read.Ok? ==>
            r.fileErrors == s.fileErrors
            && r.issues == s.issues + Tag(FileName(baseDir, filePath), Issues(al, FileName(baseDir, filePath), read.value)))
  {
    var read := ReadFile(fs, filePath);
    if read.Ok? && Issues(al, FileName(baseDir, filePath), read.value) == [] {
      assert Tag(FileName(baseDir, filePath), []) == [];
    }
  }

  /** The runner's lists after scanning `files` in order. */
  function AfterFiles(fs: FileSystem, al: Allowlist, baseDir: Path, files: seq<Path>, s: RunState): RunState
  {
    if files == [] then s
    else AfterFile(fs, al, baseDir, files[|files| - 1], AfterFiles(fs, al, baseDir, files[..|files| - 1], s))
  }

  lemma AfterFilesStep(fs: FileSystem, al: Allowlist, baseDir: Path, files: seq<Path>, k: nat, s: RunState)
    requires k < |files|
    ensures AfterFiles(fs, al, baseDir, files[..k + 1], s) == AfterFile(fs, al, baseDir, files[k], AfterFiles(fs, al, baseDir, files[..k], s))
  {
    assert files[..k + 1][..k] == files[..k];
  }

  /** The flat list is the per-file lists in entry order with their files
      added, every file is set once, and only files with issues are set. */
  ghost predicate RunValid(s: RunState)
  {
    && JsMap.DistinctKeys(s.fileIssues)
    && s.issues == Flatten(s.fileIssues)
    && forall k :: 0 <= k < |s.fileIssues| ==> s.fileIssues[k].1 != []
  }

  /** A file not scanned before keeps the lists consistent. */
  lemma AfterFileValid(fs: FileSystem, al: Allowlist, baseDir: Path, filePath: Path, s: RunState)
    requires RunValid(s) && !JsMap.HasKey(s.fileIssues, FileName(baseDir, filePath))
    ensures RunValid(AfterFile(fs, al, baseDir, filePath, s))
  {
    var rel := FileName(baseDir, filePath);
    var r := ReadFile(fs, filePath);
    if r.Ok? {
      var found := Issues(al, rel, r.value);
      if found != [] {
        var e := JsMap.Set(s.fileIssues, rel, found);
        assert e == s.fileIssues + [(rel, found)];
        assert e[..|e| - 1] == s.fileIssues;
      }
    }
  }

  /** The file names of a list of files. */
  function FileNames(baseDir: Path, files: seq<Path>): (r: seq<string>)
    ensures |r| == |files|
    ensures forall k :: 0 <= k < |files| ==> r[k] == FileName(baseDir, files[k])
  {
    seq(|files|, k requires 0 <= k < |files| => FileName(baseDir, files[k]))
  }

  /** A scan sets at most the entry of its own file. */
  lemma AfterFileKeys(fs: FileSystem, al: Allowlist, baseDir: Path, filePath: Path, s: RunState)
    ensures forall x :: JsMap.HasKey(AfterFile(fs, al, baseDir, filePath, s).fileIssues, x) ==>
      JsMap.HasKey(s.fileIssues, x) || x == FileName(baseDir, filePath)
  {
    var rel := FileName(baseDir, filePath);
    var r := ReadFile(fs, filePath);
    if r.Ok? && Issues(al, rel, r.value) != [] {
      JsMap.SetKeys(s.fileIssues, rel, Issues(al, rel, r.value));
    }
  }

  /** Every file with an entry is one of the files scanned. */
  lemma {:induction false} AfterFilesKeys(fs: FileSystem, al: Allowlist, baseDir: Path, files: seq<Path>)
    ensures forall x :: JsMap.HasKey(AfterFiles(fs, al, baseDir, files, Fresh).fileIssues, x) ==>
      x in FileNames(baseDir, files)
  {
    if files != [] {
      var n := |files| - 1;
      var init := files[..n];
      AfterFilesKeys(fs, al, baseDir, init);
      var s := AfterFiles(fs, al, baseDir, init, Fresh);
      AfterFileKeys(fs, al, baseDir, files[n], s);
      var t := AfterFile(fs, al, baseDir, files[n], s);
      forall x | JsMap.HasKey(t.fileIssues, x)
        ensures x in FileNames(baseDir, files)
      {
        if JsMap.HasKey(s.fileIssues, x) {
          var names := FileNames(baseDir, init);
          var i :| 0 <= i < |names| && names[i] == x;
          assert FileNames(baseDir, files)[i] == x;
        } else {
          assert FileNames(baseDir, files)[n] == x;
        }
      }
    }
  }

  /** Scanning files with distinct names from the start keeps the lists consistent. */
  lemma {:induction false} AfterFilesValid(fs: FileSystem, al: Allowlist, baseDir: Path, files: seq<Path>)
    requires forall i, j :: 0 <= i < j < |files| ==> FileName(baseDir, files[i]) != FileName(baseDir, files[j])
    ensures RunValid(AfterFiles(fs, al, baseDir, files, Fresh))
  {
    if files != [] {
      var n := |files| - 1;
      var init := files[..n];
      AfterFilesValid(fs, al, baseDir, init);
      AfterFilesKeys(fs, al, baseDir, init);
      var s := AfterFiles(fs, al, baseDir, init, Fresh);
      var rel := FileName(baseDir, files[n]);
      forall x | JsMap.HasKey(s.fileIssues, x)
        ensures x != rel
      {
        var names := FileNames(baseDir, init);
        var i :| 0 <= i < |names| && names[i] == x;
        assert FileName(baseDir, files[i]) == x;
      }
      AfterFileValid(fs, al, baseDir, files[n], s);
    }
  }

  /** The flat list holds as many issues as the per-file lists together. */
  lemma {:induction false} FlattenLength(entries: JsMap.Entries<string, seq<Issue>>)
    ensures |Flatten(entries)| == JsMap.TotalLength(entries)
  {
    if entries != [] {
      FlattenLength(entries[..|entries| - 1]);
    }
  }

  // ---------------------------------------------------------------------------
  // The report
  // ---------------------------------------------------------------------------

  /** `report.summary`. */
  datatype Summary = Summary(filesWithIssues: nat, totalIssues: nat, errors: nat, warnings: nat, fileReadErrors: nat)

  /** `generateReport()`'s value (the console output is not modelled). */
  datatype Report = Report(summary: Summary, issues: seq<TaggedIssue>,
                           fileDetails: JsMap.Entries<string, seq<Issue>>, fileReadErrors: seq<FileError>)

  /** The number of issues with the given severity. */
  function CountSeverity(issues: seq<TaggedIssue>, sev: Severity): (n: nat)
    ensures n <= |issues|
  {
    if issues == [] then 0
    else CountSeverity(issues[..|issues| - 1], sev) + (if issues[|issues| - 1].issue.severity == sev then 1 else 0)
  }

  /** Every issue is an error or a warning, so the two counts add up to the total. */
  lemma {:induction false} SeveritiesPartition(issues: seq<TaggedIssue>)
    ensures CountSeverity(issues, SevError) + CountSeverity(issues, SevWarning) == |issues|
  {
    if issues != [] {
      SeveritiesPartition(issues[..|issues| - 1]);
    }
  }

  /** The report of a runner's lists. */
  function ReportOf(s: RunState): (r: Report)
    ensures r.summary.errors + r.summary.warnings == r.summary.totalIssues
    ensures r.summary.totalIssues == |s.issues| && r.summary.filesWithIssues == |s.fileIssues|
    ensures r.summary.fileReadErrors == |s.fileErrors|
    ensures r.issues == s.issues && r.fileDetails == s.fileIssues && r.fileReadErrors == s.fileErrors
  {
    SeveritiesPartition(s.issues);
    Report(Summary(|s.fileIssues|, |s.issues|, CountSeverity(s.issues, SevError),
                   CountSeverity(s.issues, SevWarning), |s.fileErrors|), s.issues, s.fileIssues, s.fileErrors)
  }

  /** With consistent lists, the total is the sum of the per-file counts, and
      a file is counted in `filesWithIssues` only if it has issues. */
  lemma ReportCounts(s: RunState)
    requires RunValid(s)
    ensures ReportOf(s).summary.totalIssues == JsMap.TotalLength(s.fileIssues)
    ensures ReportOf(s).summary.filesWithIssues <= ReportOf(s).summary.totalIssues
  {
    FlattenLength(s.fileIssues);
    NonEmptyTotal(s.fileIssues);
  }

  /** Entries with non-empty lists hold at least one issue each. */
  lemma {:induction false} NonEmptyTotal(entries: JsMap.Entries<string, seq<Issue>>)
    requires forall k :: 0 <= k < |entries| ==> entries[k].1 != []
    ensures |entries| <= JsMap.TotalLength(entries)
  {
    if entries != [] {
      NonEmptyTotal(entries[..|entries| - 1]);
    }
  }

  /** The loop of `scanFile` pushing each issue of a file, with the file added. */
  method PushTagged(issues: seq<TaggedIssue>, file: string, found: seq<Issue>) returns (r: seq<TaggedIssue>)
    ensures r == issues + Tag(file, found)
  {
    r := issues;
    for k := 0 to |found|
      invariant r == issues + Tag(file, found[..k])
    {
      assert Tag(file, found[..k + 1]) == Tag(file, found[..k]) + [TaggedIssue(file, found[k])];
      r := r + [TaggedIssue(file, found[k])];
    }
    assert found[..|found|] == found;
  }

  /** The runner. */
  class UnicodeQualityRunner {
    var issues: seq<TaggedIssue>
    var fileIssues: JsMap.Entries<string, seq<Issue>>
    var fileErrors: seq<FileError>

    function StateOf(): RunState
      reads this
    {
      RunState(issues, fileIssues, fileErrors)
    }

    constructor()
      ensures StateOf() == Fresh
    {
      issues := [];
      fileIssues := [];
      fileErrors := [];
    }

    /** `scanFile`. */
    method ScanFile(fs: FileSystem, filePath: Path, baseDir: Path, checker: UnicodeChecker)
      modifies this
      ensures StateOf() == AfterFile(fs, checker.allowlist, baseDir, filePath, old(StateOf()))
    {
      var relativeFile := FileName(baseDir, filePath);
      var content := ReadFile(fs, filePath);
      if content.Err? {
        fileErrors := fileErrors + [FileError(relativeFile, content.error)];
        return;
      }
      var found := checker.ScanText(content.value, relativeFile);
      if |found| == 0 {
        return;
      }
      fileIssues := JsMap.Set(fileIssues, relativeFile, found);
      issues := PushTagged(issues, relativeFile, found);
    }

    /** `generateReport`. */
    function GenerateReport(): Report
      reads this
    {
      ReportOf(StateOf())
    }

    /** `scanDirectory` on the files the glob found: the allowlist is chosen
        and loaded, then every file is scanned in order. */
    method ScanDirectory(fs: FileSystem, cwd: Path, directory: string, allowlistPath: Option<string>,
                         parseJson: JsonReader, files: seq<Path>) returns (report: Report)
      modifies this
      ensures var baseDir := Resolve(cwd, directory);
        var al := AllowlistOf(LoadAllowlist(fs, cwd, AllowlistFile(fs, cwd, baseDir, allowlistPath), parseJson));
        StateOf() == AfterFiles(fs, al, baseDir, files, old(StateOf()))
      ensures report == ReportOf(StateOf())
    {
      var baseDir := Resolve(cwd, directory);
      var allowlistFile: Option<Path>;
      if allowlistPath.Some? && allowlistPath.value != "" {
        allowlistFile := Some(Resolve(cwd, allowlistPath.value));
      } else {
        allowlistFile := FindDefaultAllowlist(fs, baseDir);
      }
      var allowlist := LoadAllowlist(fs, cwd, allowlistFile, parseJson);
      var checker := new UnicodeChecker(allowlist);
      for k := 0 to |files|
        invariant StateOf() == AfterFiles(fs, checker.allowlist, baseDir, files[..k], old(StateOf()))
      {
        AfterFilesStep(fs, checker.allowlist, baseDir, files, k, old(StateOf()));
        ScanFile(fs, files[k], baseDir, checker);
      }
      assert files[..|files|] == files;
      report := GenerateReport();
    }
  }

  // ---------------------------------------------------------------------------
  // formatIssueChar
  // ---------------------------------------------------------------------------

  /** The codepoints shown by name. */
  const NamedCodepoints: set<string> := {"U+00A0", "U+00AD", "U+200B", "U+200C", "U+200D", "U+2060", "U+FEFF"}

  /** Control characters: below U+0020, and U+007F..U+009F. */
  predicate IsControl(c: char)
  {
    c as int < 0x20 || 0x7F <= c as int <= 0x9F
  }

  /** A character is shown as itself unless it is whitespace the report names,
      a named codepoint, or a control character. */
  predicate ShownAsIs(c: char, codepoint: string)
  {
    c !in {' ', '\t', '\r', '\n'} && codepoint !in NamedCodepoints && !IsControl(c)
  }

  /** A display token: `<`, a name, `>`. */
  predicate IsToken(r: string)
  {
    |r| >= 2 && r[0] == '<' && r[|r| - 1] == '>'
  }

  /** `formatIssueChar` for an issue's character and codepoint. */
  function FormatIssueChar(ch: Option<char>, codepoint: string): (r: string)
    ensures ch.None? ==> r == "<null>"
    ensures ch.Some? ==> (r == [ch.value] <==> ShownAsIs(ch.value, codepoint))
    ensures ch.Some? && !ShownAsIs(ch.value, codepoint) ==> IsToken(r)
  {
    if ch.None? then "<null>"
    else
      var c := ch.value;
      if c == ' ' then "<space>"
      else if c == '\t' then "<TAB>"
      else if c == '\r' then "<CR>"
      else if c == '\n' then "<LF>"
      else if codepoint == "U+00A0" then "<NBSP>"
      else if codepoint == "U+00AD" then "<SHY>"
      else if codepoint == "U+200B" then "<ZWSP>"
      else if codepoint == "U+200C" then "<ZWNJ>"
      else if codepoint == "U+200D" then "<ZWJ>"
      else if codepoint == "U+2060" then "<WORD_JOINER>"
      else if codepoint == "U+FEFF" then "<BOM>"
      else if IsControl(c) then "<" + codepoint + ">"
      else [c]
  }

  /** A control character the scan reports is shown by its codepoint. */
  lemma ControlShownByCodepoint(c: char)
    requires IsControl(c) && !IsNewline(c) && c != '\t'
    ensures FormatIssueChar(Some(c), ToCodepoint(c as int)) == "<" + ToCodepoint(c as int) + ">"
  {
    var u := ToCodepoint(c as int);
    CodepointDigits(c as int);
    forall n | n in NamedCodepoints
      ensures u != n
    {
      NamedAbove(n);
    }
  }

  /** Each named codepoint spells a value of at least U+00A0, above every control. */
  lemma NamedAbove(n: string)
    requires n in NamedCodepoints
    ensures |n| == 6 && AllHex(n[2..]) && HexValue(n[2..]) >= 0xA0
  {
    FourDigits(n[2..]);
  }

  /** The value of four hexadecimal digits. */
  lemma FourDigits(d: string)
    requires |d| == 4 && AllHex(d)
    ensures HexValue(d) == HexDigitValue(d[0]) * 4096 + HexDigitValue(d[1]) * 256 + HexDigitValue(d[2]) * 16 + HexDigitValue(d[3])
  {
    var d3 := d[..3];
    var d2 := d3[..2];
    var d1 := d2[..1];
    assert d1[..0] == [] && d1[0] == d[0] && d2[1] == d[1] && d3[2] == d[2];
    assert HexValue(d1) == HexDigitValue(d[0]);
    assert HexValue(d2) == HexValue(d1) * 16 + HexDigitValue(d[1]);
    assert HexValue(d3) == HexValue(d2) * 16 + HexDigitValue(d[2]);
    assert HexValue(d) == HexValue(d3) * 16 + HexDigitValue(d[3]);
  }

  /** Every control character issue of a scan is displayed as a token, never
      as the raw character. */
  lemma ReportedControlsShown(al: Allowlist, file: string, issue: Issue)
    requires Reported(al, file, issue) && issue.kind == ControlCharacter
    ensures FormatIssueChar(Some(issue.ch), issue.codepoint) == "<" + issue.codepoint + ">"
  {
    ClassifyKinds(issue.ch as int);
    ClassifySeverities(issue.ch as int);
    ControlKindIsControl(issue.ch as int);
    ControlShownByCodepoint(issue.ch);
  }

  /** The control-character kind covers exactly control characters other
      than tab, line feed and carriage return. */
  lemma ControlKindIsControl(cp: int)
    requires Classify(cp).Some? && Classify(cp).value.kind == ControlCharacter
    ensures 0 <= cp < 0x20 || 0x7F <= cp <= 0x9F
    ensures cp != 0x09 && cp != 0x0A && cp != 0x0D
  {
  }

  // ---------------------------------------------------------------------------
  // --fail-on
  // ---------------------------------------------------------------------------

  /** The script's own `shouldFail`, on the already lowercased option value. */
  function ShouldFail(report: Report, failOn: string): (r: bool)
  {
    if failOn == "none" then false
    else if failOn == "warn" then report.summary.errors + report.summary.warnings > 0
    else if failOn == "error" then report.summary.errors > 0
    else false
  }

  /** On a valid level it is the shared policy on the report's error and
      warning counts; any other value never fails. */
  lemma ShouldFailPolicy(report: Report, failOn: string)
    ensures forall level :: failOn == FailPolicy.LevelName(level) ==>
      ShouldFail(report, failOn) == FailPolicy.ShouldFail(level, report.summary.errors, report.summary.warnings)
    ensures failOn !in {"none", "warn", "error"} ==> !ShouldFail(report, failOn)
  {
  }

  /** The command line's level: the option, or `error` when it is missing or
      empty, lowercased but not trimmed. */
  function CliFailOn(option: Option<string>): (r: Option<FailPolicy.FailLevel>)
    ensures var v := Lower(if option.None? || option.value == "" then "error" else option.value);
      && (r.Some? <==> v in {"none", "warn", "error"})
      && (r.Some? ==> FailPolicy.LevelName(r.value) == v)
  {
    var v := Lower(if option.None? || option.value == "" then "error" else option.value);
    if v == "none" then Some(FailPolicy.FailNone)
    else if v == "warn" then Some(FailPolicy.FailWarn)
    else if v == "error" then Some(FailPolicy.FailError)
    else None
  }

  /** The exit status: 2 for an invalid level (before any scanning), else 1
      when the report fails under the level, else 0. */
  function ExitCode(option: Option<string>, report: Report): (code: nat)
    ensures code == 2 <==> CliFailOn(option).None?
    ensures code == 1 <==> (CliFailOn(option).Some?
      && FailPolicy.ShouldFail(CliFailOn(option).value, report.summary.errors, report.summary.warnings))
  {
    var level := CliFailOn(option);
    if level.None? then 2
    else
      ShouldFailPolicy(report, FailPolicy.LevelName(level.value));
      if ShouldFail(report, FailPolicy.LevelName(level.value)) then 1 else 0
  }

  /** Without the option the run fails exactly when some issue is an error. */
  lemma DefaultFailsOnErrors(report: Report)
    ensures ExitCode(None, report) == (if report.summary.errors > 0 then 1 else 0)
  {
    assert Lower("error") == "error";
  }

  /** Unlike `normalizeFailOn`, the command line does not trim: a level name
      after a space is rejected here while the shared parser accepts it. */
  lemma CliDoesNotTrim(level: FailPolicy.FailLevel)
    ensures CliFailOn(Some(" " + FailPolicy.LevelName(level))).None?
    ensures FailPolicy.NormalizeFailOn(" " + FailPolicy.LevelName(level)) == Some(level)
  {
    CliRejectsLeadingSpace(FailPolicy.LevelName(level));
    var s := " " + FailPolicy.LevelName(level);
    assert s[..1] == " " && s[1..] == FailPolicy.LevelName(level);
    assert AllSpace(s[..1]);
    FailPolicy.NormalizeFailOnLoose(s, 1);
    FailPolicy.NormalizeFailOnName(level);
  }

  lemma CliRejectsLeadingSpace(name: string)
    ensures CliFailOn(Some(" " + name)).None?
  {
    var v := Lower(" " + name);
    assert v[0] == ' ';
    assert v != "none" && v != "warn" && v != "error";
  }
}
