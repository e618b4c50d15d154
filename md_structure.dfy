/** The Markdown structure checker: front matter delimiters, code fences
    (after section 4.5 of CommonMark 0.30), ATX headings (after section 4.2),
    and a per-file line scan that reports skipped heading levels, several h1
    headings, fences without a language and fences left open. */
module MarkdownStructure {
  import opened Wrappers
  import opened Text
  import opened Paths
  import opened MdLines
  import JsMap
  import FailPolicy

  // ---------------------------------------------------------------------
  // Code fences

  /** An opening fence: its marker, the trimmed info string and the language. */
  datatype Fence = Fence(markerChar: char, markerLen: nat, infoString: string, language: string)

  /** Length of the leading run of non-whitespace characters. */
  function WordRun(s: string): (n: nat)
    ensures n <= |s|
    ensures NoSpace(s[..n])
    ensures n < |s| ==> IsSpace(s[n])
  {
    if s == [] || IsSpace(s[0]) then 0
    else
      var m := WordRun(s[1..]);
      assert s[..m + 1] == [s[0]] + s[1..][..m];
      m + 1
  }

  /** `s.split(/\s+/).filter(Boolean)[0] || ''`: the first word, or nothing. */
  function FirstWord(s: string): (w: string)
    ensures NoSpace(w)
    ensures |w| == 0 <==> AllSpace(s)
  {
    var t := TrimStart(s);
    TrimStartShape(s);
    t[..WordRun(t)]
  }

  /** A word followed by whitespace or by nothing is the first word. */
  lemma FirstWordOfParts(w: string, rest: string)
    requires w != [] && NoSpace(w)
    requires rest == [] || IsSpace(rest[0])
    ensures FirstWord(w + rest) == w
  {
    var s := w + rest;
    assert s[..0] == [];
    SpaceRunExact(s, 0);
    assert TrimStart(s) == s;
    assert s[..|w|] == w;
    WordRunExact(s, |w|);
  }

  lemma {:induction false} WordRunExact(s: string, k: nat)
    requires k <= |s| && NoSpace(s[..k])
    requires k < |s| ==> IsSpace(s[k])
    ensures WordRun(s) == k
  {
    if k > 0 {
      assert !IsSpace(s[..k][0]);
      assert s[1..][..k - 1] == s[..k][1..];
      WordRunExact(s[1..], k - 1);
    }
  }

  /** `detectFenceOpen`: `^\s{0,3}(`{3,}|~{3,})(.*)$`. At most three whitespace
      characters before the marker, and nothing after it that `.` cannot match. */
  function DetectFenceOpen(line: string): (r: Option<Fence>)
    ensures r.Some? <==> (FenceMarker(line).Some? && FenceMarker(line).value.indent <= 3
                          && NoLineBreak(AfterMarker(line, FenceMarker(line).value)))
    ensures r.Some? ==> (r.value.markerChar == FenceMarker(line).value.markerChar
                         && r.value.markerLen == FenceMarker(line).value.markerLen
                         && r.value.infoString == Trim(AfterMarker(line, FenceMarker(line).value)))
    ensures r.Some? ==> (r.value.language == "" <==> r.value.infoString == "")
  {
    var m := FenceMarker(line);
    if m.None? || m.value.indent > 3 then None
    else
      var rest := AfterMarker(line, m.value);
      if !NoLineBreak(rest) then None
      else
        var info := Trim(rest);
        TrimmedShape(rest);
        Some(Fence(m.value.markerChar, m.value.markerLen, info, Lower(FirstWord(info))))
  }

  /** The marker of a line matching `^\s{0,3}(`{3,}|~{3,})\s*$`, if it does. */
  function CloseMarker(line: string): (r: Option<Marker>)
    ensures r.Some? <==> (FenceMarker(line).Some? && FenceMarker(line).value.indent <= 3
                          && AllSpace(AfterMarker(line, FenceMarker(line).value)))
    ensures r.Some? ==> r == FenceMarker(line)
  {
    var m := FenceMarker(line);
    if m.Some? && m.value.indent <= 3 && AllSpace(AfterMarker(line, m.value)) then m else None
  }

  /** A closing marker closes a fence of the same character whose run is not longer. */
  predicate ClosesFence(close: Option<Marker>, fence: Option<Fence>)
  {
    && fence.Some? && close.Some?
    && close.value.markerChar == fence.value.markerChar
    && close.value.markerLen >= fence.value.markerLen
  }

  /** `isFenceClose`. */
  predicate IsFenceClose(line: string, fence: Option<Fence>)
  {
    ClosesFence(CloseMarker(line), fence)
  }

  /** A line without line breaks closes a fence exactly when it would open a
      fence of the same character, with an empty info string and a run at
      least as long. */
  lemma CloseIsBareOpen(line: string, fence: Fence)
    requires NoLineBreak(line)
    ensures IsFenceClose(line, Some(fence)) <==>
      (&& DetectFenceOpen(line).Some?
       && DetectFenceOpen(line).value.infoString == ""
       && DetectFenceOpen(line).value.markerChar == fence.markerChar
       && DetectFenceOpen(line).value.markerLen >= fence.markerLen)
  {
    var m := FenceMarker(line);
    if m.Some? {
      var rest := AfterMarker(line, m.value);
      assert NoLineBreak(rest) by {
        forall i | 0 <= i < |rest| ensures !IsLineTerminator(rest[i]) {
          assert rest[i] == line[m.value.indent + m.value.markerLen + i];
        }
      }
      TrimEmpty(rest);
    }
  }

  /** Up to three whitespace characters, a run of at least three backticks or
      tildes, and an info string on one line: an opening fence whose language
      is the first word of the info string, lowercased. */
  lemma OpenOfParts(pre: string, c: char, n: nat, info: string)
    requires AllSpace(pre) && |pre| <= 3 && IsFenceChar(c) && n >= 3
    requires NoLineBreak(info) && (info == [] || info[0] != c)
    ensures var line := pre + seq(n, _ => c) + info;
      DetectFenceOpen(line) == Some(Fence(c, n, Trim(info), Lower(FirstWord(Trim(info)))))
  {
    MarkerOfParts(pre, c, n, info);
  }

  // ---------------------------------------------------------------------
  // ATX headings

  datatype Heading = Heading(level: nat, text: string)

  function Min(a: nat, b: nat): nat { if a <= b then a else b }

  /** The `\s+(.+)$` part of `parseHeading` on the text after the `#` run. The
      greedy `\s+` leaves `.+` the text after the whole whitespace run, or its
      last character when nothing else follows; that text must hold no line
      break. Trimmed, it is the whole text trimmed. */
  function HeadingText(t: string): (r: Option<string>)
    ensures r.Some? ==> |t| >= 2 && IsSpace(t[0]) && r.value == Trim(t)
  {
    if |t| < 2 || !IsSpace(t[0]) then None
    else
      var j := Min(SpaceRun(t), |t| - 1);
      if !NoLineBreak(t[j..]) then None
      else
        assert t[..j] == t[..SpaceRun(t)][..j];
        TrimAfterSpacePrefix(t, j);
        Some(Trim(t[j..]))
  }

  /** The `(#{1,6})\s+(.+)$` part of `parseHeading`, after the indentation. */
  function HashHeading(s: string): (r: Option<Heading>)
    ensures r.Some? ==> (&& 1 <= r.value.level <= 6 && r.value.level < |s|
                         && RunLength(s, 0, '#') == r.value.level
                         && IsSpace(s[r.value.level])
                         && r.value.text == Trim(s[r.value.level..]))
  {
    var h := RunLength(s, 0, '#');
    if h == 0 || h > 6 then None
    else
      var text := HeadingText(s[h..]);
      if text.None? then None
      else
        assert s[h] == s[h..][0];
        Some(Heading(h, text.value))
  }

  /** `parseHeading`: `^\s{0,3}(#{1,6})\s+(.+)$`, the level being the number of
      `#` and the text the rest of the line, trimmed. */
  function ParseHeading(line: string): (r: Option<Heading>)
    ensures r.Some? <==> SpaceRun(line) <= 3 && HashHeading(line[SpaceRun(line)..]).Some?
    ensures r.Some? ==> r == HashHeading(line[SpaceRun(line)..])
  {
    var k := SpaceRun(line);
    if k > 3 then None else HashHeading(line[k..])
  }

  /** Whitespace then text starting with a non-whitespace character on one
      line: `\s+(.+)$` matches with the text trimmed. */
  lemma HeadingTextOfParts(gap: string, text: string)
    requires gap != [] && AllSpace(gap)
    requires text != [] && !IsSpace(text[0]) && NoLineBreak(text)
    ensures HeadingText(gap + text) == Some(Trim(text))
  {
    var t := gap + text;
    assert t[..|gap|] == gap;
    assert t[|gap|] == text[0];
    SpaceRunExact(t, |gap|);
    assert t[|gap|..] == text;
  }

  /** Up to three whitespace characters, one to six `#`, whitespace, then text
      starting with a non-whitespace character on one line: a heading of that
      level whose text is the trimmed text. */
  lemma HeadingOfParts(pre: string, level: nat, gap: string, text: string)
    requires AllSpace(pre) && |pre| <= 3 && 1 <= level <= 6
    requires gap != [] && AllSpace(gap)
    requires text != [] && !IsSpace(text[0]) && NoLineBreak(text)
    ensures ParseHeading(pre + seq(level, _ => '#') + gap + text) == Some(Heading(level, Trim(text)))
  {
    var s := seq(level, _ => '#') + gap + text;
    var line := pre + s;
    assert line == pre + seq(level, _ => '#') + gap + text;
    assert line[..|pre|] == pre;
    assert line[|pre|] == s[0];
    SpaceRunExact(line, |pre|);
    assert line[|pre|..] == s;
    HashHeadingOfParts(level, gap, text);
  }

  lemma HashHeadingOfParts(level: nat, gap: string, text: string)
    requires 1 <= level <= 6
    requires gap != [] && AllSpace(gap)
    requires text != [] && !IsSpace(text[0]) && NoLineBreak(text)
    ensures HashHeading(seq(level, _ => '#') + gap + text) == Some(Heading(level, Trim(text)))
  {
    var s := seq(level, _ => '#') + gap + text;
    assert s[level] == gap[0];
    RunExact(s, 0, '#', level);
    assert s[level..] == gap + text;
    HeadingTextOfParts(gap, text);
  }

  /** A `#` and two whitespace characters form an h1 with empty text, while a
      `#` and one whitespace character form no heading: `.+` needs a character
      of its own. */
  lemma HashAndSpaces(a: char, b: char, hash: char)
    requires hash == '#' && IsSpace(a) && IsSpace(b) && !IsLineTerminator(b)
    ensures ParseHeading([hash, a, b]) == Some(Heading(1, ""))
    ensures ParseHeading([hash, a]).None?
  {
    var line := [hash, a, b];
    assert line[..0] == [];
    SpaceRunExact(line, 0);
    RunExact(line, 0, '#', 1);
    var t := line[1..];
    assert t[..2] == t;
    SpaceRunCovers(t, 2);
    assert t[1..] == [b];
    assert Trim([b]) == [] by {
      assert AllSpace([b]);
      TrimEmpty([b]);
    }
    var short := [hash, a];
    assert short[..0] == [];
    SpaceRunExact(short, 0);
    RunExact(short, 0, '#', 1);
  }

  /** More than three leading whitespace characters make neither a heading
      nor a fence. */
  lemma IndentedIsNeither(line: string)
    requires SpaceRun(line) > 3
    ensures ParseHeading(line).None?
    ensures DetectFenceOpen(line).None?
    ensures forall f :: !IsFenceClose(line, Some(f))
  {
  }

  // ---------------------------------------------------------------------
  // Front matter

  /** A line closing the front matter. */
  predicate IsFrontMatterEnd(line: string)
  {
    Trim(line) == "---" || Trim(line) == "..."
  }

  /** The index of the first line at or after `from` that closes the front
      matter, or |lines|. */
  function CloseFrom(lines: seq<string>, from: nat): (k: nat)
    requires from <= |lines|
    ensures from <= k <= |lines|
    ensures k < |lines| ==> IsFrontMatterEnd(lines[k])
    ensures forall j :: from <= j < k ==> !IsFrontMatterEnd(lines[j])
    decreases |lines| - from
  {
    if from == |lines| || IsFrontMatterEnd(lines[from]) then from else CloseFrom(lines, from + 1)
  }

  /** The three facts `CloseFrom` promises determine it. */
  lemma {:induction false} CloseFromExact(lines: seq<string>, from: nat, k: nat)
    requires from <= k <= |lines|
    requires k < |lines| ==> IsFrontMatterEnd(lines[k])
    requires forall j :: from <= j < k ==> !IsFrontMatterEnd(lines[j])
    ensures CloseFrom(lines, from) == k
    decreases k - from
  {
    if from < k {
      CloseFromExact(lines, from + 1, k);
    }
  }

  /** What `findFrontMatter` returns; the start line is always 1 when present. */
  datatype FrontMatter = FrontMatter(hasFrontMatter: bool, bodyStartLine: nat, endLine: Option<nat>,
                                     raw: string, unclosed: bool)

  const NoFrontMatter := FrontMatter(false, 1, None, "", false)

  /** Front matter opens only on a first line trimming to `---`, and closes at
      the first later line trimming to `---` or `...`; the body starts on the
      line after it, or after the last line when it never closes. */
  function FrontMatterOf(lines: seq<string>): (fm: FrontMatter)
    ensures fm.hasFrontMatter <==> (|lines| > 0 && Trim(lines[0]) == "---")
    ensures !fm.hasFrontMatter ==> fm == NoFrontMatter
    ensures fm.unclosed <==> (fm.hasFrontMatter && forall j :: 1 <= j < |lines| ==> !IsFrontMatterEnd(lines[j]))
    ensures fm.unclosed ==> (&& fm.bodyStartLine == |lines| + 1 && fm.endLine.None?
                             && fm.raw == JoinWith(lines[1..], "\n"))
    ensures fm.hasFrontMatter && !fm.unclosed ==>
      (&& fm.endLine.Some? && 2 <= fm.endLine.value <= |lines|
       && fm.bodyStartLine == fm.endLine.value + 1
       && IsFrontMatterEnd(lines[fm.endLine.value - 1])
       && (forall j :: 1 <= j < fm.endLine.value - 1 ==> !IsFrontMatterEnd(lines[j]))
       && fm.raw == JoinWith(lines[1..fm.endLine.value - 1], "\n"))
    ensures 1 <= fm.bodyStartLine <= |lines| + 1
  {
    if |lines| == 0 || Trim(lines[0]) != "---" then NoFrontMatter
    else
      var k := CloseFrom(lines, 1);
      if k < |lines| then FrontMatter(true, k + 2, Some(k + 1), JoinWith(lines[1..k], "\n"), false)
      else FrontMatter(true, |lines| + 1, None, JoinWith(lines[1..], "\n"), true)
  }

  /** `findFrontMatter`: the scan for the closing delimiter. */
  method FindFrontMatter(lines: seq<string>) returns (fm: FrontMatter)
    ensures fm == FrontMatterOf(lines)
  {
    if |lines| == 0 {
      return NoFrontMatter;
    }
    if Trim(lines[0]) != "---" {
      return NoFrontMatter;
    }
    for i := 1 to |lines|
      invariant forall j :: 1 <= j < i ==> !IsFrontMatterEnd(lines[j])
    {
      var line := Trim(lines[i]);
      if line == "---" || line == "..." {
        CloseFromExact(lines, 1, i);
        return FrontMatter(true, i + 2, Some(i + 1), JoinWith(lines[1..i], "\n"), false);
      }
    }
    CloseFromExact(lines, 1, |lines|);
    return FrontMatter(true, |lines| + 1, None, JoinWith(lines[1..], "\n"), true);
  }

  // ---------------------------------------------------------------------
  // Issues

  datatype Severity = SevError | SevWarning

  /** The issue kinds, with the data their messages show. */
  datatype IssueKind =
    | FileReadError(reason: string)
    | UnclosedFrontMatter
    | InvalidFrontMatter(reason: string)
    | MissingFenceLanguage
    | HeadingLevelSkip(fromLevel: nat, toLevel: nat)
    | MultipleH1(count: nat)
    | UnclosedCodeFence

  /** The `kind` field of the report. */
  function KindName(kind: IssueKind): string
  {
    match kind
    case FileReadError(_) => "file_read_error"
    case UnclosedFrontMatter => "unclosed_front_matter"
    case InvalidFrontMatter(_) => "invalid_front_matter"
    case MissingFenceLanguage => "missing_fence_language"
    case HeadingLevelSkip(_, _) => "heading_level_skip"
    case MultipleH1(_) => "multiple_h1"
    case UnclosedCodeFence => "unclosed_code_fence"
  }

  /** Read failures, front matter problems and open fences are errors; the rest are warnings. */
  function SeverityOf(kind: IssueKind): Severity
  {
    match kind
    case FileReadError(_) => SevError
    case UnclosedFrontMatter => SevError
    case InvalidFrontMatter(_) => SevError
    case UnclosedCodeFence => SevError
    case _ => SevWarning
  }

  /** The `message` field of the report. */
  function Message(kind: IssueKind): string
  {
    match kind
    case FileReadError(reason) => "Failed to read file: " + reason
    case UnclosedFrontMatter => "Front Matter is opened with \"---\" but not closed."
    case InvalidFrontMatter(reason) => reason
    case MissingFenceLanguage => "Code fence has no language specifier."
    case HeadingLevelSkip(from, to) => "Heading level jumps from h" + NatToString(from) + " to h" + NatToString(to) + "."
    case MultipleH1(count) => "Multiple h1 headings found (" + NatToString(count) + ")."
    case UnclosedCodeFence => "Code fence is not closed."
  }

  datatype Issue = Issue(file: string, line: nat, column: nat, kind: IssueKind, severity: Severity)

  /** Every issue this checker reports is in column 1, with its kind's severity. */
  function NewIssue(file: string, line: nat, kind: IssueKind): Issue
  {
    Issue(file, line, 1, kind, SeverityOf(kind))
  }

  // ---------------------------------------------------------------------
  // One file

  /** The first problem the YAML parser reports: its line within the front
      matter (0 when it gives none) and its message. */
  datatype YamlError = YamlError(line: nat, message: string)

  /** `YAML.parseDocument(raw).errors`; the parser itself is not part of this model. */
  type YamlParser = string -> seq<YamlError>

  /** The issue for the front matter: unclosed, or the parser's first error
      counted from the opening line and with a default message. */
  function FrontMatterIssues(file: string, fm: FrontMatter, yaml: YamlParser): seq<Issue>
  {
    if fm.hasFrontMatter && fm.unclosed then [NewIssue(file, 1, UnclosedFrontMatter)]
    else if fm.hasFrontMatter && |yaml(fm.raw)| > 0 then
      var e := yaml(fm.raw)[0];
      [NewIssue(file, 1 + (if e.line == 0 then 1 else e.line),
                InvalidFrontMatter(if e.message == "" then "Invalid YAML in Front Matter." else e.message))]
    else []
  }

  /** The line the body scan starts from. */
  function BodyStart(lines: seq<string>): (n: nat)
    ensures 1 <= n <= |lines| + 1
  {
    var fm := FrontMatterOf(lines);
    if fm.hasFrontMatter && fm.unclosed then |lines| + 1 else fm.bodyStartLine
  }

  /** The variables of the line loop. */
  datatype ScanState = ScanState(inFence: bool, fence: Option<Fence>, fenceStartLine: Option<nat>,
                                 previousLevel: Option<nat>, h1Count: nat)

  const Outside := ScanState(false, None, None, None, 0)

  /** What the three line patterns say about one line. */
  datatype LineShape = LineShape(open: Option<Fence>, heading: Option<Heading>, close: Option<Marker>)

  function ShapeOf(line: string): LineShape
  {
    LineShape(DetectFenceOpen(line), ParseHeading(line), CloseMarker(line))
  }

  function Shapes(lines: seq<string>): (shapes: seq<LineShape>)
    ensures |shapes| == |lines|
  {
    seq(|lines|, j requires 0 <= j < |lines| => ShapeOf(lines[j]))
  }

  /** The shape of one line, taken from the shapes of all of them. */
  lemma ShapeAt(lines: seq<string>, j: nat)
    requires j < |lines|
    ensures Shapes(lines)[j] == ShapeOf(lines[j])
  {
  }

  /** `shapes` holds the shapes of `lines`, stated one line at a time from
      the last, so that a proof sees only the shapes it asks for. */
  predicate ShapedAs(lines: seq<string>, shapes: seq<LineShape>)
    decreases |lines|
  {
    |shapes| == |lines|
    && (lines == []
        || (ShapedAs(lines[..|lines| - 1], shapes[..|shapes| - 1])
            && shapes[|shapes| - 1] == ShapeOf(lines[|lines| - 1])))
  }

  lemma {:induction false} ShapedAsAt(lines: seq<string>, shapes: seq<LineShape>, j: nat)
    requires ShapedAs(lines, shapes) && j < |lines|
    ensures shapes[j] == ShapeOf(lines[j])
    decreases |lines|
  {
    if j < |lines| - 1 {
      ShapedAsAt(lines[..|lines| - 1], shapes[..|shapes| - 1], j);
    }
  }

  lemma {:induction false} ShapesShaped(lines: seq<string>)
    ensures ShapedAs(lines, Shapes(lines))
    decreases |lines|
  {
    if lines != [] {
      var init := lines[..|lines| - 1];
      ShapesShaped(init);
      var shapes := Shapes(lines);
      forall j | 0 <= j < |init| ensures shapes[j] == Shapes(init)[j] {
        ShapeAt(lines, j);
        ShapeAt(init, j);
      }
      assert shapes[..|lines| - 1] == Shapes(init);
    }
  }

  /** One pass of the line loop: outside a fence a line opens a fence or is
      examined as a heading; inside one it can only close it. */
  function Step(file: string, s: ScanState, shape: LineShape, lineNumber: nat): (ScanState, seq<Issue>)
  {
    if !s.inFence then
      if shape.open.Some? then
        (ScanState(true, shape.open, Some(lineNumber), s.previousLevel, s.h1Count),
         if shape.open.value.language == "" then [NewIssue(file, lineNumber, MissingFenceLanguage)] else [])
      else if shape.heading.None? then (s, [])
      else
        var level := shape.heading.value.level;
        (ScanState(false, s.fence, s.fenceStartLine, Some(level), if level == 1 then s.h1Count + 1 else s.h1Count),
         if s.previousLevel.Some? && level > s.previousLevel.value + 1
         then [NewIssue(file, lineNumber, HeadingLevelSkip(s.previousLevel.value, level))]
         else [])
    else if ClosesFence(shape.close, s.fence) then (ScanState(false, None, None, s.previousLevel, s.h1Count), [])
    else (s, [])
  }

  /** The loop over lines[lo..hi], given their shapes: the variables after it
      and the issues reported. */
  function ScanLines(file: string, shapes: seq<LineShape>, lo: nat, hi: nat): (ScanState, seq<Issue>)
    requires lo <= hi <= |shapes|
    decreases hi
  {
    if hi == lo then (Outside, [])
    else
      var before := ScanLines(file, shapes, lo, hi - 1);
      var after := Step(file, before.0, shapes[hi - 1], hi);
      (after.0, before.1 + after.1)
  }

  /** `fenceStartLine || lines.length`. */
  function FenceLine(start: Option<nat>, lineCount: nat): nat
  {
    if start.Some? && start.value != 0 then start.value else lineCount
  }

  /** The issues after the loop: a fence still open, and more than one h1. */
  function EndIssues(file: string, s: ScanState, lineCount: nat, bodyStartLine: nat): seq<Issue>
  {
    (if s.inFence then [NewIssue(file, FenceLine(s.fenceStartLine, lineCount), UnclosedCodeFence)] else [])
    + (if s.h1Count > 1 then [NewIssue(file, bodyStartLine, MultipleH1(s.h1Count))] else [])
  }

  /** Every issue `scanFile` reports for a file it could read, in order. */
  function FileIssues(file: string, content: string, yaml: YamlParser): seq<Issue>
  {
    var lines := SplitLines(content);
    var fm := FrontMatterOf(lines);
    var start := BodyStart(lines);
    var scan := ScanLines(file, Shapes(lines), start - 1, |lines|);
    FrontMatterIssues(file, fm, yaml) + scan.1 + EndIssues(file, scan.0, |lines|, start)
  }

  // ---------------------------------------------------------------------
  // What the line loop guarantees

  /** Inside a fence a line reports nothing and leaves the heading state
      alone: headings in code are ignored. */
  lemma StepInsideFence(file: string, s: ScanState, shape: LineShape, n: nat)
    requires s.inFence
    ensures Step(file, s, shape, n).1 == []
    ensures Step(file, s, shape, n).0.previousLevel == s.previousLevel
    ensures Step(file, s, shape, n).0.h1Count == s.h1Count
    ensures !Step(file, s, shape, n).0.inFence <==> ClosesFence(shape.close, s.fence)
  {
  }

  /** Outside a fence, an opening fence line reports a missing language
      exactly when its info string is empty. */
  lemma StepOpensFence(file: string, s: ScanState, line: string, n: nat)
    requires !s.inFence && DetectFenceOpen(line).Some?
    ensures Step(file, s, ShapeOf(line), n).0.inFence
    ensures Step(file, s, ShapeOf(line), n).0.fenceStartLine == Some(n)
    ensures Step(file, s, ShapeOf(line), n).1 == (if DetectFenceOpen(line).value.infoString == ""
                                                  then [NewIssue(file, n, MissingFenceLanguage)] else [])
  {
  }

  /** Outside a fence, a heading line becomes the previous heading, counts
      when it is an h1, and is reported exactly when it is more than one level
      deeper than the previous heading. */
  lemma StepHeading(file: string, s: ScanState, line: string, n: nat)
    requires !s.inFence && DetectFenceOpen(line).None? && ParseHeading(line).Some?
    ensures var r := Step(file, s, ShapeOf(line), n);
      var level := ParseHeading(line).value.level;
      && !r.0.inFence
      && r.0.previousLevel == Some(level)
      && r.0.h1Count == s.h1Count + (if level == 1 then 1 else 0)
      && (r.1 != [] <==> (s.previousLevel.Some? && level > s.previousLevel.value + 1))
      && (r.1 != [] ==> r.1 == [NewIssue(file, n, HeadingLevelSkip(s.previousLevel.value, level))])
  {
  }

  /** What the loop variables mean after lines[lo..hi]: `inFence`, `fence`
      and `fenceStartLine` agree, and an open fence was opened on the line
      `fenceStartLine` and closed on no later line. */
  ghost predicate FenceTracked(shapes: seq<LineShape>, lo: nat, hi: nat, s: ScanState)
    requires lo <= hi <= |shapes|
  {
    && (s.fence.Some? <==> s.inFence)
    && (s.fenceStartLine.Some? <==> s.inFence)
    && (s.inFence ==>
          && lo < s.fenceStartLine.value <= hi
          && shapes[s.fenceStartLine.value - 1].open == s.fence
          && forall j :: s.fenceStartLine.value <= j < hi ==> !ClosesFence(shapes[j].close, s.fence))
  }

  lemma {:induction false} ScanLinesTracksFence(file: string, shapes: seq<LineShape>, lo: nat, hi: nat)
    requires lo <= hi <= |shapes|
    ensures FenceTracked(shapes, lo, hi, ScanLines(file, shapes, lo, hi).0)
    decreases hi
  {
    if hi > lo {
      ScanLinesTracksFence(file, shapes, lo, hi - 1);
    }
  }

  /** The end of the scan reports an unclosed fence exactly when a fence is
      still open, on the line that opened it, after which no line closes it. */
  lemma UnclosedFenceAtOpener(file: string, shapes: seq<LineShape>, lo: nat, bodyStartLine: nat)
    requires lo <= |shapes|
    ensures var s := ScanLines(file, shapes, lo, |shapes|).0;
      var end := EndIssues(file, s, |shapes|, bodyStartLine);
      && (s.inFence ==>
            && end[0].kind == UnclosedCodeFence
            && lo < end[0].line <= |shapes|
            && shapes[end[0].line - 1].open.Some?
            && forall j :: end[0].line <= j < |shapes| ==>
                 !ClosesFence(shapes[j].close, shapes[end[0].line - 1].open))
      && (!s.inFence ==> forall i :: 0 <= i < |end| ==> end[i].kind != UnclosedCodeFence)
  {
    ScanLinesTracksFence(file, shapes, lo, |shapes|);
  }

  /** The end of the scan reports several h1 headings exactly when the count exceeds one. */
  lemma MultipleH1Reported(file: string, s: ScanState, lineCount: nat, bodyStartLine: nat)
    ensures (exists i :: 0 <= i < |EndIssues(file, s, lineCount, bodyStartLine)|
               && EndIssues(file, s, lineCount, bodyStartLine)[i].kind.MultipleH1?) <==> s.h1Count > 1
  {
    var end := EndIssues(file, s, lineCount, bodyStartLine);
    if s.h1Count > 1 {
      assert end[|end| - 1].kind.MultipleH1?;
    }
  }

  /** A shape that is an h1 heading and no fence opener. */
  predicate IsH1(shape: LineShape)
  {
    shape.open.None? && shape.heading.Some? && shape.heading.value.level == 1
  }

  /** The number of h1 lines among lines[lo..hi]. */
  function H1Lines(shapes: seq<LineShape>, lo: nat, hi: nat): nat
    requires lo <= hi <= |shapes|
    decreases hi
  {
    if hi == lo then 0 else H1Lines(shapes, lo, hi - 1) + (if IsH1(shapes[hi - 1]) then 1 else 0)
  }

  predicate NoFenceOpens(shapes: seq<LineShape>, lo: nat, hi: nat)
    requires lo <= hi <= |shapes|
  {
    forall j :: lo <= j < hi ==> shapes[j].open.None?
  }

  /** The h1 count never exceeds the h1 lines, and equals it when no line
      opens a fence. */
  lemma {:induction false} H1CountBound(file: string, shapes: seq<LineShape>, lo: nat, hi: nat)
    requires lo <= hi <= |shapes|
    ensures ScanLines(file, shapes, lo, hi).0.h1Count <= H1Lines(shapes, lo, hi)
    ensures NoFenceOpens(shapes, lo, hi) ==>
      && !ScanLines(file, shapes, lo, hi).0.inFence
      && ScanLines(file, shapes, lo, hi).0.h1Count == H1Lines(shapes, lo, hi)
    decreases hi
  {
    if hi > lo {
      H1CountBound(file, shapes, lo, hi - 1);
    }
  }

  /** Every issue of the scan is about `file`, in column 1, with its kind's
      severity, and none is a read failure. */
  predicate AllAbout(file: string, issues: seq<Issue>)
  {
    forall i :: 0 <= i < |issues| ==> && issues[i].file == file && issues[i].column == 1
                                      && issues[i].severity == SeverityOf(issues[i].kind)
                                      && !issues[i].kind.FileReadError?
  }

  lemma {:induction false} ScanLinesAbout(file: string, shapes: seq<LineShape>, lo: nat, hi: nat)
    requires lo <= hi <= |shapes|
    ensures AllAbout(file, ScanLines(file, shapes, lo, hi).1)
    decreases hi
  {
    if hi > lo {
      ScanLinesAbout(file, shapes, lo, hi - 1);
    }
  }

  lemma AllAboutAppend(file: string, a: seq<Issue>, b: seq<Issue>)
    requires AllAbout(file, a) && AllAbout(file, b)
    ensures AllAbout(file, a + b)
  {
    forall i | 0 <= i < |a + b|
      ensures && (a + b)[i].file == file && (a + b)[i].column == 1
              && (a + b)[i].severity == SeverityOf((a + b)[i].kind)
              && !(a + b)[i].kind.FileReadError?
    {
      if i >= |a| {
        assert (a + b)[i] == b[i - |a|];
      }
    }
  }

  lemma FrontMatterIssuesAbout(file: string, fm: FrontMatter, yaml: YamlParser)
    ensures AllAbout(file, FrontMatterIssues(file, fm, yaml))
  {
  }

  lemma EndIssuesAbout(file: string, s: ScanState, lineCount: nat, bodyStartLine: nat)
    ensures AllAbout(file, EndIssues(file, s, lineCount, bodyStartLine))
  {
  }

  lemma AllAbout3(file: string, a: seq<Issue>, b: seq<Issue>, c: seq<Issue>)
    requires AllAbout(file, a) && AllAbout(file, b) && AllAbout(file, c)
    ensures AllAbout(file, a + b + c)
  {
    AllAboutAppend(file, a, b);
    AllAboutAppend(file, a + b, c);
  }

  lemma FileIssuesAbout(file: string, content: string, yaml: YamlParser)
    ensures AllAbout(file, FileIssues(file, content, yaml))
  {
    var lines := SplitLines(content);
    var start := BodyStart(lines);
    var lo: nat := start - 1;
    ScanLinesAbout(file, Shapes(lines), lo, |lines|);
    var scan := ScanLines(file, Shapes(lines), lo, |lines|);
    FrontMatterIssuesAbout(file, FrontMatterOf(lines), yaml);
    EndIssuesAbout(file, scan.0, |lines|, start);
    AllAbout3(file, FrontMatterIssues(file, FrontMatterOf(lines), yaml), scan.1, EndIssues(file, scan.0, |lines|, start));
  }

  /** Front matter that never closes is the only issue of its file: the body
      scan starts after the last line. */
  lemma UnclosedFrontMatterAlone(file: string, content: string, yaml: YamlParser)
    requires FrontMatterOf(SplitLines(content)).unclosed
    ensures FileIssues(file, content, yaml) == [NewIssue(file, 1, UnclosedFrontMatter)]
  {
  }
}
