/** What `scanFile` of the `check-layout-risk` script finds in one readable
    Markdown file, on values: the line scan (code fences, tables and the
    length of text and code lines), the images its tokens and raw HTML name,
    the check of each distinct local image, and the once-per-file wide-table
    warning, with the per-file counts they fill in. */
module LayoutScan {
  import opened Wrappers
  import opened Text
  import opened Paths
  import opened Tokens
  import opened MdLines
  import opened LayoutLines
  import LayoutAssets
  import LayoutHtml
  import SiteRoots
  import Seqs

  // ---------------------------------------------------------------------------
  // Issues and counts
  // ---------------------------------------------------------------------------

  /** The limits the scan measures against (`thresholds`). The command line
      accepts any finite number; the model keeps integers only. Against the
      integer lengths, sizes and counts the scan compares them with, a
      non-integer limit decides like its floor. */
  datatype Thresholds = Thresholds(maxTextLineLength: int, maxCodeLineLength: int,
                                   maxTableCols: int, largeImageBytes: int)

  /** The thresholds used when an option is absent or not a finite number. */
  const DefaultThresholds := Thresholds(160, 200, 10, 1_000_000)

  datatype Severity = SevError | SevWarning

  /** An issue's `kind` with its `meta`. */
  datatype IssueKind =
    | FileReadError
    | LongTextLine(length: nat, snippet: string)
    | LongCodeLine(length: nat, snippet: string)
    | LargeImage(src: string, localPath: string, bytes: nat)
    | MissingImage(src: string, localPath: string)
    | WideTable(maxTableCols: nat)

  datatype Issue = Issue(severity: Severity, kind: IssueKind, file: string, line: nat, column: nat, message: string)

  /** The number of errors among the issues. */
  function ErrorCount(found: seq<Issue>): (n: nat)
    ensures n <= |found|
  {
    if found == [] then 0
    else ErrorCount(found[..|found| - 1]) + (if found[|found| - 1].severity == SevError then 1 else 0)
  }

  lemma ErrorCountSnoc(found: seq<Issue>, x: Issue)
    ensures ErrorCount(found + [x]) == ErrorCount(found) + (if x.severity == SevError then 1 else 0)
  {
    assert (found + [x])[..|found|] == found;
  }

  lemma {:induction false} ErrorCountAppend(a: seq<Issue>, b: seq<Issue>)
    ensures ErrorCount(a + b) == ErrorCount(a) + ErrorCount(b)
    decreases |b|
  {
    if b == [] {
      assert a + b == a;
    } else {
      var init := b[..|b| - 1];
      ErrorCountAppend(a, init);
      assert (a + b)[..|a + b| - 1] == a + init;
      assert (a + b)[|a + b| - 1] == b[|b| - 1];
    }
  }

  /** Warnings only: no error among them. */
  lemma {:induction false} ErrorCountWarnings(found: seq<Issue>)
    requires forall k :: 0 <= k < |found| ==> found[k].severity == SevWarning
    ensures ErrorCount(found) == 0
  {
    if found != [] {
      var init := found[..|found| - 1];
      assert forall k :: 0 <= k < |init| ==> init[k] == found[k];
      ErrorCountWarnings(init);
    }
  }

  /** `perFile`: the counts and maxima of one file. */
  datatype Counts = Counts(
    tableBlocks: nat, tableRows: nat, maxTableCols: nat, codeBlocks: nat,
    maxTextLineLen: nat, longTextLines: nat, maxCodeLineLen: nat, longCodeLines: nat,
    imagesTotal: nat, imagesLocal: nat, imagesLocalMissing: nat, imagesLocalOverLarge: nat,
    largestLocalImageBytes: nat)

  const NoCounts := Counts(0, 0, 0, 0, 0, 0, 0, 0, 0, 0, 0, 0, 0)

  /** `Math.max` on counts. */
  function Max(a: nat, b: nat): (m: nat)
    ensures m >= a && m >= b && (m == a || m == b)
  {
    if a >= b then a else b
  }

  // ---------------------------------------------------------------------------
  // The line scan
  // ---------------------------------------------------------------------------

  /** What the line scan reads from one line. The patterns are pure, so they
      can be matched once per line up front. */
  datatype LineShape = LineShape(length: nat, snippet: string, open: Option<Marker>, bare: Option<Marker>,
                                 hasPipe: bool, delimiter: bool, columns: nat)

  function ShapeOf(line: string): LineShape
  {
    LineShape(Utf16Length(line), ClampSnippet(line, SnippetLength), FindFenceMarker(line), BareMarker(line),
              '|' in line, LooksLikeTableDelimiter(line), CountTableColumns(line))
  }

  function Shapes(lines: seq<string>): (shapes: seq<LineShape>)
    ensures |shapes| == |lines|
  {
    seq(|lines|, i requires 0 <= i < |lines| => ShapeOf(lines[i]))
  }

  lemma ShapeAt(lines: seq<string>, i: nat)
    requires i < |lines|
    ensures Shapes(lines)[i] == ShapeOf(lines[i])
  {
  }

  /** A line holding a pipe has at least one column. */
  predicate PipesCounted(shapes: seq<LineShape>)
  {
    forall i :: 0 <= i < |shapes| ==> shapes[i].hasPipe ==> shapes[i].columns >= 1
  }

  lemma ShapesPipesCounted(lines: seq<string>)
    ensures PipesCounted(Shapes(lines))
  {
    forall i | 0 <= i < |lines| && '|' in lines[i] ensures CountTableColumns(lines[i]) >= 1 {
      PipeLineHasColumns(lines[i]);
    }
  }

  /** The `long_text_line` warning for a line of `sh`'s shape on line `lineNo`. */
  function TextLineIssue(th: Thresholds, file: string, lineNo: nat, sh: LineShape): Issue
  {
    Issue(SevWarning, LongTextLine(sh.length, sh.snippet), file, lineNo, 1,
          "Text line length " + NatToString(sh.length) + " exceeds " + IntToString(th.maxTextLineLength))
  }

  /** The `long_code_line` warning. */
  function CodeLineIssue(th: Thresholds, file: string, lineNo: nat, sh: LineShape): Issue
  {
    Issue(SevWarning, LongCodeLine(sh.length, sh.snippet), file, lineNo, 1,
          "Code line length " + NatToString(sh.length) + " exceeds " + IntToString(th.maxCodeLineLength))
  }

  /** The rows after a table's delimiter row at index `k`: each next line
      holding a pipe and more than one column is a row; the index of the last
      row taken is returned with the counts. */
  function TableEnd(shapes: seq<LineShape>, k: nat, c: Counts): (r: (nat, Counts))
    requires k < |shapes|
    ensures k <= r.0 < |shapes|
    decreases |shapes| - k
  {
    if k + 1 < |shapes| && shapes[k + 1].hasPipe && shapes[k + 1].columns > 1 then
      TableEnd(shapes, k + 1, c.(maxTableCols := Max(c.maxTableCols, shapes[k + 1].columns),
                                 tableRows := c.tableRows + 1))
    else (k, c)
  }

  /** One pass of the line loop: the index it continues at, the fence state,
      the counts and the issues it reports. */
  datatype StepResult = StepResult(next: nat, fence: FenceState, counts: Counts, emitted: seq<Issue>)

  /** One pass of the line loop at index `i`: outside a fence a marker opens
      one; a line with a pipe followed by a delimiter row starts a table,
      whose rows are consumed; any other line is text. Inside a fence a
      closing marker ends it and any other line is code. */
  function Step(th: Thresholds, file: string, shapes: seq<LineShape>, i: nat, fence: FenceState, c: Counts)
    : (r: StepResult)
    requires i < |shapes|
    ensures i < r.next <= |shapes|
  {
    var sh := shapes[i];
    match fence
    case Outside =>
      if sh.open.Some? then
        StepResult(i + 1, Inside(sh.open.value.markerChar, sh.open.value.markerLen),
                   c.(codeBlocks := c.codeBlocks + 1), [])
      else if sh.hasPipe && i + 1 < |shapes| && shapes[i + 1].delimiter then
        var t := TableEnd(shapes, i + 1, c.(tableBlocks := c.tableBlocks + 1,
                                            maxTableCols := Max(c.maxTableCols, sh.columns),
                                            tableRows := c.tableRows + 1));
        StepResult(t.0 + 1, Outside, t.1, [])
      else
        var c1 := c.(maxTextLineLen := Max(c.maxTextLineLen, sh.length));
        if sh.length > th.maxTextLineLength then
          StepResult(i + 1, Outside, c1.(longTextLines := c1.longTextLines + 1), [TextLineIssue(th, file, i + 1, sh)])
        else StepResult(i + 1, Outside, c1, [])
    case Inside(_, _) =>
      if ClosesWith(sh.bare, fence) then StepResult(i + 1, Outside, c, [])
      else
        var c1 := c.(maxCodeLineLen := Max(c.maxCodeLineLen, sh.length));
        if sh.length > th.maxCodeLineLength then
          StepResult(i + 1, fence, c1.(longCodeLines := c1.longCodeLines + 1), [CodeLineIssue(th, file, i + 1, sh)])
        else StepResult(i + 1, fence, c1, [])
  }

  /** The line loop's variables: `fenceState`, `perFile` and the issues reported so far. */
  datatype LineScan = LineScan(fence: FenceState, counts: Counts, found: seq<Issue>)

  const LineStart := LineScan(Outside, NoCounts, [])

  /** The line loop from index `i` on. */
  function ScanLines(th: Thresholds, file: string, shapes: seq<LineShape>, i: nat, st: LineScan): LineScan
    requires i <= |shapes|
    decreases |shapes| - i
  {
    if i == |shapes| then st
    else
      var r := Step(th, file, shapes, i, st.fence, st.counts);
      ScanLines(th, file, shapes, r.next, LineScan(r.fence, r.counts, st.found + r.emitted))
  }

  // ---------------------------------------------------------------------------
  // What the line scan reports and counts

  /** A warning the line scan can report: for a text or a code line on a line
      of the file, at column 1, quoting that line's length and snippet, and
      longer than the limit for its kind of line. */
  predicate LineReported(th: Thresholds, file: string, shapes: seq<LineShape>, x: Issue)
  {
    && x.severity == SevWarning && x.file == file && x.column == 1 && 1 <= x.line <= |shapes|
    && match x.kind
       case LongTextLine(len, snippet) =>
         len == shapes[x.line - 1].length && snippet == shapes[x.line - 1].snippet && len > th.maxTextLineLength
       case LongCodeLine(len, snippet) =>
         len == shapes[x.line - 1].length && snippet == shapes[x.line - 1].snippet && len > th.maxCodeLineLength
       case _ => false
  }

  /** The issues of the line scan before index `i`: long-line warnings for
      lines before `i`, at most one per line, in line order. */
  predicate FoundUpTo(th: Thresholds, file: string, shapes: seq<LineShape>, i: nat, found: seq<Issue>)
  {
    && (forall k :: 0 <= k < |found| ==> LineReported(th, file, shapes, found[k]) && found[k].line <= i)
    && (forall k, l :: 0 <= k < l < |found| ==> found[k].line < found[l].line)
  }

  /** The number of long code lines (`code`) or long text lines among the issues. */
  function LongLines(found: seq<Issue>, code: bool): nat
  {
    if found == [] then 0
    else
      var x := found[|found| - 1];
      LongLines(found[..|found| - 1], code) + (if (code && x.kind.LongCodeLine?) || (!code && x.kind.LongTextLine?) then 1 else 0)
  }

  lemma LongLinesSnoc(found: seq<Issue>, x: Issue, code: bool)
    ensures LongLines(found + [x], code)
      == LongLines(found, code) + (if (code && x.kind.LongCodeLine?) || (!code && x.kind.LongTextLine?) then 1 else 0)
  {
    assert (found + [x])[..|found|] == found;
  }

  /** The counts agree with the issues: the long lines are those reported,
      no reported length exceeds the maximum seen, every table has a row and
      a column, and no image is counted yet. */
  predicate Tallied(c: Counts, found: seq<Issue>)
  {
    && c.longTextLines == LongLines(found, false)
    && c.longCodeLines == LongLines(found, true)
    && (forall k :: 0 <= k < |found| && found[k].kind.LongTextLine? ==> found[k].kind.length <= c.maxTextLineLen)
    && (forall k :: 0 <= k < |found| && found[k].kind.LongCodeLine? ==> found[k].kind.length <= c.maxCodeLineLen)
    && c.tableRows >= c.tableBlocks
    && (c.tableBlocks == 0 <==> c.maxTableCols == 0)
    && c.imagesTotal == 0 && c.imagesLocal == 0 && c.imagesLocalMissing == 0
    && c.imagesLocalOverLarge == 0 && c.largestLocalImageBytes == 0
  }

  /** The rows of a table only add rows and raise the column maximum. */
  lemma {:induction false} TableEndGrows(shapes: seq<LineShape>, k: nat, c: Counts)
    requires k < |shapes|
    ensures var r := TableEnd(shapes, k, c).1;
      && r == c.(tableRows := r.tableRows, maxTableCols := r.maxTableCols)
      && r.tableRows >= c.tableRows && r.maxTableCols >= c.maxTableCols
    decreases |shapes| - k
  {
    if k + 1 < |shapes| && shapes[k + 1].hasPipe && shapes[k + 1].columns > 1 {
      var c1 := c.(maxTableCols := Max(c.maxTableCols, shapes[k + 1].columns), tableRows := c.tableRows + 1);
      TableEndGrows(shapes, k + 1, c1);
    }
  }

  /** A pass that opens a fence or consumes a table reports nothing and keeps the counts in agreement. */
  lemma StepSilent(th: Thresholds, file: string, shapes: seq<LineShape>, i: nat, st: LineScan)
    requires i < |shapes| && PipesCounted(shapes) && st.fence.Outside?
    requires Step(th, file, shapes, i, st.fence, st.counts).emitted == []
    requires Tallied(st.counts, st.found)
    ensures Tallied(Step(th, file, shapes, i, st.fence, st.counts).counts, st.found)
  {
    var c := st.counts;
    var sh := shapes[i];
    if sh.open.None? && sh.hasPipe && i + 1 < |shapes| && shapes[i + 1].delimiter {
      var c0 := c.(tableBlocks := c.tableBlocks + 1, maxTableCols := Max(c.maxTableCols, sh.columns),
                   tableRows := c.tableRows + 1);
      TableEndGrows(shapes, i + 1, c0);
    }
  }

  /** One pass keeps the issues and counts in agreement. */
  lemma StepValid(th: Thresholds, file: string, shapes: seq<LineShape>, i: nat, st: LineScan)
    requires i < |shapes| && PipesCounted(shapes)
    requires FoundUpTo(th, file, shapes, i, st.found) && Tallied(st.counts, st.found)
    ensures var r := Step(th, file, shapes, i, st.fence, st.counts);
      FoundUpTo(th, file, shapes, r.next, st.found + r.emitted) && Tallied(r.counts, st.found + r.emitted)
  {
    var r := Step(th, file, shapes, i, st.fence, st.counts);
    if r.emitted == [] {
      assert st.found + r.emitted == st.found;
      FoundLater(th, file, shapes, i, r.next, st.found);
      if st.fence.Outside? {
        StepSilent(th, file, shapes, i, st);
      }
    } else if st.fence.Outside? {
      StepText(th, file, shapes, i, st);
    } else {
      StepCode(th, file, shapes, i, st);
    }
  }

  lemma StepText(th: Thresholds, file: string, shapes: seq<LineShape>, i: nat, st: LineScan)
    requires i < |shapes| && st.fence.Outside?
    requires FoundUpTo(th, file, shapes, i, st.found) && Tallied(st.counts, st.found)
    requires Step(th, file, shapes, i, st.fence, st.counts).emitted != []
    ensures var r := Step(th, file, shapes, i, st.fence, st.counts);
      FoundUpTo(th, file, shapes, r.next, st.found + r.emitted) && Tallied(r.counts, st.found + r.emitted)
  {
    var x := TextLineIssue(th, file, i + 1, shapes[i]);
    FoundSnoc(th, file, shapes, i, st.found, x);
    TalliedText(st.counts, st.found, x);
  }

  lemma StepCode(th: Thresholds, file: string, shapes: seq<LineShape>, i: nat, st: LineScan)
    requires i < |shapes| && st.fence.Inside?
    requires FoundUpTo(th, file, shapes, i, st.found) && Tallied(st.counts, st.found)
    requires Step(th, file, shapes, i, st.fence, st.counts).emitted != []
    ensures var r := Step(th, file, shapes, i, st.fence, st.counts);
      FoundUpTo(th, file, shapes, r.next, st.found + r.emitted) && Tallied(r.counts, st.found + r.emitted)
  {
    var sh := shapes[i];
    var c := st.counts;
    var x := CodeLineIssue(th, file, i + 1, sh);
    assert !ClosesWith(sh.bare, st.fence) && sh.length > th.maxCodeLineLength;
    var c1 := c.(maxCodeLineLen := Max(c.maxCodeLineLen, sh.length));
    assert Step(th, file, shapes, i, st.fence, c) == StepResult(i + 1, st.fence, c1.(longCodeLines := c1.longCodeLines + 1), [x]);
    FoundSnoc(th, file, shapes, i, st.found, x);
    TalliedCode(st.counts, st.found, x);
  }

  lemma FoundLater(th: Thresholds, file: string, shapes: seq<LineShape>, i: nat, j: nat, found: seq<Issue>)
    requires i <= j && FoundUpTo(th, file, shapes, i, found)
    ensures FoundUpTo(th, file, shapes, j, found)
  {
  }

  /** A warning for line `i + 1` extends the issues before index `i`. */
  lemma FoundSnoc(th: Thresholds, file: string, shapes: seq<LineShape>, i: nat, found: seq<Issue>, x: Issue)
    requires FoundUpTo(th, file, shapes, i, found)
    requires LineReported(th, file, shapes, x) && x.line == i + 1
    ensures FoundUpTo(th, file, shapes, i + 1, found + [x])
  {
    var f := found + [x];
    assert forall k :: 0 <= k < |found| ==> f[k] == found[k];
  }

  /** Counting a long text line keeps the counts in agreement. */
  lemma TalliedText(c: Counts, found: seq<Issue>, x: Issue)
    requires Tallied(c, found) && x.kind.LongTextLine?
    ensures var c1 := c.(maxTextLineLen := Max(c.maxTextLineLen, x.kind.length));
      Tallied(c1.(longTextLines := c1.longTextLines + 1), found + [x])
  {
    LongLinesSnoc(found, x, false);
    LongLinesSnoc(found, x, true);
    var f := found + [x];
    assert forall k :: 0 <= k < |found| ==> f[k] == found[k];
  }

  /** Counting a long code line keeps the counts in agreement. */
  lemma TalliedCode(c: Counts, found: seq<Issue>, x: Issue)
    requires Tallied(c, found) && x.kind.LongCodeLine?
    ensures var c1 := c.(maxCodeLineLen := Max(c.maxCodeLineLen, x.kind.length));
      Tallied(c1.(longCodeLines := c1.longCodeLines + 1), found + [x])
  {
    LongLinesSnoc(found, x, false);
    LongLinesSnoc(found, x, true);
    var f := found + [x];
    assert forall k :: 0 <= k < |found| ==> f[k] == found[k];
  }

  /** The whole line scan from a state in agreement ends in agreement. */
  lemma {:induction false} ScanLinesValid(th: Thresholds, file: string, shapes: seq<LineShape>, i: nat, st: LineScan)
    requires i <= |shapes| && PipesCounted(shapes)
    requires FoundUpTo(th, file, shapes, i, st.found) && Tallied(st.counts, st.found)
    ensures var r := ScanLines(th, file, shapes, i, st);
      FoundUpTo(th, file, shapes, |shapes|, r.found) && Tallied(r.counts, r.found)
    decreases |shapes| - i
  {
    if i < |shapes| {
      var r := Step(th, file, shapes, i, st.fence, st.counts);
      StepValid(th, file, shapes, i, st);
      ScanLinesValid(th, file, shapes, r.next, LineScan(r.fence, r.counts, st.found + r.emitted));
    }
  }

  /** The long-line warnings of lines `i..` of text outside any fence or
      table: one for every line longer than the text limit, in order. */
  function LongTextIssues(th: Thresholds, file: string, shapes: seq<LineShape>, i: nat): seq<Issue>
    requires i <= |shapes|
    decreases |shapes| - i
  {
    if i == |shapes| then []
    else (if shapes[i].length > th.maxTextLineLength then [TextLineIssue(th, file, i + 1, shapes[i])] else [])
         + LongTextIssues(th, file, shapes, i + 1)
  }

  /** The long-line warnings of lines `i..` inside a fence that stays open. */
  function LongCodeIssues(th: Thresholds, file: string, shapes: seq<LineShape>, i: nat): seq<Issue>
    requires i <= |shapes|
    decreases |shapes| - i
  {
    if i == |shapes| then []
    else (if shapes[i].length > th.maxCodeLineLength then [CodeLineIssue(th, file, i + 1, shapes[i])] else [])
         + LongCodeIssues(th, file, shapes, i + 1)
  }

  /** Outside a fence, lines with no fence marker and no pipe are all text:
      each one longer than the text limit is reported, and no other. */
  lemma {:induction false} PlainTextScan(th: Thresholds, file: string, shapes: seq<LineShape>, i: nat, st: LineScan)
    requires i <= |shapes| && st.fence == Outside
    requires forall j :: i <= j < |shapes| ==> shapes[j].open.None? && !shapes[j].hasPipe
    ensures ScanLines(th, file, shapes, i, st).found == st.found + LongTextIssues(th, file, shapes, i)
    ensures ScanLines(th, file, shapes, i, st).fence == Outside
    decreases |shapes| - i
  {
    if i < |shapes| {
      var r := Step(th, file, shapes, i, st.fence, st.counts);
      PlainTextScan(th, file, shapes, i + 1, LineScan(r.fence, r.counts, st.found + r.emitted));
      ConcatAssoc(st.found, r.emitted, LongTextIssues(th, file, shapes, i + 1));
    }
  }

  /** Inside a fence that no later line closes, every line is code: each one
      longer than the code limit is reported, and no other. */
  lemma {:induction false} OpenFenceScan(th: Thresholds, file: string, shapes: seq<LineShape>, i: nat, st: LineScan)
    requires i <= |shapes| && st.fence.Inside?
    requires forall j :: i <= j < |shapes| ==> !ClosesWith(shapes[j].bare, st.fence)
    ensures ScanLines(th, file, shapes, i, st).found == st.found + LongCodeIssues(th, file, shapes, i)
    ensures ScanLines(th, file, shapes, i, st).fence == st.fence
    decreases |shapes| - i
  {
    if i < |shapes| {
      var r := Step(th, file, shapes, i, st.fence, st.counts);
      OpenFenceScan(th, file, shapes, i + 1, LineScan(r.fence, r.counts, st.found + r.emitted));
      ConcatAssoc(st.found, r.emitted, LongCodeIssues(th, file, shapes, i + 1));
    }
  }

  lemma ConcatAssoc<T>(a: seq<T>, b: seq<T>, c: seq<T>)
    ensures a + b + c == a + (b + c)
  {
  }

  /** When every issue is a long-line warning, the two counts add up to all of them. */
  lemma {:induction false} LongLinesAll(th: Thresholds, file: string, shapes: seq<LineShape>, found: seq<Issue>)
    requires forall k :: 0 <= k < |found| ==> LineReported(th, file, shapes, found[k])
    ensures LongLines(found, false) + LongLines(found, true) == |found|
  {
    if found != [] {
      var init := found[..|found| - 1];
      assert forall k :: 0 <= k < |init| ==> init[k] == found[k];
      LongLinesAll(th, file, shapes, init);
    }
  }

  // ---------------------------------------------------------------------------
  // The image sources
  // ---------------------------------------------------------------------------

  /** The sources one child of an `inline` token contributes: an image's
      non-empty `src`, or the `<img>` sources of raw inline HTML. */
  function ChildImages(child: InlineToken): seq<string>
  {
    match child
    case ImageToken(src, _) => if src != "" then [src] else []
    case HtmlInline(content) => LayoutHtml.ImgSources(content)
    case _ => []
  }

  function ChildrenImages(children: seq<InlineToken>): seq<string>
  {
    Seqs.FlatMap(ChildImages, children)
  }

  /** The sources a block token contributes: those of an `inline` token's
      children when they are an array, or of an `html_block`. */
  function TokenImages(token: BlockToken): seq<string>
  {
    match token
    case Inline(_, _, children) => if children.Some? then ChildrenImages(children.value) else []
    case HtmlBlock(content) => LayoutHtml.ImgSources(content)
    case _ => []
  }

  /** `imageSrcs`: every token's sources, in token order. */
  function ImageSources(tokens: seq<BlockToken>): seq<string>
  {
    Seqs.FlatMap(TokenImages, tokens)
  }

  /** The sources of consecutive tokens are those of each part in turn. */
  lemma ImageSourcesAppend(a: seq<BlockToken>, b: seq<BlockToken>)
    ensures ImageSources(a + b) == ImageSources(a) + ImageSources(b)
  {
    Seqs.FlatMapAppend(TokenImages, a, b);
  }

  /** No source collected is empty. */
  lemma {:induction false} ChildrenImagesNonEmpty(children: seq<InlineToken>)
    ensures forall i :: 0 <= i < |ChildrenImages(children)| ==> ChildrenImages(children)[i] != ""
  {
    if children != [] {
      ChildrenImagesNonEmpty(children[..|children| - 1]);
      assert ChildrenImages(children) == ChildrenImages(children[..|children| - 1]) + ChildImages(children[|children| - 1]);
      match children[|children| - 1]
      case HtmlInline(content) => LayoutHtml.SourcesNonEmpty(content, 0);
      case _ =>
    }
  }

  lemma {:induction false} ImageSourcesNonEmpty(tokens: seq<BlockToken>)
    ensures forall i :: 0 <= i < |ImageSources(tokens)| ==> ImageSources(tokens)[i] != ""
  {
    if tokens != [] {
      ImageSourcesNonEmpty(tokens[..|tokens| - 1]);
      assert ImageSources(tokens) == ImageSources(tokens[..|tokens| - 1]) + TokenImages(tokens[|tokens| - 1]);
      match tokens[|tokens| - 1]
      case Inline(_, _, children) =>
        if children.Some? {
          ChildrenImagesNonEmpty(children.value);
        }
      case HtmlBlock(content) => LayoutHtml.SourcesNonEmpty(content, 0);
      case _ =>
    }
  }

  // ---------------------------------------------------------------------------
  // The image checks
  // ---------------------------------------------------------------------------

  /** The `missing_image` error. */
  function MissingImageIssue(file: string, src: string, localPath: string): Issue
  {
    Issue(SevError, MissingImage(src, localPath), file, 1, 1, "Local image not found: " + src)
  }

  /** The `large_image` warning. */
  function LargeImageIssue(th: Thresholds, file: string, src: string, localPath: string, bytes: nat): Issue
  {
    Issue(SevWarning, LargeImage(src, localPath, bytes), file, 1, 1,
          "Local image is large (" + NatToString(bytes) + " bytes > " + IntToString(th.largeImageBytes) + ")")
  }

  /** The image loop's variables: `seenSrc`, `perFile` and the issues reported so far. */
  datatype ImageScan = ImageScan(seen: set<string>, counts: Counts, found: seq<Issue>)

  /** What looking up a cleaned source gave: no local file, or the local
      path with what `stat` gave for it (`None` when it throws). */
  datatype Lookup = NotLocal | Local(path: Path, info: Option<StatInfo>)

  function LookUp(locate: string -> Option<Path>, stat: Path -> Option<StatInfo>, s: string): Lookup
  {
    match locate(s)
    case None => NotLocal
    case Some(p) => Local(p, stat(p))
  }

  /** A new source, already added to `seen` and to `imagesTotal`, counted
      with its lookup: a path that cannot be stat-ed is missing, a regular
      file larger than the limit is large, and a directory passes. */
  function Counted(th: Thresholds, baseDir: Path, file: string, s: string, look: Lookup,
                   seen: set<string>, c: Counts, found: seq<Issue>): (r: ImageScan)
    ensures r.seen == seen
  {
    match look
    case NotLocal => ImageScan(seen, c, found)
    case Local(p, info) =>
      var local := c.(imagesLocal := c.imagesLocal + 1);
      match info
      case None =>
        ImageScan(seen, local.(imagesLocalMissing := local.imagesLocalMissing + 1),
                  found + [MissingImageIssue(file, s, RelativeName(baseDir, p))])
      case Some(Directory) => ImageScan(seen, local, found)
      case Some(RegularFile(bytes)) =>
        var sized := local.(largestLocalImageBytes := Max(local.largestLocalImageBytes, bytes));
        if bytes > th.largeImageBytes then
          ImageScan(seen, sized.(imagesLocalOverLarge := sized.imagesLocalOverLarge + 1),
                    found + [LargeImageIssue(th, file, s, RelativeName(baseDir, p), bytes)])
        else ImageScan(seen, sized, found)
  }

  /** One pass of the image loop. `locate` is `resolveLocalAssetPath` for the
      file, `stat` the file system's `stat`, `baseDir` the directory local
      paths are reported against. A source is trimmed and skipped when empty
      or seen before; otherwise it is counted and, when local, looked up. */
  function ImageStep(th: Thresholds, locate: string -> Option<Path>, stat: Path -> Option<StatInfo>,
                     baseDir: Path, file: string, src: string, st: ImageScan): ImageScan
  {
    var s := Trim(src);
    if s == "" || s in st.seen then st
    else Counted(th, baseDir, file, s, LookUp(locate, stat, s), st.seen + {s},
                 st.counts.(imagesTotal := st.counts.imagesTotal + 1), st.found)
  }

  /** The image loop over `srcs`. */
  function ImagesOf(th: Thresholds, locate: string -> Option<Path>, stat: Path -> Option<StatInfo>,
                    baseDir: Path, file: string, srcs: seq<string>, st: ImageScan): ImageScan
  {
    if srcs == [] then st
    else ImageStep(th, locate, stat, baseDir, file, srcs[|srcs| - 1],
                   ImagesOf(th, locate, stat, baseDir, file, srcs[..|srcs| - 1], st))
  }

  lemma ImagesOfStep(th: Thresholds, locate: string -> Option<Path>, stat: Path -> Option<StatInfo>,
                     baseDir: Path, file: string, srcs: seq<string>, k: nat, st: ImageScan)
    requires k < |srcs|
    ensures ImagesOf(th, locate, stat, baseDir, file, srcs[..k + 1], st)
      == ImageStep(th, locate, stat, baseDir, file, srcs[k], ImagesOf(th, locate, stat, baseDir, file, srcs[..k], st))
  {
    assert srcs[..k + 1][..k] == srcs[..k];
  }

  /** The distinct trimmed, non-empty sources. */
  function Cleaned(srcs: seq<string>): set<string>
  {
    if srcs == [] then {}
    else Cleaned(srcs[..|srcs| - 1]) + (var t := Trim(srcs[|srcs| - 1]); if t != "" then {t} else {})
  }

  lemma CleanedSnoc(srcs: seq<string>, x: string)
    ensures Cleaned(srcs + [x]) == Cleaned(srcs) + (if Trim(x) != "" then {Trim(x)} else {})
  {
    assert (srcs + [x])[..|srcs|] == srcs;
  }

  /** A source belongs to the set once trimmed exactly when some source trims to it. */
  lemma {:induction false} CleanedMembers(srcs: seq<string>, y: string)
    ensures y in Cleaned(srcs) <==> y != "" && exists i :: 0 <= i < |srcs| && Trim(srcs[i]) == y
  {
    if srcs != [] {
      var n := |srcs| - 1;
      var init, x := srcs[..n], srcs[n];
      CleanedMembers(init, y);
      assert srcs == init + [x];
      TrimmedSnoc(init, x, y);
    }
  }

  lemma TrimmedSnoc(init: seq<string>, x: string, y: string)
    ensures (exists i :: 0 <= i < |init + [x]| && Trim((init + [x])[i]) == y) <==>
      (exists i :: 0 <= i < |init| && Trim(init[i]) == y) || Trim(x) == y
  {
    var srcs := init + [x];
    if exists i :: 0 <= i < |srcs| && Trim(srcs[i]) == y {
      var i :| 0 <= i < |srcs| && Trim(srcs[i]) == y;
      if i < |init| {
        assert init[i] == srcs[i];
      }
    }
    if exists i :: 0 <= i < |init| && Trim(init[i]) == y {
      var i :| 0 <= i < |init| && Trim(init[i]) == y;
      assert srcs[i] == init[i];
    }
    assert srcs[|init|] == x;
  }



  /** The counts with the image counts cleared. */
  function WithoutImages(c: Counts): Counts
  {
    c.(imagesTotal := 0, imagesLocal := 0, imagesLocalMissing := 0, imagesLocalOverLarge := 0,
       largestLocalImageBytes := 0)
  }

  /** An image issue: a missing local image is an error, a local image over
      the size limit a warning, both on line 1, column 1 of the file. */
  predicate ImageReported(th: Thresholds, file: string, x: Issue)
  {
    && x.file == file && x.line == 1 && x.column == 1
    && match x.kind
       case MissingImage(_, _) => x.severity == SevError
       case LargeImage(_, _, bytes) => x.severity == SevWarning && bytes > th.largeImageBytes
       case _ => false
  }

  /** The image loop's variables after the sources `srcs`, started from the
      counts `c0` of the line scan: the distinct sources are those seen. */
  predicate ImagesAgree(th: Thresholds, file: string, c0: Counts, srcs: seq<string>, st: ImageScan)
  {
    st.seen == Cleaned(srcs) && ImageCounts(th, file, c0, st)
  }

  /** Each source seen is counted once; local ones are among them; every
      issue is a missing or a large image, counted as such; nothing else is
      counted. */
  predicate ImageCounts(th: Thresholds, file: string, c0: Counts, st: ImageScan)
  {
    var c := st.counts;
    && WithoutImages(c) == WithoutImages(c0)
    && c.imagesTotal == |st.seen|
    && c.imagesLocal <= c.imagesTotal
    && c.imagesLocalMissing + c.imagesLocalOverLarge <= c.imagesLocal
    && |st.found| == c.imagesLocalMissing + c.imagesLocalOverLarge
    && ErrorCount(st.found) == c.imagesLocalMissing
    && (forall k :: 0 <= k < |st.found| ==> ImageReported(th, file, st.found[k]))
    && (forall k :: 0 <= k < |st.found| && st.found[k].kind.LargeImage? ==>
          st.found[k].kind.bytes <= c.largestLocalImageBytes)
  }

  lemma ImageStepAgrees(th: Thresholds, locate: string -> Option<Path>, stat: Path -> Option<StatInfo>,
                        baseDir: Path, file: string, c0: Counts, srcs: seq<string>, x: string, st: ImageScan)
    requires ImagesAgree(th, file, c0, srcs, st)
    ensures ImagesAgree(th, file, c0, srcs + [x], ImageStep(th, locate, stat, baseDir, file, x, st))
  {
    CleanedSnoc(srcs, x);
    var s := Trim(x);
    if s == "" || s in st.seen {
      ImageSkipAgrees(th, locate, stat, baseDir, file, c0, srcs, x, st);
    } else {
      ImageNewAgrees(th, locate, stat, baseDir, file, c0, srcs, x, st);
    }
  }

  lemma ImageSkipAgrees(th: Thresholds, locate: string -> Option<Path>, stat: Path -> Option<StatInfo>,
                        baseDir: Path, file: string, c0: Counts, srcs: seq<string>, x: string, st: ImageScan)
    requires ImagesAgree(th, file, c0, srcs, st)
    requires Trim(x) == "" || Trim(x) in st.seen
    requires Cleaned(srcs + [x]) == Cleaned(srcs) + (if Trim(x) != "" then {Trim(x)} else {})
    ensures ImagesAgree(th, file, c0, srcs + [x], ImageStep(th, locate, stat, baseDir, file, x, st))
  {
    assert ImageStep(th, locate, stat, baseDir, file, x, st) == st;
    assert Cleaned(srcs + [x]) == st.seen;
  }

  lemma ImageNewAgrees(th: Thresholds, locate: string -> Option<Path>, stat: Path -> Option<StatInfo>,
                       baseDir: Path, file: string, c0: Counts, srcs: seq<string>, x: string, st: ImageScan)
    requires ImagesAgree(th, file, c0, srcs, st)
    requires Trim(x) != "" && Trim(x) !in st.seen
    requires Cleaned(srcs + [x]) == Cleaned(srcs) + {Trim(x)}
    ensures ImagesAgree(th, file, c0, srcs + [x], ImageStep(th, locate, stat, baseDir, file, x, st))
  {
    var s := Trim(x);
    ImageStepNew(th, locate, stat, baseDir, file, x, st);
    CountedCounts(th, baseDir, file, c0, s, LookUp(locate, stat, s), st);
  }

  lemma ImageStepNew(th: Thresholds, locate: string -> Option<Path>, stat: Path -> Option<StatInfo>,
                     baseDir: Path, file: string, x: string, st: ImageScan)
    requires Trim(x) != "" && Trim(x) !in st.seen
    ensures ImageStep(th, locate, stat, baseDir, file, x, st)
      == Counted(th, baseDir, file, Trim(x), LookUp(locate, stat, Trim(x)), st.seen + {Trim(x)},
                 st.counts.(imagesTotal := st.counts.imagesTotal + 1), st.found)
  {
  }

  /** Counting a new source keeps the counts in agreement, whatever its lookup gave. */
  lemma CountedCounts(th: Thresholds, baseDir: Path, file: string, c0: Counts, s: string, look: Lookup, st: ImageScan)
    requires s !in st.seen && ImageCounts(th, file, c0, st)
    ensures ImageCounts(th, file, c0, Counted(th, baseDir, file, s, look, st.seen + {s},
                                              st.counts.(imagesTotal := st.counts.imagesTotal + 1), st.found))
  {
    var seen := st.seen + {s};
    var total := st.counts.(imagesTotal := st.counts.imagesTotal + 1);
    match look
    case NotLocal =>
    case Local(p, info) =>
      var local := total.(imagesLocal := total.imagesLocal + 1);
      var rel := RelativeName(baseDir, p);
      match info
      case None =>
        CountsAdded(th, file, c0, st, seen, local.(imagesLocalMissing := local.imagesLocalMissing + 1),
                    MissingImageIssue(file, s, rel));
      case Some(Directory) =>
      case Some(RegularFile(bytes)) =>
        var sized := local.(largestLocalImageBytes := Max(local.largestLocalImageBytes, bytes));
        if bytes > th.largeImageBytes {
          CountsAdded(th, file, c0, st, seen, sized.(imagesLocalOverLarge := sized.imagesLocalOverLarge + 1),
                      LargeImageIssue(th, file, s, rel, bytes));
        }
  }

  /** Adding one image issue with its count keeps the agreement. */
  lemma CountsAdded(th: Thresholds, file: string, c0: Counts, st: ImageScan, seen: set<string>, c: Counts, y: Issue)
    requires forall k :: 0 <= k < |st.found| ==> ImageReported(th, file, st.found[k])
    requires forall k :: 0 <= k < |st.found| && st.found[k].kind.LargeImage? ==>
               st.found[k].kind.bytes <= c.largestLocalImageBytes
    requires ImageReported(th, file, y) && (y.kind.LargeImage? ==> y.kind.bytes <= c.largestLocalImageBytes)
    requires WithoutImages(c) == WithoutImages(c0)
    requires c.imagesTotal == |seen| && c.imagesLocal <= c.imagesTotal
    requires c.imagesLocalMissing + c.imagesLocalOverLarge <= c.imagesLocal
    requires |st.found| + 1 == c.imagesLocalMissing + c.imagesLocalOverLarge
    requires ErrorCount(st.found) + (if y.severity == SevError then 1 else 0) == c.imagesLocalMissing
    ensures ImageCounts(th, file, c0, ImageScan(seen, c, st.found + [y]))
  {
    ErrorCountSnoc(st.found, y);
    var f := st.found + [y];
    assert forall k :: 0 <= k < |st.found| ==> f[k] == st.found[k];
  }

  /** The whole image loop, from the line scan's counts with no source seen. */
  lemma {:induction false} ImagesOfAgree(th: Thresholds, locate: string -> Option<Path>, stat: Path -> Option<StatInfo>,
                                         baseDir: Path, file: string, c0: Counts, srcs: seq<string>)
    requires c0.imagesTotal == 0 && c0.imagesLocal == 0 && c0.imagesLocalMissing == 0
    requires c0.imagesLocalOverLarge == 0 && c0.largestLocalImageBytes == 0
    ensures ImagesAgree(th, file, c0, srcs, ImagesOf(th, locate, stat, baseDir, file, srcs, ImageScan({}, c0, [])))
  {
    if srcs != [] {
      var init := srcs[..|srcs| - 1];
      ImagesOfAgree(th, locate, stat, baseDir, file, c0, init);
      ImageStepAgrees(th, locate, stat, baseDir, file, c0, init, srcs[|srcs| - 1],
                      ImagesOf(th, locate, stat, baseDir, file, init, ImageScan({}, c0, [])));
      assert init + [srcs[|srcs| - 1]] == srcs;
    }
  }

  /** A source already seen, once trimmed, changes nothing. */
  lemma ImageStepRepeat(th: Thresholds, locate: string -> Option<Path>, stat: Path -> Option<StatInfo>,
                        baseDir: Path, file: string, x: string, y: string, st: ImageScan)
    requires Trim(x) == Trim(y)
    ensures var once := ImageStep(th, locate, stat, baseDir, file, x, st);
      ImageStep(th, locate, stat, baseDir, file, y, once) == once
  {
  }

  // ---------------------------------------------------------------------------
  // One file
  // ---------------------------------------------------------------------------

  /** The `wide_table` warning, once per file. */
  function WideTableIssue(th: Thresholds, file: string, maxTableCols: nat): Issue
  {
    Issue(SevWarning, WideTable(maxTableCols), file, 1, 1,
          "Max table columns " + NatToString(maxTableCols) + " exceeds " + IntToString(th.maxTableCols))
  }

  /** What scanning a readable file gives: its counts and the issues it pushes, in order. */
  datatype FileResult = FileResult(counts: Counts, found: seq<Issue>)

  /** The three parts of `scanFile` after the read, on the lines' shapes and
      the image sources: the line scan, the image loop, and the wide-table
      warning. */
  function Findings(th: Thresholds, locate: string -> Option<Path>, stat: Path -> Option<StatInfo>,
                    baseDir: Path, file: string, shapes: seq<LineShape>, srcs: seq<string>): FileResult
  {
    var lines := ScanLines(th, file, shapes, 0, LineStart);
    var images := ImagesOf(th, locate, stat, baseDir, file, srcs, ImageScan({}, lines.counts, []));
    var wide := if images.counts.maxTableCols > th.maxTableCols then [WideTableIssue(th, file, images.counts.maxTableCols)] else [];
    FileResult(images.counts, lines.found + images.found + wide)
  }

  /** `scanFile` on a file read as `content` at `filePath`, reported as
      `file`, whose tokens are `tokens`. */
  function ScanContent(th: Thresholds, fs: FileSystem, roots: SiteRoots.Roots, filePath: Path, file: string,
                       content: string, tokens: seq<BlockToken>): FileResult
  {
    Findings(th, Locator(filePath, roots), Stater(fs), roots.baseDir, file,
             Shapes(SplitLines(content)), ImageSources(tokens))
  }

  /** `resolveLocalAssetPath` for the images of the file at `filePath`. */
  function Locator(filePath: Path, roots: SiteRoots.Roots): string -> Option<Path>
  {
    s => LayoutAssets.AssetPath(s, filePath, roots)
  }

  /** `fs.stat` on `fs`. */
  function Stater(fs: FileSystem): Path -> Option<StatInfo>
  {
    p => Stat(fs, p)
  }

  /** What the counts of a scanned file say about its issues. */
  predicate FileCounted(th: Thresholds, file: string, shapes: seq<LineShape>, r: FileResult)
  {
    var c := r.counts;
    && |r.found| == c.longTextLines + c.longCodeLines + c.imagesLocalMissing + c.imagesLocalOverLarge
                    + (if c.maxTableCols > th.maxTableCols then 1 else 0)
    && ErrorCount(r.found) == c.imagesLocalMissing
    && c.imagesLocal <= c.imagesTotal
    && c.imagesLocalMissing + c.imagesLocalOverLarge <= c.imagesLocal
    && c.tableRows >= c.tableBlocks && (c.tableBlocks == 0 <==> c.maxTableCols == 0)
    && (forall k :: 0 <= k < c.longTextLines + c.longCodeLines ==> LineReported(th, file, shapes, r.found[k]))
  }

  /** The line warnings, then the image issues, then the wide-table warning
      make up a file whose counts account for all of them. */
  lemma Assemble(th: Thresholds, file: string, shapes: seq<LineShape>, lines: LineScan, images: ImageScan)
    requires FoundUpTo(th, file, shapes, |shapes|, lines.found) && Tallied(lines.counts, lines.found)
    requires ImageCounts(th, file, lines.counts, images)
    ensures var c := images.counts;
      var wide := if c.maxTableCols > th.maxTableCols then [WideTableIssue(th, file, c.maxTableCols)] else [];
      FileCounted(th, file, shapes, FileResult(c, lines.found + images.found + wide))
  {
    var c := images.counts;
    var wide := if c.maxTableCols > th.maxTableCols then [WideTableIssue(th, file, c.maxTableCols)] else [];
    LongLinesAll(th, file, shapes, lines.found);
    assert WithoutImages(c) == WithoutImages(lines.counts);
    assert c.longTextLines == lines.counts.longTextLines && c.longCodeLines == lines.counts.longCodeLines;
    assert c.tableRows == lines.counts.tableRows && c.tableBlocks == lines.counts.tableBlocks;
    assert c.maxTableCols == lines.counts.maxTableCols;
    ErrorCountWarnings(lines.found);
    ErrorCountWarnings(wide);
    ErrorCountAppend(lines.found, images.found);
    ErrorCountAppend(lines.found + images.found, wide);
    var all := lines.found + images.found + wide;
    assert forall k :: 0 <= k < |lines.found| ==> all[k] == lines.found[k];
  }

  /** A scanned file's counts account for every issue it pushes: one per
      long text line, long code line, missing and large local image, and one
      more when the widest table is over the limit; the errors are the
      missing images. Each distinct trimmed source is counted once, the
      local ones among them, and the line warnings come first. */
  lemma FindingsCounts(th: Thresholds, locate: string -> Option<Path>, stat: Path -> Option<StatInfo>,
                       baseDir: Path, file: string, shapes: seq<LineShape>, srcs: seq<string>)
    requires PipesCounted(shapes)
    ensures var r := Findings(th, locate, stat, baseDir, file, shapes, srcs);
      FileCounted(th, file, shapes, r) && r.counts.imagesTotal == |Cleaned(srcs)|
  {
    var lines := ScanLines(th, file, shapes, 0, LineStart);
    ScanLinesValid(th, file, shapes, 0, LineStart);
    ImagesOfAgree(th, locate, stat, baseDir, file, lines.counts, srcs);
    var images := ImagesOf(th, locate, stat, baseDir, file, srcs, ImageScan({}, lines.counts, []));
    Assemble(th, file, shapes, lines, images);
  }

  /** The scan of a readable file counts as above. */
  lemma ScanContentCounts(th: Thresholds, fs: FileSystem, roots: SiteRoots.Roots, filePath: Path, file: string,
                          content: string, tokens: seq<BlockToken>)
    ensures var r := ScanContent(th, fs, roots, filePath, file, content, tokens);
      && FileCounted(th, file, Shapes(SplitLines(content)), r)
      && r.counts.imagesTotal == |Cleaned(ImageSources(tokens))|
  {
    ShapesPipesCounted(SplitLines(content));
    FindingsCounts(th, Locator(filePath, roots), Stater(fs), roots.baseDir, file,
                   Shapes(SplitLines(content)), ImageSources(tokens));
  }
}
