/** Line-level pieces shared by the Markdown scanners: splitting a file into
    lines at `\r?\n`, and the run of backticks or tildes that opens or closes
    a code fence. */
module MdLines {
  import opened Wrappers
  import opened Text

  /** A piece with one trailing carriage return removed. */
  function DropCarriageReturn(s: string): (r: string)
    ensures s == r || s == r + ['\r']
    ensures |s| > 0 && s[|s| - 1] == '\r' ==> s == r + ['\r']
  {
    if |s| > 0 && s[|s| - 1] == '\r' then s[..|s| - 1] else s
  }

  /** `content.split(/\r?\n/)`: the pieces between line feeds, each losing the
      carriage return just before its line feed. */
  function SplitLines(s: string): (lines: seq<string>)
    ensures |lines| >= 1
    ensures forall i :: 0 <= i < |lines| ==> '\n' !in lines[i]
    decreases |s|
  {
    var k := IndexOfChar(s, '\n');
    if k == |s| then [s]
    else
      var rest := SplitLines(s[k + 1..]);
      assert forall i :: 1 <= i < |rest| + 1 ==> ([DropCarriageReturn(s[..k])] + rest)[i] == rest[i - 1];
      [DropCarriageReturn(s[..k])] + rest
  }

  /** One line per line feed, plus the last one. */
  lemma {:induction false} SplitLinesCount(s: string)
    ensures |SplitLines(s)| == CountChar(s, '\n') + 1
    decreases |s|
  {
    var k := IndexOfChar(s, '\n');
    if k < |s| {
      SplitLinesCount(s[k + 1..]);
      CountCharSplitAt(s, '\n', k);
    } else {
      CountCharAbsent(s, '\n');
    }
  }

  /** Without carriage returns, joining the lines with line feeds gives the text back. */
  lemma {:induction false} SplitLinesJoin(s: string)
    requires '\r' !in s
    ensures JoinWith(SplitLines(s), "\n") == s
    decreases |s|
  {
    var k := IndexOfChar(s, '\n');
    if k < |s| {
      var head, rest := s[..k], s[k + 1..];
      assert '\r' !in rest by {
        forall i | 0 <= i < |rest| ensures rest[i] != '\r' {
          assert rest[i] == s[k + 1 + i];
        }
      }
      assert head == [] || head[|head| - 1] != '\r' by {
        if head != [] {
          assert head[|head| - 1] == s[k - 1];
        }
      }
      assert DropCarriageReturn(head) == head;
      var tail := SplitLines(rest);
      var lines := SplitLines(s);
      assert lines == [head] + tail;
      assert lines[0] == head && lines[1..] == tail;
      SplitLinesJoin(rest);
      assert JoinWith(lines, "\n") == head + "\n" + JoinWith(tail, "\n");
      assert s == head + "\n" + rest;
    }
  }

  /** A carriage return before a line feed ends the line just as the line feed alone does. */
  lemma CrLfEndsLine(a: string, b: string, cr: char, lf: char)
    requires cr == '\r' && lf == '\n'
    requires '\n' !in a
    ensures SplitLines(a + [cr, lf] + b) == [a] + SplitLines(b)
    ensures SplitLines(a + [lf] + b) == [DropCarriageReturn(a)] + SplitLines(b)
  {
    var s := a + [cr, lf] + b;
    assert s[..|a| + 1] == a + [cr];
    IndexOfCharUnique(s, '\n', |a| + 1);
    assert (a + [cr])[..|a|] == a;
    assert s[|a| + 2..] == b;
    var t := a + [lf] + b;
    assert t[..|a|] == a;
    IndexOfCharUnique(t, '\n', |a|);
    assert t[|a| + 1..] == b;
  }

  /** The characters a fence can be built from. */
  predicate IsFenceChar(c: char)
  {
    c == '`' || c == '~'
  }

  /** Length of the run of `c` starting at index `from`. */
  function RunLength(s: string, from: nat, c: char): (n: nat)
    requires from <= |s|
    ensures from + n <= |s|
    ensures forall j :: from <= j < from + n ==> s[j] == c
    ensures from + n < |s| ==> s[from + n] != c
    decreases |s| - from
  {
    if from == |s| || s[from] != c then 0 else 1 + RunLength(s, from + 1, c)
  }

  /** A run of three or more backticks or tildes after the leading whitespace:
      where it starts, its character and its length. */
  datatype Marker = Marker(indent: nat, markerChar: char, markerLen: nat)

  /** The marker part `(`{3,}|~{3,})` of the fence patterns, after `\s*`. Both
      quantifiers are greedy and the marker characters are not whitespace, so a
      match takes all the leading whitespace and the whole run. */
  function FenceMarker(line: string): (r: Option<Marker>)
    ensures r.Some? <==> (SpaceRun(line) < |line| && IsFenceChar(line[SpaceRun(line)])
                          && RunLength(line, SpaceRun(line), line[SpaceRun(line)]) >= 3)
    ensures r.Some? ==> (r.value.indent == SpaceRun(line) && r.value.markerChar == line[r.value.indent]
                         && IsFenceChar(r.value.markerChar) && r.value.markerLen >= 3
                         && r.value.markerLen == RunLength(line, r.value.indent, r.value.markerChar))
  {
    var k := SpaceRun(line);
    if k < |line| && IsFenceChar(line[k]) && RunLength(line, k, line[k]) >= 3
    then Some(Marker(k, line[k], RunLength(line, k, line[k])))
    else None
  }

  /** What follows the marker on its line. */
  function AfterMarker(line: string, m: Marker): (rest: string)
    requires m.indent + m.markerLen <= |line|
    ensures |rest| == |line| - m.indent - m.markerLen
  {
    line[m.indent + m.markerLen..]
  }

  /** Whitespace, then a run of at least three of one fence character, then
      anything not starting with that character: the marker is that run. */
  lemma MarkerOfParts(pre: string, c: char, n: nat, rest: string)
    requires AllSpace(pre) && IsFenceChar(c) && n >= 3
    requires rest == [] || rest[0] != c
    ensures var line := pre + seq(n, _ => c) + rest;
      && FenceMarker(line) == Some(Marker(|pre|, c, n))
      && AfterMarker(line, Marker(|pre|, c, n)) == rest
  {
    var line := pre + seq(n, _ => c) + rest;
    assert line[..|pre|] == pre;
    assert line[|pre|] == c;
    SpaceRunExact(line, |pre|);
    RunExact(line, |pre|, c, n);
    assert line[|pre| + n..] == rest;
  }

  lemma {:induction false} RunExact(s: string, from: nat, c: char, n: nat)
    requires from + n <= |s|
    requires forall j :: from <= j < from + n ==> s[j] == c
    requires from + n == |s| || s[from + n] != c
    ensures RunLength(s, from, c) == n
    decreases n
  {
    if n > 0 {
      RunExact(s, from + 1, c, n - 1);
    }
  }

  /** `.` in a JavaScript pattern matches every character of `s`. */
  predicate NoLineBreak(s: string)
  {
    forall i :: 0 <= i < |s| ==> !IsLineTerminator(s[i])
  }
}
