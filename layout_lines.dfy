/** Line-level pieces of the `check-layout-risk` script: its code fence
    markers, which unlike the Markdown structure checker's accept any
    indentation; its table heuristics; and the clamp applied to the line
    quoted in an issue. */
module LayoutLines {
  import opened Wrappers
  import opened Text
  import opened MdLines

  // ---------------------------------------------------------------------
  // Code fences

  /** `findFencedCodeMarker`: the marker of a line matching
      `^\s*(`{3,}|~{3,})(.*)$`, whatever its indentation. */
  function FindFenceMarker(line: string): (r: Option<Marker>)
  {
    var m := FenceMarker(line);
    if m.Some? && NoLineBreak(AfterMarker(line, m.value)) then m else None
  }

  /** Whitespace of any length, a run of at least three backticks or tildes
      and the rest of a line opens a fence with that run. */
  lemma FenceOpenOfParts(pre: string, c: char, n: nat, rest: string)
    requires AllSpace(pre) && IsFenceChar(c) && n >= 3
    requires rest == [] || rest[0] != c
    requires NoLineBreak(rest)
    ensures FindFenceMarker(pre + seq(n, _ => c) + rest) == Some(Marker(|pre|, c, n))
  {
    MarkerOfParts(pre, c, n, rest);
  }

  /** A line opens a fence only when its first character after the
      whitespace is a backtick or a tilde repeated at least three times. */
  lemma FenceOpenNeedsRun(line: string)
    requires FindFenceMarker(line).Some?
    ensures var k := SpaceRun(line);
      && k + 3 <= |line| && IsFenceChar(line[k])
      && line[k + 1] == line[k] && line[k + 2] == line[k]
      && FindFenceMarker(line).value.indent == k
  {
    var m := FenceMarker(line).value;
    assert line[m.indent + 1] == m.markerChar;
    assert line[m.indent + 2] == m.markerChar;
  }

  /** Whether the scan is inside a fence, and if so the fence's marker
      (`fenceState`; its `markerChar` is null and `markerLen` 0 outside). */
  datatype FenceState = Outside | Inside(markerChar: char, markerLen: nat)

  /** The marker of a line matching `^\s*(`{3,}|~{3,})\s*$`, if it does. */
  function BareMarker(line: string): (r: Option<Marker>)
  {
    var m := FenceMarker(line);
    if m.Some? && AllSpace(AfterMarker(line, m.value)) then m else None
  }

  /** `isFenceClose`: inside a fence, a bare run of the fence's character at
      least as long as the opening run. */
  predicate IsFenceClose(line: string, state: FenceState)
  {
    ClosesWith(BareMarker(line), state)
  }

  /** Whether a line whose bare marker is `bare` closes the fence `state`. */
  predicate ClosesWith(bare: Option<Marker>, state: FenceState)
  {
    && state.Inside?
    && bare.Some?
    && bare.value.markerChar == state.markerChar
    && bare.value.markerLen >= state.markerLen
  }

  /** Whitespace, a run of `n` fence characters and trailing whitespace close
      a fence exactly when the character is the fence's and the run is at
      least as long; outside a fence nothing closes. */
  lemma FenceCloseOfParts(pre: string, c: char, n: nat, post: string, state: FenceState)
    requires AllSpace(pre) && IsFenceChar(c) && n >= 3 && AllSpace(post)
    ensures IsFenceClose(pre + seq(n, _ => c) + post, state) <==>
      (state.Inside? && state.markerChar == c && n >= state.markerLen)
  {
    assert post == [] || post[0] != c;
    MarkerOfParts(pre, c, n, post);
  }

  /** A line that closes a fence carries nothing after its marker. */
  lemma FenceCloseIsBare(line: string, state: FenceState)
    requires IsFenceClose(line, state)
    ensures FenceMarker(line).Some?
    ensures AllSpace(AfterMarker(line, FenceMarker(line).value))
    ensures FenceMarker(line).value.markerChar == state.markerChar
  {
  }

  // ---------------------------------------------------------------------
  // Tables

  /** The characters `[\s|:\-]` of a delimiter row. */
  predicate IsDelimiterChar(c: char)
  {
    IsSpace(c) || c == '|' || c == ':' || c == '-'
  }

  /** `looksLikeTableDelimiter`: the trimmed line is not empty, contains a
      `-`, is made of whitespace, pipes, colons and dashes only, contains a
      run of three dashes and contains a pipe. */
  predicate LooksLikeTableDelimiter(line: string)
  {
    var s := Trim(line);
    && s != []
    && '-' in s
    && (forall i :: 0 <= i < |s| ==> IsDelimiterChar(s[i]))
    && Contains(s, "---")
    && '|' in s
  }

  /** The separate test for a single dash adds nothing: a run of three
      dashes already contains one. */
  lemma DelimiterWithoutDashTest(line: string)
    ensures var s := Trim(line);
      LooksLikeTableDelimiter(line) <==>
        (&& s != []
         && (forall i :: 0 <= i < |s| ==> IsDelimiterChar(s[i]))
         && Contains(s, "---")
         && '|' in s)
  {
    var s := Trim(line);
    if Contains(s, "---") {
      var k := FindFrom(s, "---", 0).value;
      assert s[k..k + 3] == "---";
      assert s[k] == '-';
    }
  }

  /** A row made of delimiter characters around a run `d` of at least three
      dashes, holding a pipe and neither starting nor ending with
      whitespace, is a delimiter row. */
  lemma DelimiterOfParts(a: string, d: string, b: string)
    requires |d| >= 3 && forall i :: 0 <= i < |d| ==> d[i] == '-'
    requires forall i :: 0 <= i < |a| ==> IsDelimiterChar(a[i])
    requires forall i :: 0 <= i < |b| ==> IsDelimiterChar(b[i])
    requires '|' in a || '|' in b
    requires a == [] || !IsSpace(a[0])
    requires b == [] || !IsSpace(b[|b| - 1])
    ensures LooksLikeTableDelimiter(a + d + b)
  {
    var s := a + d + b;
    PartsTrimmed(a, d, b);
    PartsDashes(a, d, b);
    PartsDelimiterChars(a, d, b);
    PartsPipe(a, d, b);
  }

  lemma PartsTrimmed(a: string, d: string, b: string)
    requires |d| >= 3 && forall i :: 0 <= i < |d| ==> d[i] == '-'
    requires a == [] || !IsSpace(a[0])
    requires b == [] || !IsSpace(b[|b| - 1])
    ensures Trim(a + d + b) == a + d + b
  {
    var s := a + d + b;
    assert s[0] == (if a == [] then d[0] else a[0]);
    assert s[|s| - 1] == (if b == [] then d[|d| - 1] else b[|b| - 1]);
    TrimOfTrimmed(s);
  }

  lemma PartsDashes(a: string, d: string, b: string)
    requires |d| >= 3 && forall i :: 0 <= i < |d| ==> d[i] == '-'
    ensures '-' in a + d + b && Contains(a + d + b, "---")
  {
    var s := a + d + b;
    assert s[|a|] == d[0];
    assert s[|a|..|a| + 3] == "---" by {
      assert s[|a|..|a| + 3] == d[..3];
    }
    assert OccursAt(s, "---", |a|);
  }

  lemma PartsDelimiterChars(a: string, d: string, b: string)
    requires forall i :: 0 <= i < |d| ==> d[i] == '-'
    requires forall i :: 0 <= i < |a| ==> IsDelimiterChar(a[i])
    requires forall i :: 0 <= i < |b| ==> IsDelimiterChar(b[i])
    ensures forall i :: 0 <= i < |a + d + b| ==> IsDelimiterChar((a + d + b)[i])
  {
    var s := a + d + b;
    forall i | 0 <= i < |s| ensures IsDelimiterChar(s[i]) {
      if i < |a| {
        assert s[i] == a[i];
      } else if i < |a| + |d| {
        assert s[i] == d[i - |a|];
      } else {
        assert s[i] == b[i - |a| - |d|];
      }
    }
  }

  lemma PartsPipe(a: string, d: string, b: string)
    requires '|' in a || '|' in b
    ensures '|' in a + d + b
  {
    var s := a + d + b;
    if '|' in a {
      var j :| 0 <= j < |a| && a[j] == '|';
      assert s[j] == '|';
    } else {
      var j :| 0 <= j < |b| && b[j] == '|';
      assert s[|a| + |d| + j] == '|';
    }
  }

  /** A line holding a character outside `[\s|:\-]` is never a delimiter row. */
  lemma DelimiterRejectsText(line: string, k: nat)
    requires k < |line| && !IsDelimiterChar(line[k])
    ensures !LooksLikeTableDelimiter(line)
  {
    var lo := SpaceRun(line);
    var t := TrimStart(line);
    assert k >= lo;
    var s := Trim(line);
    assert k - lo < |t| && t[k - lo] == line[k];
    assert k - lo < |s|;
    assert s[k - lo] == line[k];
  }

  /** The row without one leading `|` and then one trailing `|`. */
  function StripOuterPipes(s: string): (r: string)
  {
    var a := if |s| > 0 && s[0] == '|' then s[1..] else s;
    if |a| > 0 && a[|a| - 1] == '|' then a[..|a| - 1] else a
  }

  /** `countTableColumns`: no column without a pipe, otherwise the pieces
      between the pipes once the outer ones are removed. */
  function CountTableColumns(row: string): (n: nat)
  {
    var s := Trim(row);
    if '|' !in s then 0 else |Split(StripOuterPipes(s), '|')|
  }

  /** A row has columns exactly when it holds a pipe, and then one more than
      the pipes between its outer ones. */
  lemma ColumnsCountPipes(row: string)
    ensures CountTableColumns(row) == 0 <==> '|' !in Trim(row)
    ensures '|' in Trim(row) ==>
      CountTableColumns(row) == CountChar(StripOuterPipes(Trim(row)), '|') + 1
  {
    SplitLength(StripOuterPipes(Trim(row)), '|');
  }

  /** A pipe anywhere on the line means the line has a column. */
  lemma PipeLineHasColumns(line: string)
    requires '|' in line
    ensures CountTableColumns(line) >= 1
  {
    var j :| 0 <= j < |line| && line[j] == '|';
    var lo := SpaceRun(line);
    var t := TrimStart(line);
    var s := Trim(line);
    assert j >= lo;
    assert j - lo < |t| && t[j - lo] == '|';
    assert j - lo < |s|;
    assert s[j - lo] == '|';
    ColumnsCountPipes(line);
  }

  /** Removing the outer pipes of `|x|` leaves `x`. */
  lemma StripPiped(x: string)
    ensures StripOuterPipes("|" + x + "|") == x
  {
    var row := "|" + x + "|";
    assert row[1..] == x + "|";
    assert (x + "|")[..|x|] == x;
  }

  /** A row written `|cell|cell|…|` has one column per cell. */
  lemma PipedRowColumns(cells: seq<string>)
    requires |cells| >= 1
    requires forall i :: 0 <= i < |cells| ==> '|' !in cells[i]
    ensures CountTableColumns("|" + JoinWith(cells, "|") + "|") == |cells|
  {
    var j := JoinWith(cells, "|");
    var row := "|" + j + "|";
    assert row[0] == '|' && row[|row| - 1] == '|';
    TrimOfTrimmed(row);
    StripPiped(j);
    SplitJoin(cells, '|');
  }

  // ---------------------------------------------------------------------
  // Snippets

  /** The default `maxLen` of `clampSnippet`. */
  const SnippetLength: nat := 120

  /** `clampSnippet`: a line of at most `maxLen` UTF-16 code units is kept
      whole; a longer one keeps its longest prefix of at most `maxLen` code
      units followed by `...`. */
  function ClampSnippet(line: string, maxLen: nat): (r: string)
    ensures Utf16Length(line) <= maxLen ==> r == line
    ensures Utf16Length(line) > maxLen ==>
      && |r| >= 3 && r[|r| - 3..] == "..."
      && var p := r[..|r| - 3];
      && |p| < |line| && p == line[..|p|]
      && Utf16Length(p) <= maxLen < Utf16Length(p) + Utf16Units(line[|p|])
  {
    Utf16LengthPrefixed(line, maxLen);
    if Utf16Length(line) <= maxLen then line else Utf16Prefix(line, maxLen) + "..."
  }

  /** A line longer than `maxLen` code units loses at least its last character. */
  lemma Utf16LengthPrefixed(line: string, maxLen: nat)
    ensures Utf16Length(line) > maxLen ==> |Utf16Prefix(line, maxLen)| < |line|
  {
    var p := Utf16Prefix(line, maxLen);
    if |p| == |line| {
      assert p == line;
    }
  }

  /** Within the Basic Multilingual Plane a long line keeps exactly its
      first `maxLen` characters. */
  lemma ClampSnippetBmp(line: string, maxLen: nat)
    requires forall i :: 0 <= i < |line| ==> line[i] as int < 0x10000
    requires |line| > maxLen
    ensures ClampSnippet(line, maxLen) == line[..maxLen] + "..."
  {
    Utf16LengthBmp(line);
    var r := ClampSnippet(line, maxLen);
    var p := r[..|r| - 3];
    assert forall i :: 0 <= i < |p| ==> p[i] == line[i];
    Utf16LengthBmp(p);
    assert |p| == maxLen;
    assert r == p + "...";
  }
}
