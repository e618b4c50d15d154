/** The `svg-font-normalize` script: the font-family replacer, the `font`
    shorthand replacer and the four global rewrites it applies to an SVG
    text. */
module SvgFontNormalize {
  import opened Wrappers
  import opened Text
  import opened FontValues

  // ---------------------------------------------------------------------
  // Canonical stacks and the values they replace

  /** `SANS_STACK`, with single quotes so that it fits inside a double-quoted
      attribute. */
  const SansStack: string := SansStackPieces[0] + SansStackPieces[1] + SansStackPieces[2] + SansStackPieces[3] + SansStackPieces[4]

  /** The text of `SANS_STACK`, in pieces short enough to reason about one
      character at a time. */
  const SansStackPieces: seq<string> := [
    "-apple-system, BlinkMacSystemFont, ",
    "'Segoe UI', Roboto, 'Helvetica Neue', ",
    "Arial, 'Noto Sans', sans-serif, ",
    "'Apple Color Emoji', 'Segoe UI Emoji', ",
    "'Segoe UI Symbol', 'Noto Color Emoji'"
  ]

  /** `MONO_STACK`. */
  const MonoStack: string := MonoStackPieces[0] + MonoStackPieces[1]

  /** The text of `MONO_STACK`, in pieces. */
  const MonoStackPieces: seq<string> := [
    "'Monaco', 'Menlo', 'Ubuntu Mono', ",
    "'Consolas', 'source-code-pro', monospace"
  ]

  /** The sans-serif stacks that are replaced, before normalisation. */
  const SansCandidates: seq<string> := [
    "sans-serif",
    "Inter, Helvetica, sans-serif",
    "Inter, Helvetica, Arial, sans-serif",
    "Inter, sans-serif",
    "'Inter', sans-serif",
    "\"Inter\", sans-serif",
    "Inter, 'Helvetica Neue', Arial, sans-serif",
    "'Inter', 'Helvetica Neue', Arial, sans-serif",
    "'Inter', 'Helvetica Neue', Helvetica, sans-serif",
    "'Inter', 'Helvetica', sans-serif",
    "'Inter', 'Helvetica Neue', sans-serif",
    "'Inter', -apple-system, BlinkMacSystemFont, sans-serif",
    "'Inter', -apple-system, BlinkMacSystemFont, 'Segoe UI', sans-serif",
    "system-ui, sans-serif",
    "Arial, sans-serif",
    "'Noto Sans JP', sans-serif",
    "'Hiragino Sans', 'Yu Gothic', sans-serif",
    "-apple-system, BlinkMacSystemFont, 'Segoe UI', Roboto, 'Helvetica Neue', Arial, 'Noto Sans', sans-serif",
    "-apple-system, BlinkMacSystemFont, \"Segoe UI\", Roboto, \"Helvetica Neue\", Arial, \"Noto Sans\", sans-serif, \"Apple Color Emoji\", \"Segoe UI Emoji\", \"Segoe UI Symbol\", \"Noto Color Emoji\"",
    "-apple-system, BlinkMacSystemFont, \"Segoe UI\", Roboto, \"Helvetica Neue\", Arial, \"Noto Sans\", sans-serif"
  ]

  /** The monospace stacks that are replaced, before normalisation. */
  const MonoCandidates: seq<string> := [
    "monospace",
    "Courier, monospace",
    "'Courier New', monospace",
    "'Monaco', 'Menlo', monospace",
    "\"Monaco\", \"Menlo\", \"Ubuntu Mono\", \"Consolas\", \"source-code-pro\", monospace",
    "'SF Mono', monospace",
    "'SF Mono', 'Monaco', 'Consolas', monospace"
  ]

  /** The tables the replacer consults: the two canonical stacks and the
      normal forms of the values each of them replaces. */
  datatype Tables = Tables(sansStack: string, monoStack: string, sansReplace: set<string>, monoReplace: set<string>)

  /** The script's tables; `SANS_REPLACE` and `MONO_REPLACE` are the normal
      forms of the candidates. */
  const Script: Tables := Tables(
    SansStack, MonoStack,
    set c | c in SansCandidates :: NormalizeFontValue(c),
    set c | c in MonoCandidates :: NormalizeFontValue(c))

  // ---------------------------------------------------------------------
  // Regular-expression building blocks

  /** Whether position `i` holds a `\w` character. */
  predicate WordAt(s: string, i: int)
  {
    0 <= i < |s| && IsWordChar(s[i])
  }

  /** `\b` at position `i`: a word character on exactly one side. */
  predicate BoundaryAt(s: string, i: int)
  {
    WordAt(s, i - 1) != WordAt(s, i)
  }

  /** Whether `c` matches the pattern character `p`, written in lower case,
      under the `i` flag: only the ASCII capital of a letter matches besides
      the letter itself. */
  predicate SameIgnoringCase(c: char, p: char)
  {
    c == p || ('a' <= p <= 'z' && c as int == p as int - 32)
  }

  /** `w` (written in lower case) occurs at `i` under the `i` flag. */
  predicate IgnoreCaseAt(s: string, i: nat, w: string)
  {
    i + |w| <= |s| && forall k :: 0 <= k < |w| ==> SameIgnoringCase(s[i + k], w[k])
  }

  /** An exact occurrence matches under the `i` flag. */
  lemma ExactIgnoreCase(s: string, i: nat, w: string)
    requires i + |w| <= |s| && s[i..i + |w|] == w
    ensures IgnoreCaseAt(s, i, w)
  {
    forall k | 0 <= k < |w| ensures SameIgnoringCase(s[i + k], w[k]) {
      assert s[i + k] == s[i..i + |w|][k];
    }
  }

  /** Position `i` starts a match of `\b(Latin Modern Math|STIX Two Math)\b`. */
  predicate MathAt(s: string, i: nat)
  {
    && BoundaryAt(s, i)
    && ((IgnoreCaseAt(s, i, "latin modern math") && BoundaryAt(s, i + 17))
        || (IgnoreCaseAt(s, i, "stix two math") && BoundaryAt(s, i + 13)))
  }

  /** The test for a math stack that must be left alone. */
  predicate MentionsMath(s: string)
  {
    exists i: nat :: i <= |s| && MathAt(s, i)
  }

  /** A math name is at least thirteen characters long. */
  lemma ShortNoMath(s: string)
    requires |s| < 13
    ensures !MentionsMath(s)
  {
  }

  // ---------------------------------------------------------------------
  // Family values

  /** `maybeReplaceFontFamily`: the canonical stack that replaces a value,
      if any. */
  function MaybeReplaceFontFamily(t: Tables, value: string): (r: Option<string>)
    ensures r.Some? ==> r.value == t.sansStack || r.value == t.monoStack
  {
    var norm := NormalizeFontValue(value);
    if norm == [] then None
    else if MentionsMath(norm) then None
    else if norm == NormalizeFontValue(t.sansStack) || norm == NormalizeFontValue(t.monoStack) then None
    else if norm in t.sansReplace then Some(t.sansStack)
    else if norm in t.monoReplace then Some(t.monoStack)
    else None
  }

  /** The replacer only looks at the normal form of a value. */
  lemma FamilyNormalOnly(t: Tables, value: string)
    ensures MaybeReplaceFontFamily(t, value) == MaybeReplaceFontFamily(t, NormalizeFontValue(value))
  {
    NormalizeIdempotent(value);
  }

  /** What the replacer does: blank values, math stacks and values already
      equal to a canonical stack up to normalisation are kept; the other
      values whose normal form is listed are replaced, by the sans stack
      when they are a sans-serif one; and a replacement is never a no-op. */
  lemma FamilyReplacement(t: Tables, value: string)
    ensures var r := MaybeReplaceFontFamily(t, value);
      var norm := NormalizeFontValue(value);
      && (r.Some? <==>
            (&& !AllSpace(value) && !MentionsMath(norm)
             && norm != NormalizeFontValue(t.sansStack) && norm != NormalizeFontValue(t.monoStack)
             && (norm in t.sansReplace || norm in t.monoReplace)))
      && (r.Some? ==> r.value == if norm in t.sansReplace then t.sansStack else t.monoStack)
      && (r.Some? ==> norm != NormalizeFontValue(r.value))
  {
    NormalizeEmpty(value);
  }

  /** A canonical stack is never replaced, so a value once replaced stays as
      it is. */
  lemma FamilyFixpoint(t: Tables, value: string)
    ensures MaybeReplaceFontFamily(t, t.sansStack) == None
    ensures MaybeReplaceFontFamily(t, t.monoStack) == None
    ensures MaybeReplaceFontFamily(t, value).Some? ==>
      MaybeReplaceFontFamily(t, MaybeReplaceFontFamily(t, value).value) == None
  {
  }

  // ---------------------------------------------------------------------
  // The `font` shorthand

  /** Which reading of the `\b` after a size or line-height unit applies.
      As written, `\b` after `%` demands a word character next, so a
      percentage followed by a space never matches; the corrected reading
      asks only that no word character follows, which is what the letter
      units already get. The corrected reading also accepts a declaration
      that ends at the closing brace without a semicolon. */
  datatype Rule = AsWritten | Corrected

  /** Where `\s*!important\s*$` starts, if it matches. */
  function ImportantStart(raw: string): (r: Option<nat>)
    ensures r.Some? ==> r.value + 10 <= |raw|
  {
    var k := |raw| - TrailingSpaceRun(raw);
    if k >= 10 && IgnoreCaseAt(raw, k - 10, "!important") then
      Some(k - 10 - TrailingSpaceRun(raw[..k - 10]))
    else None
  }

  /** `!important` after whitespace, ending the value but for whitespace, is
      found where the whitespace before it starts. */
  lemma ImportantOfParts(base: string, sp: string, post: string)
    requires base == [] || !IsSpace(base[|base| - 1])
    requires AllSpace(sp) && AllSpace(post)
    ensures ImportantStart(base + sp + "!important" + post) == Some(|base|)
  {
    var head := base + sp;
    var word := head + "!important";
    var raw := word + post;
    assert word[|word| - 1] == 't';
    TrailingRunAppend(word, post);
    var k := |word|;
    assert raw[..k] == word;
    assert word[..|head|] == head;
    assert raw[..k - 10] == head;
    assert raw[k - 10..k] == "!important";
    ExactIgnoreCase(raw, k - 10, "!important");
    ImportantAt(raw, k);
    TrailingRunAppend(base, sp);
  }

  /** `!important` right before the trailing whitespace. */
  lemma ImportantAt(raw: string, k: nat)
    requires k == |raw| - TrailingSpaceRun(raw) && k >= 10
    requires IgnoreCaseAt(raw, k - 10, "!important")
    ensures ImportantStart(raw).Some?
    ensures ImportantStart(raw).value == k - 10 - TrailingSpaceRun(raw[..k - 10])
  {
  }

  /** Whitespace after text that does not end in whitespace is the trailing
      whitespace run. */
  lemma {:induction false} TrailingRunAppend(a: string, b: string)
    requires a == [] || !IsSpace(a[|a| - 1])
    requires AllSpace(b)
    ensures TrailingSpaceRun(a + b) == |b|
    decreases |b|
  {
    if b == [] {
      assert a + b == a;
    } else {
      var c := b[..|b| - 1];
      assert (a + b)[..|a + b| - 1] == a + c;
      TrailingRunAppend(a, c);
    }
  }

  /** A value without `!` carries no `!important`. */
  lemma NoImportant(raw: string)
    requires '!' !in raw
    ensures ImportantStart(raw) == None
  {
    var k := |raw| - TrailingSpaceRun(raw);
    if k >= 10 {
      assert raw[k - 10 + 0] != "!important"[0];
    }
  }

  /** The value before the `!important` suffix. */
  function Base(raw: string): (b: string)
    ensures |b| <= |raw| && b == raw[..|b|]
  {
    match ImportantStart(raw)
    case Some(k) => raw[..k]
    case None => raw
  }

  /** Length of the run of ASCII digits at `i`. */
  function DigitRun(s: string, i: nat): (n: nat)
    requires i <= |s|
    ensures i + n <= |s|
    ensures forall k :: i <= k < i + n ==> IsAsciiDigit(s[k])
    ensures i + n < |s| ==> !IsAsciiDigit(s[i + n])
    decreases |s| - i
  {
    if i < |s| && IsAsciiDigit(s[i]) then 1 + DigitRun(s, i + 1) else 0
  }

  /** Length of the run of `[0-9.]` at `i`. */
  function NumberRun(s: string, i: nat): (n: nat)
    requires i <= |s|
    ensures i + n <= |s|
    ensures forall k :: i <= k < i + n ==> IsAsciiDigit(s[k]) || s[k] == '.'
    ensures i + n < |s| ==> !IsAsciiDigit(s[i + n]) && s[i + n] != '.'
    decreases |s| - i
  {
    if i < |s| && (IsAsciiDigit(s[i]) || s[i] == '.') then 1 + NumberRun(s, i + 1) else 0
  }

  /** The two-letter unit `a` `b` at `n`, in either letter case. */
  predicate UnitOf2At(s: string, n: nat, a: char, b: char)
  {
    n + 2 <= |s| && SameIgnoringCase(s[n], a) && SameIgnoringCase(s[n + 1], b)
  }

  /** The unit `rem` at `n`, in either letter case. */
  predicate RemAt(s: string, n: nat)
  {
    n + 3 <= |s| && SameIgnoringCase(s[n], 'r') && SameIgnoringCase(s[n + 1], 'e') && SameIgnoringCase(s[n + 2], 'm')
  }

  /** Length of the unit `px|pt|em|rem|%` at `n`, 0 when there is none. */
  function UnitLen(s: string, n: nat): (u: nat)
    ensures u <= 3
    ensures u > 0 ==> n + u <= |s|
  {
    if UnitOf2At(s, n, 'p', 'x') || UnitOf2At(s, n, 'p', 't') || UnitOf2At(s, n, 'e', 'm') then 2
    else if RemAt(s, n) then 3
    else if n < |s| && s[n] == '%' then 1
    else 0
  }

  /** The test closing a unit that ends at `e`. */
  predicate UnitEnds(s: string, e: nat, rule: Rule)
  {
    match rule
    case AsWritten => BoundaryAt(s, e)
    case Corrected => !WordAt(s, e)
  }

  /** End of the number `\d+(?:\.\d+)?` at `i`. */
  function NumberEnd(s: string, i: nat): (n: nat)
    requires i <= |s|
    ensures i + DigitRun(s, i) <= n <= |s|
  {
    var d := DigitRun(s, i);
    if i + d < |s| && s[i + d] == '.' && DigitRun(s, i + d + 1) > 0 then
      i + d + 1 + DigitRun(s, i + d + 1)
    else i + d
  }

  /** End of a match of `\b\d+(?:\.\d+)?(?:px|pt|em|rem|%)\b` at `i`. */
  function SizeAt(s: string, i: nat, rule: Rule): (r: Option<nat>)
    ensures r.Some? ==> i < r.value <= |s|
    ensures r.Some? ==> IsAsciiDigit(s[i]) && !WordAt(s, i - 1)
  {
    if i < |s| && IsAsciiDigit(s[i]) && !WordAt(s, i - 1) then
      var n := NumberEnd(s, i);
      var u := UnitLen(s, n);
      if u > 0 && UnitEnds(s, n + u, rule) then Some(n + u) else None
    else None
  }

  /** The leftmost size token at or after `from`, as its start and end. */
  function FirstSize(s: string, from: nat, rule: Rule): (r: Option<(nat, nat)>)
    ensures r.Some? ==> from <= r.value.0 && SizeAt(s, r.value.0, rule) == Some(r.value.1)
    decreases |s| - from
  {
    if from >= |s| then None
    else match SizeAt(s, from, rule)
      case Some(e) => Some((from, e))
      case None => FirstSize(s, from + 1, rule)
  }

  /** The number alternative of the line height, trying the longest run of
      `[0-9.]` first and giving characters back until the match succeeds. */
  function NumberLineHeight(t: string, j: nat, r: nat, rule: Rule): (e: Option<nat>)
    requires j + r <= |t|
    ensures e.Some? ==> j < e.value <= |t|
    decreases r
  {
    if r == 0 then None
    else
      var n := j + r;
      var u := UnitLen(t, n);
      if u > 0 && UnitEnds(t, n + u, rule) then Some(n + u)
      else if BoundaryAt(t, n) then Some(n)
      else NumberLineHeight(t, j, r - 1, rule)
  }

  /** Length of the run of `\s` at `i`. */
  function SpacesFrom(s: string, i: nat): (n: nat)
    requires i <= |s|
    ensures i + n <= |s|
    ensures i + n < |s| ==> !IsSpace(s[i + n])
    decreases |s| - i
  {
    if i < |s| && IsSpace(s[i]) then 1 + SpacesFrom(s, i + 1) else 0
  }

  /** End of a match of `^\s*\/\s*(?:[0-9.]+(?:px|pt|em|rem|%)?|normal)\b`
      on the text after position `e`. The match is taken in place: its `\b`
      tests never fall on the first character after `e`, so they read the
      same characters as on the sliced text. */
  function LineHeightEnd(s: string, e: nat, rule: Rule): (r: Option<nat>)
    requires e <= |s|
    ensures r.Some? ==> e < r.value <= |s|
  {
    var a := e + SpacesFrom(s, e);
    if a < |s| && s[a] == '/' then
      var j := a + 1 + SpacesFrom(s, a + 1);
      var n := NumberRun(s, j);
      if n > 0 then NumberLineHeight(s, j, n, rule)
      else if IgnoreCaseAt(s, j, "normal") && BoundaryAt(s, j + 6) then Some(j + 6)
      else None
    else None
  }

  /** Where the family part of a shorthand starts: after the first size and
      the optional line height. */
  function FamilyStart(base: string, rule: Rule): (r: Option<nat>)
    ensures r.Some? ==> r.value <= |base|
  {
    match FirstSize(base, 0, rule)
    case None => None
    case Some(m) =>
      match LineHeightEnd(base, m.1, rule)
      case Some(l) => Some(l)
      case None => Some(m.1)
  }

  /** Where the family starts and the stack that replaces it, when the
      shorthand's family is replaced. */
  function ShorthandFamily(t: Tables, value: string, rule: Rule): (r: Option<(nat, string)>)
    ensures r.Some? ==> r.value.0 <= |Base(value)|
    ensures r.Some? ==> r.value.1 == t.sansStack || r.value.1 == t.monoStack
  {
    if Trim(value) == [] then None
    else
      var base := Base(value);
      match FamilyStart(base, rule)
      case None => None
      case Some(fs) =>
        var familyRaw := Trim(base[fs..]);
        if familyRaw == [] then None
        else match MaybeReplaceFontFamily(t, familyRaw)
          case None => None
          case Some(st) => Some((fs, st))
  }

  /** The text before the family without its trailing whitespace, one space,
      the stack and the `!important` suffix. */
  function Rebuild(value: string, fs: nat, st: string): (r: string)
    requires fs <= |Base(value)|
  {
    TrimEnd(value[..fs]) + " " + st + value[|Base(value)|..]
  }

  /** `maybeReplaceFontShorthand`: everything up to the size and line height
      is kept, the family is replaced and a trailing `!important` is kept. */
  function MaybeReplaceFontShorthand(t: Tables, value: string, rule: Rule): (r: Option<string>)
  {
    match ShorthandFamily(t, value, rule)
    case None => None
    case Some(m) => Some(Rebuild(value, m.0, m.1))
  }

  /** The first size is the leftmost one: none starts before it, and when
      there is none, none starts anywhere. */
  lemma {:induction false} FirstSizeLeftmost(s: string, from: nat, rule: Rule)
    ensures var r := FirstSize(s, from, rule);
      && (r.Some? ==> forall j :: from <= j < r.value.0 ==> SizeAt(s, j, rule).None?)
      && (r.None? ==> forall j :: from <= j ==> SizeAt(s, j, rule).None?)
    decreases |s| - from
  {
    if from >= |s| {
      forall j | from <= j ensures SizeAt(s, j, rule).None? {
        assert j >= |s|;
      }
    } else if SizeAt(s, from, rule).None? {
      FirstSizeLeftmost(s, from + 1, rule);
      assert FirstSize(s, from, rule) == FirstSize(s, from + 1, rule);
    }
  }

  /** Nothing is replaced without a size token. */
  lemma ShorthandNeedsSize(t: Tables, value: string, rule: Rule)
    requires MaybeReplaceFontShorthand(t, value, rule).Some?
    ensures exists i: nat :: i < |Base(value)| && SizeAt(Base(value), i, rule).Some?
  {
    var m := FirstSize(Base(value), 0, rule).value;
    assert SizeAt(Base(value), m.0, rule).Some?;
  }

  /** A replaced shorthand starts with the text before the family, up to
      its last non-blank character, and one space; it ends with a canonical
      stack and the value's `!important` suffix, which is empty when there
      is none. */
  lemma ShorthandKeepsEnds(t: Tables, value: string, rule: Rule)
    requires MaybeReplaceFontShorthand(t, value, rule).Some?
    ensures var r := MaybeReplaceFontShorthand(t, value, rule).value;
      var fs := FamilyStart(Base(value), rule).value;
      var suffix := value[|Base(value)|..];
      && StartsWith(r, TrimEnd(value[..fs]) + " ")
      && (EndsWith(r, t.sansStack + suffix) || EndsWith(r, t.monoStack + suffix))
      && (ImportantStart(value).None? ==> suffix == [])
  {
    var m := ShorthandFamily(t, value, rule).value;
    RebuildEnds(value, m.0, m.1);
  }

  lemma RebuildEnds(value: string, fs: nat, st: string)
    requires fs <= |Base(value)|
    ensures var r := Rebuild(value, fs, st);
      var suffix := value[|Base(value)|..];
      StartsWith(r, TrimEnd(value[..fs]) + " ") && EndsWith(r, st + suffix)
  {
    var r := Rebuild(value, fs, st);
    var head := TrimEnd(value[..fs]) + " ";
    var tail := st + value[|Base(value)|..];
    assert r == head + tail;
    assert r[..|head|] == head;
    assert r[|r| - |tail|..] == tail;
  }

  // ---------------------------------------------------------------------
  // Shorthands built from their parts

  predicate NoDigit(s: string)
  {
    forall i :: 0 <= i < |s| ==> !IsAsciiDigit(s[i])
  }

  predicate AllDigits(s: string)
  {
    s != [] && forall i :: 0 <= i < |s| ==> IsAsciiDigit(s[i])
  }

  /** One of the units `px`, `pt`, `em`, `rem` and `%`. */
  predicate IsUnit(u: string)
  {
    u == "px" || u == "pt" || u == "em" || u == "rem" || u == "%"
  }

  lemma DigitRunOf(s: string, i: nat, d: nat)
    requires i + d <= |s|
    requires forall k :: i <= k < i + d ==> IsAsciiDigit(s[k])
    requires i + d < |s| ==> !IsAsciiDigit(s[i + d])
    ensures DigitRun(s, i) == d
    decreases d
  {
    if d > 0 {
      DigitRunOf(s, i + 1, d - 1);
    }
  }

  lemma NumberRunOf(s: string, i: nat, d: nat)
    requires i + d <= |s|
    requires forall k :: i <= k < i + d ==> IsAsciiDigit(s[k])
    requires i + d < |s| ==> !IsAsciiDigit(s[i + d]) && s[i + d] != '.'
    ensures NumberRun(s, i) == d
    decreases d
  {
    if d > 0 {
      NumberRunOf(s, i + 1, d - 1);
    }
  }

  /** A unit written out at `n` is recognised with its length. */
  lemma UnitLenOf(s: string, n: nat, u: string)
    requires IsUnit(u) && n + |u| <= |s| && s[n..n + |u|] == u
    ensures UnitLen(s, n) == |u|
  {
    assert s[n] == u[0];
    if |u| >= 2 {
      assert s[n + 1] == u[1];
    }
    if |u| == 3 {
      assert s[n + 2] == u[2];
    }
  }

  /** No unit starts with whitespace. */
  lemma NoUnitAtSpace(s: string, n: nat)
    requires n < |s| && IsSpace(s[n])
    ensures UnitLen(s, n) == 0
  {
  }

  /** The search for the first size skips positions where none starts. */
  lemma {:induction false} FirstSizeSkip(s: string, from: nat, k: nat, rule: Rule)
    requires from <= k
    requires forall j :: from <= j < k ==> SizeAt(s, j, rule).None?
    ensures FirstSize(s, from, rule) == FirstSize(s, k, rule)
    decreases k - from
  {
    if from < k {
      FirstSizeSkip(s, from + 1, k, rule);
    }
  }

  /** A unit starts with neither a digit nor a dot. */
  lemma UnitStart(s: string, n: nat)
    requires UnitLen(s, n) > 0
    ensures n < |s| && !IsAsciiDigit(s[n]) && s[n] != '.'
  {
  }

  /** Text without digits, ending in a non-word character, followed by the
      digits from `i` to `n` and a unit of length `u` closed by the rule's
      test: the first size is that number and unit. */
  lemma SizeOfParts(s: string, i: nat, n: nat, u: nat, rule: Rule)
    requires i < n <= |s|
    requires forall j :: 0 <= j < i ==> !IsAsciiDigit(s[j])
    requires i == 0 || !IsWordChar(s[i - 1])
    requires forall k :: i <= k < n ==> IsAsciiDigit(s[k])
    requires UnitLen(s, n) == u && u > 0 && UnitEnds(s, n + u, rule)
    ensures FirstSize(s, 0, rule).Some? && FirstSize(s, 0, rule).value == (i, n + u)
  {
    forall j | 0 <= j < i ensures SizeAt(s, j, rule).None? {
    }
    FirstSizeSkip(s, 0, i, rule);
    SizeAtOf(s, i, n, u, rule);
  }

  /** The size that starts at `i` with the digits up to `n` and a unit. */
  lemma SizeAtOf(s: string, i: nat, n: nat, u: nat, rule: Rule)
    requires i < n <= |s|
    requires i == 0 || !IsWordChar(s[i - 1])
    requires forall k :: i <= k < n ==> IsAsciiDigit(s[k])
    requires UnitLen(s, n) == u && u > 0 && UnitEnds(s, n + u, rule)
    ensures SizeAt(s, i, rule) == Some(n + u)
  {
    UnitStart(s, n);
    var d: nat := n - i;
    DigitRunOf(s, i, d);
    assert NumberEnd(s, i) == n;
  }

  /** At `e`, a `/` followed by digits up to `n` and whitespace: the line
      height ends at `n`. */
  lemma LineHeightOfNumber(s: string, e: nat, n: nat, rule: Rule)
    requires e + 1 < n < |s| && s[e] == '/'
    requires forall k :: e + 1 <= k < n ==> IsAsciiDigit(s[k])
    requires IsSpace(s[n])
    ensures LineHeightEnd(s, e, rule).Some? && LineHeightEnd(s, e, rule).value == n
  {
    var j: nat := e + 1;
    var d: nat := n - j;
    assert SpacesFrom(s, e) == 0;
    assert SpacesFrom(s, j) == 0;
    NumberRunOf(s, j, d);
    NoUnitAtSpace(s, n);
    NumberLineHeightAt(s, j, d, rule);
    LineHeightAfterSlash(s, e, rule);
  }

  /** Right after a `/`, a number is the line height's number. */
  lemma LineHeightAfterSlash(s: string, e: nat, rule: Rule)
    requires e + 1 < |s| && s[e] == '/'
    requires SpacesFrom(s, e) == 0 && SpacesFrom(s, e + 1) == 0 && NumberRun(s, e + 1) > 0
    ensures LineHeightEnd(s, e, rule) == NumberLineHeight(s, e + 1, NumberRun(s, e + 1), rule)
  {
  }

  lemma NumberLineHeightAt(s: string, j: nat, r: nat, rule: Rule)
    requires 0 < r && j + r <= |s|
    requires UnitLen(s, j + r) == 0 && BoundaryAt(s, j + r)
    ensures NumberLineHeight(s, j, r, rule).Some? && NumberLineHeight(s, j, r, rule).value == j + r
  {
  }

  /** A `\s` run from `i` that stops at `k`. */
  lemma {:induction false} SpacesFromExact(s: string, i: nat, k: nat)
    requires i <= k <= |s|
    requires forall m :: i <= m < k ==> IsSpace(s[m])
    requires k < |s| ==> !IsSpace(s[k])
    ensures SpacesFrom(s, i) == k - i
    decreases k - i
  {
    if i < k {
      SpacesFromExact(s, i + 1, k);
    }
  }

  /** At `e`, whitespace and then neither whitespace nor `/`: no line
      height. */
  lemma NoLineHeight(s: string, e: nat, rule: Rule)
    requires e + 1 < |s| && IsSpace(s[e]) && !IsSpace(s[e + 1]) && s[e + 1] != '/'
    ensures LineHeightEnd(s, e, rule).None?
  {
    SpacesFromExact(s, e, e + 1);
  }

  /** The last character of a unit is not whitespace. */
  lemma UnitLastNotSpace(s: string, n: nat)
    requires UnitLen(s, n) > 0
    ensures !IsSpace(s[n + UnitLen(s, n) - 1])
  {
  }

  /** The unit at `n` depends only on the characters it covers. */
  lemma UnitLenSame(a: string, b: string, n: nat)
    requires UnitLen(a, n) > 0 && n + UnitLen(a, n) <= |b|
    requires a[n..n + UnitLen(a, n)] == b[n..n + UnitLen(a, n)]
    ensures UnitLen(b, n) == UnitLen(a, n)
  {
    var u := UnitLen(a, n);
    assert a[n] == a[n..n + u][0] && b[n] == b[n..n + u][0];
    if u >= 2 {
      assert a[n + 1] == a[n..n + u][1] && b[n + 1] == b[n..n + u][1];
    }
    if u == 3 {
      assert a[n + 2] == a[n..n + u][2] && b[n + 2] == b[n..n + u][2];
    }
  }

  /** The line height, if any, from `e` to `f`: whitespace and then the
      family when there is none (`f == e`), or `/`, digits and whitespace. */
  predicate LineHeightShape(s: string, e: nat, f: nat)
  {
    || (f == e && e + 1 < |s| && IsSpace(s[e]) && !IsSpace(s[e + 1]) && s[e + 1] != '/')
    || (e + 1 < f && f + 1 < |s| && s[e] == '/' && (forall k :: e + 1 <= k < f ==> IsAsciiDigit(s[k]))
        && IsSpace(s[f]))
  }

  lemma LineHeightOfShape(s: string, e: nat, f: nat, rule: Rule)
    requires LineHeightShape(s, e, f)
    ensures e <= f < |s|
    ensures f == e ==> LineHeightEnd(s, e, rule).None?
    ensures f != e ==> LineHeightEnd(s, e, rule).Some? && LineHeightEnd(s, e, rule).value == f
  {
    if f == e {
      NoLineHeight(s, e, rule);
    } else {
      LineHeightOfNumber(s, e, f, rule);
    }
  }

  /** A shorthand laid out by positions: no digit before `i`, which follows
      a non-word character; digits from `i` up to `n`; a unit of length `u`
      closed by the rule's test; then the line height, if any, up to `f`,
      whitespace at `f` and the family after it. */
  predicate ShorthandShape(core: string, i: nat, n: nat, u: nat, f: nat, rule: Rule)
  {
    && i < n && n + u <= |core|
    && (forall j :: 0 <= j < i ==> !IsAsciiDigit(core[j]))
    && (i == 0 || !IsWordChar(core[i - 1]))
    && (forall k :: i <= k < n ==> IsAsciiDigit(core[k]))
    && UnitLen(core, n) == u && u > 0 && UnitEnds(core, n + u, rule)
    && LineHeightShape(core, n + u, f)
  }

  /** Where the family starts in a shorthand so laid out. */
  lemma FamilyStartOfShape(core: string, i: nat, n: nat, u: nat, f: nat, rule: Rule)
    requires ShorthandShape(core, i, n, u, f, rule)
    ensures FamilyStart(core, rule).Some? && FamilyStart(core, rule).value == f
  {
    var e := n + u;
    SizeOfParts(core, i, n, u, rule);
    var m := FirstSize(core, 0, rule);
    assert m.Some? && m.value.1 == e;
    LineHeightOfShape(core, e, f, rule);
  }

  /** The layout survives any change after the line height that keeps
      whitespace at `f` followed by neither whitespace nor `/`. */
  lemma ShapeTransfer(a: string, b: string, i: nat, n: nat, u: nat, f: nat, rule: Rule)
    requires ShorthandShape(a, i, n, u, f, rule)
    requires f + 1 < |b| && a[..f] == b[..f]
    requires IsSpace(b[f]) && !IsSpace(b[f + 1]) && b[f + 1] != '/'
    ensures ShorthandShape(b, i, n, u, f, rule)
  {
    var e := n + u;
    assert e <= f < |a|;
    PrefixAgrees(a, b, f);
    assert a[n..e] == b[n..e];
    UnitLenSame(a, b, n);
    assert WordAt(b, e) == WordAt(a, e) by {
      if e == f {
        assert IsSpace(a[e]);
      }
    }
    assert WordAt(b, e - 1) == WordAt(a, e - 1);
  }

  lemma PrefixAgrees(a: string, b: string, f: nat)
    requires f <= |a| && f <= |b| && a[..f] == b[..f]
    ensures forall j :: 0 <= j < f ==> b[j] == a[j]
    ensures forall j, k :: 0 <= j <= k <= f ==> b[j..k] == a[j..k]
  {
    forall j | 0 <= j < f ensures b[j] == a[j] {
      assert b[j] == b[..f][j] && a[j] == a[..f][j];
    }
    forall j, k | 0 <= j <= k <= f ensures b[j..k] == a[j..k] {
      assert b[j..k] == b[..f][j..k] && a[j..k] == a[..f][j..k];
    }
  }

  /** The characters around the family start of a shorthand so laid out. */
  lemma ShapeEnds(core: string, i: nat, n: nat, u: nat, f: nat, rule: Rule)
    requires ShorthandShape(core, i, n, u, f, rule)
    ensures i < f + 1 < |core| && IsAsciiDigit(core[i])
    ensures IsSpace(core[f]) && !IsSpace(core[f - 1])
  {
    LineHeightOfShape(core, n + u, f, rule);
    if f == n + u {
      UnitLastNotSpace(core, n);
    }
  }

  /** Whitespace before the family is trimmed away with it. */
  lemma FamilyRawOf(base: string, f: nat)
    requires f < |base| && IsSpace(base[f])
    ensures Trim(base[f..]) == Trim(base[f + 1..])
  {
    var x := base[f..];
    TrimAfterSpacePrefix(x, 1);
    assert x[1..] == base[f + 1..];
  }

  /** The text before the family, ending in a non-blank character, is its
      own `trimEnd`. */
  lemma PrefixKept(value: string, base: string, f: nat)
    requires 0 < f <= |base| <= |value| && base == value[..|base|] && !IsSpace(base[f - 1])
    ensures TrimEnd(value[..f]) == value[..f]
  {
    assert value[..f][f - 1] == base[f - 1];
  }

  /** A value that holds a digit is not blank. */
  lemma DigitNotBlank(value: string, k: nat)
    requires k < |value| && IsAsciiDigit(value[k])
    ensures Trim(value) != []
  {
    TrimEmpty(value);
  }

  /** Trimming does not change a family value's normal form, so neither
      does it change its replacement. */
  lemma FamilyOfTrim(t: Tables, value: string)
    ensures MaybeReplaceFontFamily(t, Trim(value)) == MaybeReplaceFontFamily(t, value)
  {
    TrimIdempotent(value);
  }

  /** In a shorthand laid out by positions the family starts at `f` and is
      what follows the whitespace there. */
  lemma ShorthandFamilyOfShape(t: Tables, value: string, i: nat, n: nat, u: nat, f: nat, rule: Rule)
    requires ShorthandShape(Base(value), i, n, u, f, rule)
    ensures f + 1 < |Base(value)|
    ensures var st := MaybeReplaceFontFamily(t, Base(value)[f + 1..]);
      ShorthandFamily(t, value, rule) == if st.Some? then Some((f, st.value)) else None
  {
    var base := Base(value);
    ShapeEnds(base, i, n, u, f, rule);
    assert value[i] == base[i];
    DigitNotBlank(value, i);
    FamilyStartOfShape(base, i, n, u, f, rule);
    FamilyRawOf(base, f);
    FamilyOfTrim(t, base[f + 1..]);
  }

  /** A shorthand laid out by positions keeps everything up to the size and
      the line height, gets one space and the replacement of the family
      written after it, and keeps its `!important` suffix; it is left alone
      when its family is not replaced. */
  lemma ShorthandOfShape(t: Tables, value: string, i: nat, n: nat, u: nat, f: nat, rule: Rule)
    requires ShorthandShape(Base(value), i, n, u, f, rule)
    ensures f + 1 < |Base(value)|
    ensures var base := Base(value);
      var st := MaybeReplaceFontFamily(t, base[f + 1..]);
      MaybeReplaceFontShorthand(t, value, rule) ==
        if st.Some? then Some(value[..f] + " " + st.value + value[|base|..]) else None
  {
    ShorthandFamilyOfShape(t, value, i, n, u, f, rule);
    ShapeEnds(Base(value), i, n, u, f, rule);
    PrefixKept(value, Base(value), f);
  }

  // ---------------------------------------------------------------------
  // A replaced shorthand is replaced no further

  /** A canonical stack as the rewriter writes it: at least ten characters,
      starting with neither whitespace nor `/`, ending in a non-blank
      character, and free of `!`, quotes and the characters that end a
      declaration or a block. */
  predicate PlainStack(st: string)
  {
    && |st| >= 10 && !IsSpace(st[0]) && st[0] != '/' && !IsSpace(st[|st| - 1])
    && PlainChars(st)
  }

  /** A character the rewriter may write inside a declaration or a
      double-quoted attribute. */
  predicate PlainChar(c: char)
  {
    c != '!' && c != '"' && c != ';' && c != '{' && c != '}'
  }

  predicate PlainChars(s: string)
  {
    forall k :: 0 <= k < |s| ==> PlainChar(s[k])
  }

  lemma PlainCharsAppend(a: string, b: string)
    requires PlainChars(a) && PlainChars(b)
    ensures PlainChars(a + b)
  {
    forall k | 0 <= k < |a + b| ensures PlainChar((a + b)[k]) {
      if k >= |a| {
        assert (a + b)[k] == b[k - |a|];
      }
    }
  }

  /** The trailing whitespace of a text is that of any suffix holding a
      non-blank character. */
  lemma {:induction false} TrailingRunSuffix(x: string, w: string, m: nat)
    requires m < |w| && !IsSpace(w[m])
    ensures TrailingSpaceRun(x + w) == TrailingSpaceRun(w)
    decreases |w|
  {
    var s := x + w;
    assert s[|s| - 1] == w[|w| - 1];
    if IsSpace(w[|w| - 1]) {
      var v := w[..|w| - 1];
      assert s[..|s| - 1] == x + v;
      assert v[m] == w[m];
      TrailingRunSuffix(x, v, m);
    }
  }

  /** A pattern matches at the same place of a suffix and of the whole. */
  lemma IgnoreCaseShift(x: string, w: string, m: nat, pat: string)
    requires m + |pat| <= |w|
    ensures IgnoreCaseAt(x + w, |x| + m, pat) == IgnoreCaseAt(w, m, pat)
  {
    forall j | m <= j < m + |pat| ensures (x + w)[|x| + j] == w[j] {
    }
  }

  /** A trailing whitespace run covering `w` makes `w` all whitespace. */
  lemma TrailingRunSpaces(q: string, w: string)
    requires TrailingSpaceRun(q + w) >= |w|
    ensures AllSpace(w)
  {
    forall j | 0 <= j < |w| ensures IsSpace(w[j]) {
      assert w[j] == (q + w)[|q| + j];
    }
  }

  /** Where `!important` sits in a suffix that follows a value's text. */
  lemma ImportantInSuffix(q: string, sfx: string) returns (m: nat)
    requires ImportantStart(q + sfx) == Some(|q|)
    ensures m + 10 <= |sfx| && !IsSpace(sfx[m])
    ensures IgnoreCaseAt(sfx, m, "!important")
    ensures TrailingSpaceRun(sfx) == |sfx| - m - 10
    ensures AllSpace(sfx[..m])
  {
    var a := q + sfx;
    var ka := |a| - TrailingSpaceRun(a);
    assert ka >= 10 && IgnoreCaseAt(a, ka - 10, "!important");
    m := ka - 10 - |q|;
    assert SameIgnoringCase(a[ka - 10 + 0], "!important"[0]);
    assert sfx[m] == a[ka - 10];
    TrailingRunSuffix(q, sfx, m);
    IgnoreCaseShift(q, sfx, m, "!important");
    var w := sfx[..m];
    assert a[..ka - 10] == q + w;
    TrailingRunSpaces(q, w);
  }

  lemma ImportantFromSuffix(p: string, sfx: string, m: nat)
    requires p == [] || !IsSpace(p[|p| - 1])
    requires m + 10 <= |sfx| && !IsSpace(sfx[m])
    requires IgnoreCaseAt(sfx, m, "!important")
    requires TrailingSpaceRun(sfx) == |sfx| - m - 10
    requires AllSpace(sfx[..m])
    ensures ImportantStart(p + sfx).Some? && ImportantStart(p + sfx).value == |p|
  {
    var b := p + sfx;
    TrailingRunSuffix(p, sfx, m);
    var kb := |b| - TrailingSpaceRun(b);
    assert kb - 10 == |p| + m;
    IgnoreCaseShift(p, sfx, m, "!important");
    var w := sfx[..m];
    assert b[..kb - 10] == p + w;
    TrailingRunAppend(p, w);
    ImportantAt(b, kb);
  }

  lemma ImportantShift(q: string, p: string, sfx: string)
    requires ImportantStart(q + sfx) == Some(|q|)
    requires p == [] || !IsSpace(p[|p| - 1])
    ensures ImportantStart(p + sfx) == Some(|p|)
  {
    var m := ImportantInSuffix(q, sfx);
    ImportantFromSuffix(p, sfx, m);
  }


  /** A text ending with a plain stack carries no `!important`. */
  lemma NoImportantAfterStack(x: string, st: string)
    requires PlainStack(st)
    ensures ImportantStart(x + st) == None
  {
    var s := x + st;
    assert s[|s| - 1] == st[|st| - 1];
    var k := |s| - TrailingSpaceRun(s);
    assert k == |s|;
    assert s[k - 10 + 0] == st[|st| - 10];
    assert !SameIgnoringCase(s[k - 10 + 0], "!important"[0]);
  }

  /** The value before the suffix of a rebuilt shorthand is the text before
      the family, one space and the stack. */
  lemma RebuiltBase(value: string, pre: string, st: string)
    requires PlainStack(st)
    ensures Base(pre + " " + st + value[|Base(value)|..]) == pre + " " + st
  {
    var head := pre + " " + st;
    assert head[|head| - 1] == st[|st| - 1];
    match ImportantStart(value)
    case None =>
      assert head + value[|Base(value)|..] == head;
      NoImportantAfterStack(pre + " ", st);
      assert pre + " " + st == (pre + " ") + st;
    case Some(b) =>
      assert value[..b] + value[b..] == value;
      ImportantShift(value[..b], head, value[b..]);
  }

  /** A shorthand laid out by positions, rebuilt around a plain stack,
      keeps its layout, and its family is the stack. */
  lemma RebuiltShape(value: string, st: string, i: nat, n: nat, u: nat, f: nat, rule: Rule)
    requires ShorthandShape(Base(value), i, n, u, f, rule) && PlainStack(st)
    ensures f < |value|
    ensures var br := value[..f] + " " + st;
      && Base(br + value[|Base(value)|..]) == br
      && ShorthandShape(br, i, n, u, f, rule)
      && br[f + 1..] == st
  {
    ShapeEnds(Base(value), i, n, u, f, rule);
    RebuiltBase(value, value[..f], st);
    RebuiltKeepsShape(value, Base(value), st, i, n, u, f, rule);
  }

  lemma RebuiltKeepsShape(value: string, base: string, st: string, i: nat, n: nat, u: nat, f: nat, rule: Rule)
    requires base == Base(value) && ShorthandShape(base, i, n, u, f, rule) && PlainStack(st)
    requires f < |base|
    ensures ShorthandShape(value[..f] + " " + st, i, n, u, f, rule)
  {
    var br := value[..f] + " " + st;
    assert br[..f] == value[..f] == base[..f];
    assert br[f] == ' ' && br[f + 1] == st[0];
    ShapeTransfer(base, br, i, n, u, f, rule);
  }

  /** Once a shorthand laid out by positions has had its family replaced by
      a plain stack, a second pass leaves it alone. */
  lemma ShorthandFixpoint(t: Tables, value: string, i: nat, n: nat, u: nat, f: nat, rule: Rule)
    requires ShorthandShape(Base(value), i, n, u, f, rule)
    requires PlainStack(t.sansStack) && PlainStack(t.monoStack)
    requires MaybeReplaceFontShorthand(t, value, rule).Some?
    ensures MaybeReplaceFontShorthand(t, MaybeReplaceFontShorthand(t, value, rule).value, rule) == None
  {
    ShorthandOfShape(t, value, i, n, u, f, rule);
    var st := MaybeReplaceFontFamily(t, Base(value)[f + 1..]).value;
    RebuiltShape(value, st, i, n, u, f, rule);
    var br := value[..f] + " " + st;
    assert Base(br + value[|Base(value)|..]) == br;
    ShorthandOfShape(t, br + value[|Base(value)|..], i, n, u, f, rule);
    FamilyFixpoint(t, Base(value)[f + 1..]);
  }

  // ---------------------------------------------------------------------
  // Percentage sizes

  /** Digits from `i` up to `n` followed by `%` and a character that is not
      a word character, or by the end: as written the size pattern never
      matches there, since its closing `\b` finds non-word characters on
      both sides; the corrected reading takes the percentage. */
  lemma PercentSize(s: string, i: nat, n: nat)
    requires i < n < |s| && s[n] == '%'
    requires i == 0 || !IsWordChar(s[i - 1])
    requires forall k :: i <= k < n ==> IsAsciiDigit(s[k])
    requires n + 1 < |s| ==> !IsWordChar(s[n + 1])
    ensures SizeAt(s, i, AsWritten).None?
    ensures SizeAt(s, i, Corrected) == Some(n + 1)
  {
    var d: nat := n - i;
    DigitRunOf(s, i, d);
    assert NumberEnd(s, i) == n;
    assert UnitLen(s, n) == 1;
  }

  /** As written, a shorthand whose only digits are those of a percentage
      size followed by a non-word character is never rewritten. */
  lemma PercentShorthandAsWritten(t: Tables, value: string, i: nat, n: nat)
    requires var base := Base(value);
      && i < n < |base| && base[n] == '%'
      && (i == 0 || !IsWordChar(base[i - 1]))
      && (forall k :: i <= k < n ==> IsAsciiDigit(base[k]))
      && (forall k :: 0 <= k < |base| && !(i <= k < n) ==> !IsAsciiDigit(base[k]))
      && (n + 1 < |base| ==> !IsWordChar(base[n + 1]))
    ensures MaybeReplaceFontShorthand(t, value, AsWritten) == None
  {
    var base := Base(value);
    PercentSize(base, i, n);
    forall j | 0 <= j < |base| ensures SizeAt(base, j, AsWritten).None? {
      if i < j < n {
        assert WordAt(base, j - 1);
      }
    }
    FirstSizeSkip(base, 0, |base|, AsWritten);
  }

  lemma SansPiece0Plain()
    ensures PlainChars(SansStackPieces[0])
  {
  }

  lemma SansPiece1Plain()
    ensures PlainChars(SansStackPieces[1])
  {
  }

  lemma SansPiece2Plain()
    ensures PlainChars(SansStackPieces[2])
  {
  }

  lemma SansPiece3Plain()
    ensures PlainChars(SansStackPieces[3])
  {
  }

  lemma SansPiece4Plain()
    ensures PlainChars(SansStackPieces[4])
  {
  }

  lemma MonoPiece0Plain()
    ensures PlainChars(MonoStackPieces[0])
  {
  }

  lemma MonoPiece1Plain()
    ensures PlainChars(MonoStackPieces[1])
  {
  }

  lemma SansStackPlain()
    ensures PlainStack(SansStack)
  {
    var p := SansStackPieces;
    SansPiece0Plain();
    SansPiece1Plain();
    SansPiece2Plain();
    SansPiece3Plain();
    SansPiece4Plain();
    PlainCharsAppend(p[0], p[1]);
    PlainCharsAppend(p[0] + p[1], p[2]);
    PlainCharsAppend(p[0] + p[1] + p[2], p[3]);
    PlainCharsAppend(p[0] + p[1] + p[2] + p[3], p[4]);
    assert SansStack[0] == p[0][0] && SansStack[|SansStack| - 1] == p[4][|p[4]| - 1];
  }

  lemma MonoStackPlain()
    ensures PlainStack(MonoStack)
  {
    var q := MonoStackPieces;
    MonoPiece0Plain();
    MonoPiece1Plain();
    PlainCharsAppend(q[0], q[1]);
    assert MonoStack[0] == q[0][0] && MonoStack[|MonoStack| - 1] == q[1][|q[1]| - 1];
  }

  /** The script's two stacks are plain. */
  lemma ScriptStacksPlain()
    ensures PlainStack(Script.sansStack) && PlainStack(Script.monoStack)
  {
    SansStackPlain();
    MonoStackPlain();
  }
}
