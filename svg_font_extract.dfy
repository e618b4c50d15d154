/** The `font-family` extraction of the SVG font inventory: the two global
    regular expressions of `extractFontFamilies`, each as a matcher tried at
    one position, the leftmost search of `RegExp.prototype.exec`, and the
    loops that collect the captures. */
module SvgFontExtract {
  import opened Wrappers
  import opened Text
  import opened SvgFontNormalize
  import opened SvgFontRewrite
  import opened FontValues

  // ---------------------------------------------------------------------
  // `font-family\s*:\s*([^;}{\n]+)\s*;` with the `g` and `i` flags

  /** A character of `[^;}{\n]`. */
  predicate CssChar(c: char)
  {
    c != ';' && c != '{' && c != '}' && c != '\n'
  }

  /** The number of `[^;}{\n]` characters from `i` on. */
  function CssRun(s: string, i: nat): (n: nat)
    requires i <= |s|
    ensures i + n <= |s|
    ensures i + n < |s| ==> !CssChar(s[i + n])
    decreases |s| - i
  {
    if i < |s| && CssChar(s[i]) then 1 + CssRun(s, i + 1) else 0
  }

  /** Where the run of `[^;}{\n]` from `i` ends. */
  function CssEnd(s: string, i: nat): (j: nat)
    requires i <= |s|
    ensures i <= j <= |s| && (j < |s| ==> !CssChar(s[j]))
  {
    i + CssRun(s, i)
  }

  /** Where the `\s*` run from `i` ends. */
  function SkipSpaces(s: string, i: nat): (j: nat)
    requires i <= |s|
    ensures i <= j <= |s| && (j < |s| ==> !IsSpace(s[j]))
  {
    i + SpacesFrom(s, i)
  }

  /** The last position of `[lo, hi)` that does not hold a line feed. */
  function LastNonNewline(s: string, lo: nat, hi: nat): (r: Option<nat>)
    requires lo <= hi <= |s|
    ensures r.Some? ==> lo <= r.value < hi && s[r.value] != '\n'
    ensures r.Some? ==> forall m :: r.value < m < hi ==> s[m] == '\n'
    ensures r.None? ==> forall m :: lo <= m < hi ==> s[m] == '\n'
    decreases hi - lo
  {
    if hi == lo then None
    else if s[hi - 1] != '\n' then Some(hi - 1)
    else LastNonNewline(s, lo, hi - 1)
  }

  /** The CSS expression tried at `q`. */
  function CssAt(s: string, q: nat, name: string): (r: Option<Hit>)
    requires q <= |s|
    ensures r.Some? ==> q + |name| < r.value.valueStart < r.value.valueEnd < r.value.end <= |s|
  {
    if IgnoreCaseAt(s, q, name) then CssAfterName(s, q + |name|) else None
  }

  /** From the end of the name: `\s*:`, then the value. */
  function CssAfterName(s: string, i: nat): (r: Option<Hit>)
    requires i <= |s|
    ensures r.Some? ==> i < r.value.valueStart < r.value.valueEnd < r.value.end <= |s|
  {
    var a := SkipSpaces(s, i);
    if a < |s| && s[a] == ':' then CssValue(s, a + 1) else None
  }

  /** From just past the colon. The greedy `\s*` stops at the first other
      character `b`; from there the capture is the longest run of
      `[^;}{\n]` (trailing blanks included), and the match needs whitespace
      and a `;` after it. When the colon's whitespace is followed by `;`
      directly, backtracking gives the capture the last whitespace character
      of that run that is not a line feed. */
  function CssValue(s: string, c: nat): (r: Option<Hit>)
    requires c <= |s|
    ensures r.Some? ==> c <= r.value.valueStart < r.value.valueEnd < r.value.end <= |s|
  {
    var b := SkipSpaces(s, c);
    if b < |s| && CssChar(s[b]) then CssTail(s, b, CssEnd(s, b))
    else if b < |s| && s[b] == ';' then CssBlank(s, c, b)
    else None
  }

  /** The capture backtracking leaves when `;` follows the colon's
      whitespace `[c, b)` directly. */
  function CssBlank(s: string, c: nat, b: nat): (r: Option<Hit>)
    requires c <= b < |s|
    ensures r.Some? ==> c <= r.value.valueStart < r.value.valueEnd == r.value.valueStart + 1 <= b < r.value.end == b + 1
  {
    match LastNonNewline(s, c, b)
    case Some(p) => Some(Hit(p, p + 1, b + 1))
    case None => None
  }

  /** After the capture `[b, e)`: `\s*;`. */
  function CssTail(s: string, b: nat, e: nat): (r: Option<Hit>)
    requires b < e <= |s|
    ensures r.Some? ==> r.value.valueStart == b && r.value.valueEnd == e < r.value.end <= |s|
  {
    var x := SkipSpaces(s, e);
    if x < |s| && s[x] == ';' then Some(Hit(b, e, x + 1)) else None
  }

  // ---------------------------------------------------------------------
  // `font-family\s*=\s*["']([^"']+)["']` with the `g` and `i` flags

  predicate IsQuote(c: char)
  {
    c == '"' || c == '\''
  }

  /** The number of `[^"']` characters from `i` on. */
  function QuoteFreeRun(s: string, i: nat): (n: nat)
    requires i <= |s|
    ensures i + n <= |s|
    ensures i + n < |s| ==> IsQuote(s[i + n])
    decreases |s| - i
  {
    if i < |s| && !IsQuote(s[i]) then 1 + QuoteFreeRun(s, i + 1) else 0
  }

  /** Where the run without quotes from `i` ends. */
  function QuoteFreeEnd(s: string, i: nat): (j: nat)
    requires i <= |s|
    ensures i <= j <= |s| && (j < |s| ==> IsQuote(s[j]))
  {
    i + QuoteFreeRun(s, i)
  }

  /** The attribute expression tried at `q`. */
  function AttrAt(s: string, q: nat, name: string): (r: Option<Hit>)
    requires q <= |s|
    ensures r.Some? ==> q + |name| < r.value.valueStart < r.value.valueEnd < r.value.end <= |s|
  {
    if IgnoreCaseAt(s, q, name) then AttrAfterName(s, q + |name|) else None
  }

  /** From the end of the name: `\s*=`, then the quoted value. */
  function AttrAfterName(s: string, i: nat): (r: Option<Hit>)
    requires i <= |s|
    ensures r.Some? ==> i < r.value.valueStart < r.value.valueEnd < r.value.end <= |s|
  {
    var a := SkipSpaces(s, i);
    if a < |s| && s[a] == '=' then AttrValue(s, a + 1) else None
  }

  /** From just past `=`: whitespace, a quote, a non-empty run without
      quotes, and a quote of either kind. */
  function AttrValue(s: string, c: nat): (r: Option<Hit>)
    requires c <= |s|
    ensures r.Some? ==> c < r.value.valueStart < r.value.valueEnd < r.value.end <= |s|
  {
    var b := SkipSpaces(s, c);
    if b == |s| || !IsQuote(s[b]) then None
    else
      var e := QuoteFreeEnd(s, b + 1);
      if e == |s| || e == b + 1 then None else Some(Hit(b + 1, e, e + 1))
  }

  // ---------------------------------------------------------------------
  // The `exec` loop

  /** A match `m` tried at `q` that lies inside `s`. */
  predicate Fits(s: string, q: nat, m: Option<Hit>)
  {
    m.Some? && q < m.value.end <= |s| && m.value.valueStart <= m.value.valueEnd <= m.value.end
  }

  /** Where `exec` with `lastIndex == p` finds its match: the leftmost
      position from `p` on at which the expression matches. */
  function FirstMatch(s: string, p: nat, find: nat -> Option<Hit>): (r: Option<nat>)
    requires p <= |s|
    ensures r.Some? ==> p <= r.value < |s| && Fits(s, r.value, find(r.value))
    ensures forall j :: p <= j < |s| && Fits(s, j, find(j)) ==> r.Some? && r.value <= j
    decreases |s| - p
  {
    if p == |s| then None
    else if Fits(s, p, find(p)) then Some(p)
    else FirstMatch(s, p + 1, find)
  }

  /** The captures a global `exec` loop started at `p` collects, in text
      order; each search resumes where the previous match ended. */
  function Captures(s: string, p: nat, find: nat -> Option<Hit>): seq<string>
    requires p <= |s|
    decreases |s| - p
  {
    match FirstMatch(s, p, find)
    case None => []
    case Some(q) =>
      var h := find(q).value;
      [s[h.valueStart..h.valueEnd]] + Captures(s, h.end, find)
  }

  function CssFinder(s: string): nat -> Option<Hit>
  {
    (q: nat) => if q <= |s| then CssAt(s, q, "font-family") else None
  }

  function AttrFinder(s: string): nat -> Option<Hit>
  {
    (q: nat) => if q <= |s| then AttrAt(s, q, "font-family") else None
  }

  /** What `extractFontFamilies` returns: every CSS capture, then every
      attribute capture. */
  function Extracted(svg: string): seq<string>
  {
    Captures(svg, 0, CssFinder(svg)) + Captures(svg, 0, AttrFinder(svg))
  }

  /** One `exec` call: the leftmost match from `p`. */
  method Exec(s: string, p: nat, find: nat -> Option<Hit>) returns (m: Option<nat>)
    requires p <= |s|
    ensures m == FirstMatch(s, p, find)
  {
    var q := p;
    while q < |s|
      invariant p <= q <= |s|
      invariant FirstMatch(s, p, find) == FirstMatch(s, q, find)
      decreases |s| - q
    {
      if Fits(s, q, find(q)) {
        return Some(q);
      }
      q := q + 1;
    }
    return None;
  }

  /** `while ((m = re.exec(svgText)) !== null) results.push(m[1])`. */
  method Collect(s: string, find: nat -> Option<Hit>, acc: seq<string>) returns (results: seq<string>)
    ensures results == acc + Captures(s, 0, find)
  {
    results := acc;
    var p := 0;
    while true
      invariant p <= |s|
      invariant acc + Captures(s, 0, find) == results + Captures(s, p, find)
      decreases |s| - p
    {
      var m := Exec(s, p, find);
      if m.None? {
        break;
      }
      var h := find(m.value).value;
      results := results + [s[h.valueStart..h.valueEnd]];
      p := h.end;
    }
  }

  /** `extractFontFamilies`. */
  method ExtractFontFamilies(svg: string) returns (results: seq<string>)
    ensures results == Extracted(svg)
  {
    results := Collect(svg, CssFinder(svg), []);
    results := Collect(svg, AttrFinder(svg), results);
  }

  // ---------------------------------------------------------------------
  // What the matchers accept

  /** `[i, k)` of `s` is all whitespace. */
  predicate Blank(s: string, i: nat, k: nat)
    requires i <= k <= |s|
    decreases k - i
  {
    i == k || (IsSpace(s[i]) && Blank(s, i + 1, k))
  }

  /** `[i, k)` of `s` is all `[^;}{\n]`. */
  predicate CssSpan(s: string, i: nat, k: nat)
    requires i <= k <= |s|
    decreases k - i
  {
    i == k || (CssChar(s[i]) && CssSpan(s, i + 1, k))
  }

  /** `[i, k)` of `s` holds no quote. */
  predicate QuoteFree(s: string, i: nat, k: nat)
    requires i <= k <= |s|
    decreases k - i
  {
    i == k || (!IsQuote(s[i]) && QuoteFree(s, i + 1, k))
  }

  lemma {:induction false} BlankAt(s: string, i: nat, k: nat, m: nat)
    requires i <= m < k <= |s| && Blank(s, i, k)
    ensures IsSpace(s[m])
    decreases m - i
  {
    if i < m {
      BlankAt(s, i + 1, k, m);
    }
  }

  lemma {:induction false} CssSpanAt(s: string, i: nat, k: nat, m: nat)
    requires i <= m < k <= |s| && CssSpan(s, i, k)
    ensures CssChar(s[m])
    decreases m - i
  {
    if i < m {
      CssSpanAt(s, i + 1, k, m);
    }
  }

  lemma {:induction false} QuoteFreeAt(s: string, i: nat, k: nat, m: nat)
    requires i <= m < k <= |s| && QuoteFree(s, i, k)
    ensures !IsQuote(s[m])
    decreases m - i
  {
    if i < m {
      QuoteFreeAt(s, i + 1, k, m);
    }
  }

  /** `\s*` run over a blank stretch stops at its end. */
  lemma {:induction false} BlankRun(s: string, i: nat, k: nat)
    requires i <= k <= |s| && Blank(s, i, k) && (k < |s| ==> !IsSpace(s[k]))
    ensures SkipSpaces(s, i) == k
    decreases k - i
  {
    if i < k {
      BlankRun(s, i + 1, k);
    }
  }

  lemma {:induction false} RunBlank(s: string, i: nat)
    requires i <= |s|
    ensures Blank(s, i, SkipSpaces(s, i))
    decreases |s| - i
  {
    if i < |s| && IsSpace(s[i]) {
      RunBlank(s, i + 1);
    }
  }

  lemma {:induction false} CssSpanRun(s: string, i: nat, k: nat)
    requires i <= k < |s| && CssSpan(s, i, k) && !CssChar(s[k])
    ensures CssEnd(s, i) == k
    decreases k - i
  {
    if i < k {
      CssSpanRun(s, i + 1, k);
    }
  }

  lemma {:induction false} RunCssSpan(s: string, i: nat)
    requires i <= |s|
    ensures CssSpan(s, i, CssEnd(s, i))
    decreases |s| - i
  {
    if i < |s| && CssChar(s[i]) {
      RunCssSpan(s, i + 1);
    }
  }

  lemma {:induction false} QuoteFreeRunExact(s: string, i: nat, k: nat)
    requires i <= k < |s| && QuoteFree(s, i, k) && IsQuote(s[k])
    ensures QuoteFreeEnd(s, i) == k
    decreases k - i
  {
    if i < k {
      QuoteFreeRunExact(s, i + 1, k);
    }
  }

  lemma {:induction false} RunQuoteFree(s: string, i: nat)
    requires i <= |s|
    ensures QuoteFree(s, i, QuoteFreeEnd(s, i))
    decreases |s| - i
  {
    if i < |s| && !IsQuote(s[i]) {
      RunQuoteFree(s, i + 1);
    }
  }

  /** A CSS declaration whose capture starts with a non-blank character:
      the name at `q`, whitespace, the colon at `k`, whitespace, the value
      `[b, e)`, whitespace and the semicolon at `x`. */
  predicate CssShape(s: string, q: nat, name: string, k: nat, b: nat, e: nat, x: nat)
  {
    && IgnoreCaseAt(s, q, name) && q + |name| <= k < b < e <= x < |s|
    && Blank(s, q + |name|, k) && s[k] == ':'
    && Blank(s, k + 1, b) && !IsSpace(s[b])
    && CssSpan(s, b, e) && !CssChar(s[e])
    && Blank(s, e, x) && s[x] == ';'
  }

  /** Every declaration of that shape is matched, with exactly its value
      captured. */
  lemma CssShapeMatch(s: string, q: nat, name: string, k: nat, b: nat, e: nat, x: nat)
    requires CssShape(s, q, name, k, b, e, x)
    ensures CssAt(s, q, name) == Some(Hit(b, e, x + 1))
  {
    BlankRun(s, q + |name|, k);
    assert CssAfterName(s, q + |name|) == CssValue(s, k + 1);
    BlankRun(s, k + 1, b);
    CssSpanRun(s, b, e);
    assert CssValue(s, k + 1) == CssTail(s, b, e);
    BlankRun(s, e, x);
  }

  /** A CSS match is the name, `\s*:`, and a value match after the colon. */
  lemma CssAtValue(s: string, q: nat, name: string, h: Hit) returns (k: nat)
    requires q <= |s| && CssAt(s, q, name) == Some(h)
    ensures IgnoreCaseAt(s, q, name) && k == SkipSpaces(s, q + |name|)
    ensures k < |s| && s[k] == ':' && CssValue(s, k + 1) == Some(h)
  {
    k := SkipSpaces(s, q + |name|);
  }

  /** A value match that starts at a value character captures the whole run
      of them. */
  lemma CssValueRun(s: string, c: nat, b: nat, h: Hit)
    requires c <= |s| && SkipSpaces(s, c) == b && CssValue(s, c) == Some(h)
    requires b < |s| && CssChar(s[b])
    ensures h.valueStart == b && h.valueEnd == CssEnd(s, b)
    ensures h.end == SkipSpaces(s, h.valueEnd) + 1 && s[h.end - 1] == ';'
  {
    assert CssTail(s, b, CssEnd(s, b)) == Some(h);
  }

  /** Any other value match is the blank capture: one whitespace character
      of `[c, b)` and then the `;` at `b`. */
  lemma CssValueBlank(s: string, c: nat, b: nat, h: Hit)
    requires c <= |s| && SkipSpaces(s, c) == b && CssValue(s, c) == Some(h)
    requires !(b < |s| && CssChar(s[b]))
    ensures c <= h.valueStart < b && h.valueEnd == h.valueStart + 1 && h.end == b + 1
    ensures s[b] == ';' && IsSpace(s[h.valueStart])
  {
    assert CssBlank(s, c, b) == Some(h);
    RunBlank(s, c);
    BlankAt(s, c, b, h.valueStart);
  }

  /** The two ways a value match arises. */
  lemma CssValueCases(s: string, c: nat, b: nat, h: Hit)
    requires c <= |s| && SkipSpaces(s, c) == b && CssValue(s, c) == Some(h)
    ensures b < |s| && CssChar(s[b]) ==>
      h.valueStart == b && h.valueEnd == CssEnd(s, b) && h.end == SkipSpaces(s, h.valueEnd) + 1
    ensures !(b < |s| && CssChar(s[b])) ==>
      c <= h.valueStart < b && h.valueEnd == h.valueStart + 1 && h.end == b + 1 && IsSpace(s[h.valueStart])
    ensures s[h.end - 1] == ';'
  {
    if b < |s| && CssChar(s[b]) {
      CssValueRun(s, c, b, h);
    } else {
      CssValueBlank(s, c, b, h);
    }
  }

  /** A match whose capture starts with a non-blank character is a
      declaration of that shape. */
  lemma CssMatchShape(s: string, q: nat, name: string, h: Hit) returns (k: nat, x: nat)
    requires q <= |s| && CssAt(s, q, name) == Some(h) && !IsSpace(s[h.valueStart])
    ensures CssShape(s, q, name, k, h.valueStart, h.valueEnd, x) && h.end == x + 1
  {
    k := CssAtValue(s, q, name, h);
    var c := k + 1;
    var b := SkipSpaces(s, c);
    CssValueCases(s, c, b, h);
    x := SkipSpaces(s, h.valueEnd);
    RunBlank(s, q + |name|);
    RunBlank(s, k + 1);
    RunCssSpan(s, b);
    RunBlank(s, h.valueEnd);
  }

  /** A match whose capture starts with whitespace captured one whitespace
      character, left over from the colon's whitespace, and its normal form
      is empty. */
  lemma CssBlankCapture(s: string, q: nat, name: string, h: Hit)
    requires q <= |s| && CssAt(s, q, name) == Some(h) && IsSpace(s[h.valueStart])
    ensures h.valueEnd == h.valueStart + 1 && s[h.end - 1] == ';'
    ensures NormalizeFontValue(s[h.valueStart..h.valueEnd]) == []
  {
    var k := CssAtValue(s, q, name, h);
    var c := k + 1;
    CssValueCases(s, c, SkipSpaces(s, c), h);
    BlankNormal(s, h.valueStart, h.valueEnd);
  }

  lemma BlankNormal(s: string, i: nat, j: nat)
    requires i < j == i + 1 <= |s| && IsSpace(s[i])
    ensures NormalizeFontValue(s[i..j]) == []
  {
    assert s[i..j] == [s[i]];
    NormalizeEmpty([s[i]]);
  }

  /** The characters of every CSS capture. */
  lemma CssCaptureChars(s: string, q: nat, name: string, h: Hit)
    requires q <= |s| && CssAt(s, q, name) == Some(h)
    ensures forall m :: h.valueStart <= m < h.valueEnd ==> CssChar(s[m])
  {
    var k := CssAtValue(s, q, name, h);
    var c := k + 1;
    var b := SkipSpaces(s, c);
    if b < |s| && CssChar(s[b]) {
      CssValueRun(s, c, b, h);
      RunCssSpan(s, b);
      forall m | h.valueStart <= m < h.valueEnd ensures CssChar(s[m]) {
        CssSpanAt(s, b, h.valueEnd, m);
      }
    } else {
      CssValueBlank(s, c, b, h);
    }
  }

  /** An attribute: the name at `q`, whitespace, `=` at `k`, whitespace, a
      quote at `b`, a non-empty run without quotes, and a quote at `e`. */
  predicate AttrShape(s: string, q: nat, name: string, k: nat, b: nat, e: nat)
  {
    && IgnoreCaseAt(s, q, name) && q + |name| <= k < b && b + 1 < e < |s|
    && Blank(s, q + |name|, k) && s[k] == '='
    && Blank(s, k + 1, b) && IsQuote(s[b])
    && QuoteFree(s, b + 1, e) && IsQuote(s[e])
  }

  /** Every attribute of that shape is matched, its quoted text captured. */
  lemma AttrShapeMatch(s: string, q: nat, name: string, k: nat, b: nat, e: nat)
    requires AttrShape(s, q, name, k, b, e)
    ensures AttrAt(s, q, name) == Some(Hit(b + 1, e, e + 1))
  {
    BlankRun(s, q + |name|, k);
    assert AttrAfterName(s, q + |name|) == AttrValue(s, k + 1);
    BlankRun(s, k + 1, b);
    QuoteFreeRunExact(s, b + 1, e);
  }

  /** Every attribute match is of that shape. */
  lemma AttrMatchShape(s: string, q: nat, name: string, h: Hit) returns (k: nat)
    requires q <= |s| && AttrAt(s, q, name) == Some(h)
    ensures AttrShape(s, q, name, k, h.valueStart - 1, h.valueEnd) && h.end == h.valueEnd + 1
  {
    k := SkipSpaces(s, q + |name|);
    assert AttrValue(s, k + 1) == Some(h);
    RunBlank(s, q + |name|);
    RunBlank(s, k + 1);
    RunQuoteFree(s, h.valueStart);
  }

  /** No attribute capture holds a quote. */
  lemma AttrCaptureChars(s: string, q: nat, name: string, h: Hit)
    requires q <= |s| && AttrAt(s, q, name) == Some(h)
    ensures forall m :: h.valueStart <= m < h.valueEnd ==> !IsQuote(s[m])
  {
    var k := AttrMatchShape(s, q, name, h);
    forall m | h.valueStart <= m < h.valueEnd ensures !IsQuote(s[m]) {
      QuoteFreeAt(s, h.valueStart, h.valueEnd, m);
    }
  }

  // ---------------------------------------------------------------------
  // What the loops collect

  /** Every collected capture is the capture of a match inside the text. */
  lemma {:induction false} CaptureSource(s: string, p: nat, find: nat -> Option<Hit>, i: nat) returns (q: nat)
    requires p <= |s| && i < |Captures(s, p, find)|
    ensures p <= q < |s| && Fits(s, q, find(q))
    ensures Captures(s, p, find)[i] == s[find(q).value.valueStart..find(q).value.valueEnd]
    decreases |s| - p
  {
    var first := FirstMatch(s, p, find);
    q := first.value;
    if i > 0 {
      var h := find(q).value;
      q := CaptureSource(s, h.end, find, i - 1);
    }
  }

  /** Every CSS capture is a non-empty run of `[^;}{\n]`. */
  lemma CssCaptureClean(svg: string, i: nat)
    requires i < |Captures(svg, 0, CssFinder(svg))|
    ensures var v := Captures(svg, 0, CssFinder(svg))[i];
      |v| > 0 && forall m :: 0 <= m < |v| ==> CssChar(v[m])
  {
    var q := CaptureSource(svg, 0, CssFinder(svg), i);
    var h := CssAt(svg, q, "font-family").value;
    CssCaptureChars(svg, q, "font-family", h);
  }

  /** Every attribute capture is non-empty and holds no quote. */
  lemma AttrCaptureClean(svg: string, i: nat)
    requires i < |Captures(svg, 0, AttrFinder(svg))|
    ensures var v := Captures(svg, 0, AttrFinder(svg))[i];
      |v| > 0 && forall m :: 0 <= m < |v| ==> !IsQuote(v[m])
  {
    var q := CaptureSource(svg, 0, AttrFinder(svg), i);
    var h := AttrAt(svg, q, "font-family").value;
    AttrCaptureChars(svg, q, "font-family", h);
  }
}
