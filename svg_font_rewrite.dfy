/** `rewriteSvgFonts`: the four global replacements the normaliser runs over
    an SVG text, one after the other, counting the declarations and
    attributes it rewrites. */
module SvgFontRewrite {
  import opened Wrappers
  import opened Text
  import opened SvgFontNormalize

  /** The four global regular expressions, in the order they are applied:
      `font-family:` declarations, `font:` declarations, double-quoted and
      single-quoted `font-family=` attributes. */
  datatype Pattern = CssFamily | CssFont | AttrDouble | AttrSingle

  /** One match: where the captured value starts and ends, and where the
      whole match ends. */
  datatype Hit = Hit(valueStart: nat, valueEnd: nat, end: nat)

  /** The text of one global replacement and the number of matches whose
      callback replaced them. */
  datatype PassResult = PassResult(text: string, count: nat)

  // ---------------------------------------------------------------------
  // Declarations: `(name\s*:\s*)([^;}{]+?)(\s*;)`

  /** A character of `[^;}{]`. */
  predicate ValueChar(c: char)
  {
    c != ';' && c != '{' && c != '}'
  }

  /** The number of value characters from `i` on. */
  function ValueRun(s: string, i: nat): (n: nat)
    requires i <= |s|
    ensures i + n <= |s|
    ensures i + n < |s| ==> !ValueChar(s[i + n])
    decreases |s| - i
  {
    if i < |s| && ValueChar(s[i]) then 1 + ValueRun(s, i + 1) else 0
  }

  /** The number of whitespace characters just before `e`, not reaching
      back past `b`. */
  function SpacesBefore(s: string, b: nat, e: nat): (n: nat)
    requires b <= e <= |s|
    ensures n <= e - b
    ensures e - n > b ==> !IsSpace(s[e - n - 1])
    ensures e > b && !IsSpace(s[b]) ==> n < e - b
    decreases e - b
  {
    if e > b && IsSpace(s[e - 1]) then 1 + SpacesBefore(s, b, e - 1) else 0
  }

  /** The character that ends a declaration: a semicolon, which the match
      takes in; under the corrected reading also a closing brace, which it
      leaves in place. */
  predicate Terminator(s: string, k: nat, rule: Rule)
  {
    k < |s| && (s[k] == ';' || (rule == Corrected && s[k] == '}'))
  }

  /** The declaration regex tried at `q` under the `i` flag. The lazy value
      runs to the last non-blank character before the first of `;{}`; when
      nothing is left there but the whitespace after the colon, the
      backtracking regex captures the last of those whitespace characters
      as the value. */
  function DeclarationAt(s: string, q: nat, name: string, rule: Rule): (r: Option<Hit>)
    requires q <= |s|
    ensures r.Some? ==> q + |name| < r.value.valueStart < r.value.valueEnd <= r.value.end <= |s|
  {
    if !IgnoreCaseAt(s, q, name) then None
    else
      var a := q + |name| + SpacesFrom(s, q + |name|);
      if !(a < |s| && s[a] == ':') then None
      else
        var b := a + 1 + SpacesFrom(s, a + 1);
        var e := b + ValueRun(s, b);
        if !Terminator(s, e, rule) then None
        else
          var end := if s[e] == ';' then e + 1 else e;
          if e > b then Some(Hit(b, e - SpacesBefore(s, b, e), end))
          else if b > a + 1 then Some(Hit(b - 1, b, end))
          else None
  }

  // ---------------------------------------------------------------------
  // Attributes: `(font-family\s*=\s*)"([\s\S]*?)"(?=\s+[a-zA-Z_:][-a-zA-Z0-9_:]*=|\s*\/?>)`

  /** A character of `[a-zA-Z_:]`. */
  predicate NameStart(c: char)
  {
    IsAsciiLetter(c) || c == '_' || c == ':'
  }

  /** A character of `[-a-zA-Z0-9_:]`. */
  predicate NameChar(c: char)
  {
    NameStart(c) || IsAsciiDigit(c) || c == '-'
  }

  /** `[-a-zA-Z0-9_:]*=` matches at `i`. */
  predicate NameThenEquals(s: string, i: nat)
    requires i <= |s|
    decreases |s| - i
  {
    i < |s| && (s[i] == '=' || (NameChar(s[i]) && NameThenEquals(s, i + 1)))
  }

  /** The lookahead `(?=\s+[a-zA-Z_:][-a-zA-Z0-9_:]*=|\s*\/?>)` tried at
      `k`, with the whitespace scanned up to `j`. */
  predicate FollowsFrom(s: string, k: nat, j: nat)
    requires k <= j <= |s|
    decreases |s| - j
  {
    if j < |s| && IsSpace(s[j]) then FollowsFrom(s, k, j + 1)
    else
      || (k < j < |s| && NameStart(s[j]) && NameThenEquals(s, j + 1))
      || (j < |s| && s[j] == '>')
      || (j + 1 < |s| && s[j] == '/' && s[j + 1] == '>')
  }

  /** The lookahead after a closing quote: whitespace and another attribute
      name with its `=`, or the end of the tag. */
  predicate AttrFollows(s: string, k: nat)
    requires k <= |s|
  {
    FollowsFrom(s, k, k)
  }

  /** The first `quote` at or after `i` that the lookahead accepts. */
  function CloseQuote(s: string, i: nat, quote: char): (r: Option<nat>)
    requires i <= |s|
    ensures r.Some? ==> i <= r.value < |s| && s[r.value] == quote && AttrFollows(s, r.value + 1)
    decreases |s| - i
  {
    if i == |s| then None
    else if s[i] == quote && AttrFollows(s, i + 1) then Some(i)
    else CloseQuote(s, i + 1, quote)
  }

  /** The attribute regex for the attribute `name` with the given quote
      tried at `q` under the `i` flag. */
  function AttributeAt(s: string, q: nat, name: string, quote: char): (r: Option<Hit>)
    requires q <= |s|
    ensures r.Some? ==> q + |name| + 1 < r.value.valueStart <= r.value.valueEnd < r.value.end <= |s|
  {
    if !IgnoreCaseAt(s, q, name) then None
    else
      var a := q + |name| + SpacesFrom(s, q + |name|);
      if !(a < |s| && s[a] == '=') then None
      else
        var b := a + 1 + SpacesFrom(s, a + 1);
        if !(b < |s| && s[b] == quote) then None
        else
          match CloseQuote(s, b + 1, quote)
          case None => None
          case Some(c) => Some(Hit(b + 1, c, c + 1))
  }

  // ---------------------------------------------------------------------
  // One global replacement

  /** The match of a pattern that starts at `q`, if any. */
  function MatchAt(pat: Pattern, s: string, q: nat, rule: Rule): (r: Option<Hit>)
    requires q <= |s|
    ensures r.Some? ==> q < r.value.valueStart <= r.value.valueEnd <= r.value.end <= |s|
    ensures r.Some? ==> q < r.value.end
  {
    match pat
    case CssFamily => DeclarationAt(s, q, "font-family", rule)
    case CssFont => DeclarationAt(s, q, "font", rule)
    case AttrDouble => AttributeAt(s, q, "font-family", '"')
    case AttrSingle => AttributeAt(s, q, "font-family", '\'')
  }

  /** The callback: the replacement text for a match, or `None` when it
      returns the match unchanged. Declarations keep their prefix and
      suffix around the new value; attributes are always written back
      double-quoted. */
  function Edit(t: Tables, pat: Pattern, s: string, q: nat, h: Hit, rule: Rule): (r: Option<string>)
    requires q < h.valueStart <= h.valueEnd <= h.end <= |s|
  {
    var v := s[h.valueStart..h.valueEnd];
    var rep := if pat == CssFont then MaybeReplaceFontShorthand(t, v, rule) else MaybeReplaceFontFamily(t, v);
    if rep.None? then None
    else if pat.CssFamily? || pat.CssFont? then Some(s[q..h.valueStart] + rep.value + s[h.valueEnd..h.end])
    else Some(s[q..h.valueStart - 1] + "\"" + rep.value + "\"")
  }

  /** `String.prototype.replace` with a global regex and a callback, from
      position `p`: `find` tries the regex at a position and `callback`
      gives the replacement for a match, or `None` when it hands the match
      back unchanged. The leftmost match is replaced and the search goes on
      after it. */
  function Replace(s: string, p: nat, find: nat -> Option<Hit>, callback: (nat, Hit) -> Option<string>): (r: PassResult)
    requires p <= |s|
    decreases |s| - p
  {
    if p == |s| then PassResult([], 0)
    else
      var m := find(p);
      if m.Some? && p < m.value.end <= |s| then
        var rest := Replace(s, m.value.end, find, callback);
        match callback(p, m.value)
        case None => PassResult(s[p..m.value.end] + rest.text, rest.count)
        case Some(out) => PassResult(out + rest.text, rest.count + 1)
      else
        var rest := Replace(s, p + 1, find, callback);
        PassResult([s[p]] + rest.text, rest.count)
  }

  /** The regex of a pattern, as `find` for `Replace`. */
  function Finder(pat: Pattern, s: string, rule: Rule): nat -> Option<Hit>
  {
    (q: nat) => if q <= |s| then MatchAt(pat, s, q, rule) else None
  }

  /** The callback of a pattern, as `callback` for `Replace`. */
  function Callback(t: Tables, pat: Pattern, s: string, rule: Rule): (nat, Hit) -> Option<string>
  {
    (q: nat, h: Hit) => if q < h.valueStart <= h.valueEnd <= h.end <= |s| then Edit(t, pat, s, q, h, rule) else None
  }

  /** One global replacement of a pattern over the whole text. */
  function Pass(t: Tables, pat: Pattern, s: string, rule: Rule): (r: PassResult)
  {
    Replace(s, 0, Finder(pat, s, rule), Callback(t, pat, s, rule))
  }

  /** The four replacements in order; the count is the total number of
      replaced declarations and attributes. */
  function Rewrite(t: Tables, svg: string, rule: Rule): (r: PassResult)
  {
    var css := Pass(t, CssFamily, svg, rule);
    var font := Pass(t, CssFont, css.text, rule);
    var dq := Pass(t, AttrDouble, font.text, rule);
    var sq := Pass(t, AttrSingle, dq.text, rule);
    PassResult(sq.text, css.count + font.count + dq.count + sq.count)
  }

  // ---------------------------------------------------------------------
  // The method, with the callbacks' counters

  /** One global replacement, scanning left to right; `changed` and
      `changes` are the closure variables the callback updates each time it
      replaces a match. */
  method ReplaceCounting(s: string, find: nat -> Option<Hit>, callback: (nat, Hit) -> Option<string>, changed0: bool, changes0: nat)
    returns (text: string, changed: bool, changes: nat)
    ensures text == Replace(s, 0, find, callback).text
    ensures changes == changes0 + Replace(s, 0, find, callback).count
    ensures changed == (changed0 || Replace(s, 0, find, callback).count > 0)
  {
    text, changed, changes := [], changed0, changes0;
    var p := 0;
    while p < |s|
      invariant p <= |s|
      invariant text + Replace(s, p, find, callback).text == Replace(s, 0, find, callback).text
      invariant changes + Replace(s, p, find, callback).count == changes0 + Replace(s, 0, find, callback).count
      invariant changes0 <= changes && changed == (changed0 || changes > changes0)
      decreases |s| - p
    {
      var piece, next, replaced := Step(s, p, find, callback);
      AppendAssoc(text, piece, Replace(s, next, find, callback).text);
      text := text + piece;
      if replaced {
        changed := true;
        changes := changes + 1;
      }
      p := next;
    }
  }

  /** One step of the scan from `p`: the text that stands for what lies
      before the next search position, and whether the callback replaced a
      match there. */
  method Step(s: string, p: nat, find: nat -> Option<Hit>, callback: (nat, Hit) -> Option<string>)
    returns (piece: string, next: nat, replaced: bool)
    requires p < |s|
    ensures p < next <= |s|
    ensures Replace(s, p, find, callback).text == piece + Replace(s, next, find, callback).text
    ensures Replace(s, p, find, callback).count == (if replaced then 1 else 0) + Replace(s, next, find, callback).count
  {
    var m := find(p);
    if m.Some? && p < m.value.end <= |s| {
      var out := callback(p, m.value);
      if out.None? {
        piece, next, replaced := s[p..m.value.end], m.value.end, false;
      } else {
        piece, next, replaced := out.value, m.value.end, true;
      }
    } else {
      piece, next, replaced := [s[p]], p + 1, false;
    }
  }

  /** `rewriteSvgFonts` as written: the four global replacements in turn,
      counting the matches whose value is replaced. The corrected reading of
      its two regexes is `Rewrite(Script, svg, Corrected)`. */
  method RewriteSvgFonts(svg: string) returns (changed: bool, changes: nat, text: string)
    ensures text == Rewrite(Script, svg, AsWritten).text
    ensures changes == Rewrite(Script, svg, AsWritten).count
    ensures changed <==> changes > 0
  {
    var css, font, dq;
    css, changed, changes := ReplaceCounting(svg, Finder(CssFamily, svg, AsWritten), Callback(Script, CssFamily, svg, AsWritten), false, 0);
    font, changed, changes := ReplaceCounting(css, Finder(CssFont, css, AsWritten), Callback(Script, CssFont, css, AsWritten), changed, changes);
    dq, changed, changes := ReplaceCounting(font, Finder(AttrDouble, font, AsWritten), Callback(Script, AttrDouble, font, AsWritten), changed, changes);
    text, changed, changes := ReplaceCounting(dq, Finder(AttrSingle, dq, AsWritten), Callback(Script, AttrSingle, dq, AsWritten), changed, changes);
  }

  // ---------------------------------------------------------------------
  // The matchers against the regexes they stand for

  /** A `\s` run from `i` covers every position up to one it reaches. */
  lemma {:induction false} SpacesFromCovers(s: string, i: nat, k: nat)
    requires i <= k <= |s|
    requires forall m :: i <= m < k ==> IsSpace(s[m])
    ensures i + SpacesFrom(s, i) >= k
    decreases k - i
  {
    if i < k {
      SpacesFromCovers(s, i + 1, k);
    }
  }

  /** Every position of a `\s` run is whitespace. */
  lemma {:induction false} SpacesFromAll(s: string, i: nat, m: nat)
    requires i <= |s| && i <= m < i + SpacesFrom(s, i)
    ensures IsSpace(s[m])
    decreases m - i
  {
    if i < m {
      SpacesFromAll(s, i + 1, m);
    }
  }

  /** A run of value characters that stops at `k`. */
  lemma {:induction false} ValueRunExact(s: string, i: nat, k: nat)
    requires i <= k < |s|
    requires forall m :: i <= m < k ==> ValueChar(s[m])
    requires !ValueChar(s[k])
    ensures ValueRun(s, i) == k - i
    decreases k - i
  {
    if i < k {
      ValueRunExact(s, i + 1, k);
    }
  }

  /** Every position of a run of value characters is one. */
  lemma {:induction false} ValueRunAll(s: string, i: nat, m: nat)
    requires i <= |s| && i <= m < i + ValueRun(s, i)
    ensures ValueChar(s[m])
    decreases m - i
  {
    if i < m {
      ValueRunAll(s, i + 1, m);
    }
  }

  /** The whitespace counted back from `e` is whitespace. */
  lemma {:induction false} SpacesBeforeAll(s: string, b: nat, e: nat, m: nat)
    requires b <= e <= |s| && e - SpacesBefore(s, b, e) <= m < e
    ensures IsSpace(s[m])
    decreases e - b
  {
    if m < e - 1 {
      SpacesBeforeAll(s, b, e - 1, m);
    }
  }

  /** Counting whitespace back from `e` reaches every position down to one
      where the whitespace begins. */
  lemma {:induction false} SpacesBeforeCovers(s: string, b: nat, e: nat, v: nat)
    requires b <= v <= e <= |s|
    requires forall m :: v <= m < e ==> IsSpace(s[m])
    ensures e - SpacesBefore(s, b, e) <= v
    decreases e - v
  {
    if v < e {
      SpacesBeforeCovers(s, b, e - 1, v);
    }
  }

  /** The layout of a declaration up to its end: the name at `q`, the colon
      at `k`, the value in `[vs, ve)` and whitespace up to `x`. */
  predicate DeclShape(s: string, q: nat, name: string, k: nat, vs: nat, ve: nat, x: nat)
  {
    && IgnoreCaseAt(s, q, name)
    && q + |name| <= k < vs < ve <= x < |s|
    && (forall m :: q + |name| <= m < k ==> IsSpace(s[m]))
    && s[k] == ':'
    && (forall m :: k < m < vs ==> IsSpace(s[m]))
    && (forall m :: vs <= m < ve ==> ValueChar(s[m]))
    && (forall m :: ve <= m < x ==> IsSpace(s[m]))
    && !ValueChar(s[x])
  }

  /** A match of the declaration regex at `q`. */
  predicate DeclMatch(s: string, q: nat, name: string, k: nat, vs: nat, ve: nat, x: nat, rule: Rule)
  {
    DeclShape(s, q, name, k, vs, ve, x) && Terminator(s, x, rule)
  }

  /** On a declaration laid out as `DeclShape` says, the scan finds the
      colon at `k` and the first of `;{}` at `x`. */
  lemma DeclarationScan(s: string, q: nat, name: string, k: nat, vs: nat, ve: nat, x: nat)
    requires DeclShape(s, q, name, k, vs, ve, x)
    ensures q + |name| + SpacesFrom(s, q + |name|) == k
    ensures var b := k + 1 + SpacesFrom(s, k + 1);
      && vs <= b <= x && b + ValueRun(s, b) == x && (b >= ve ==> b == x)
  {
    SpacesFromExact(s, q + |name|, k);
    SpacesFromCovers(s, k + 1, vs);
    var b := k + 1 + SpacesFrom(s, k + 1);
    if b < ve {
      ValueScanInside(s, k, b, vs, ve, x);
    } else {
      ValueScanAfter(s, k, b, ve, x);
    }
  }

  /** The value starts before `ve`: the value characters run up to `x`. */
  lemma ValueScanInside(s: string, k: nat, b: nat, vs: nat, ve: nat, x: nat)
    requires k < vs <= b < ve <= x < |s|
    requires forall m :: vs <= m < ve ==> ValueChar(s[m])
    requires forall m :: ve <= m < x ==> IsSpace(s[m])
    requires !ValueChar(s[x])
    ensures b + ValueRun(s, b) == x
  {
    forall m | b <= m < x ensures ValueChar(s[m]) {
      if m >= ve {
        assert IsSpace(s[m]);
      }
    }
    ValueRunExact(s, b, x);
  }

  /** The whitespace after the colon reaches `ve`: it runs on up to `x`. */
  lemma ValueScanAfter(s: string, k: nat, b: nat, ve: nat, x: nat)
    requires k + 1 <= |s| && b == k + 1 + SpacesFrom(s, k + 1)
    requires k < ve <= b && ve <= x < |s|
    requires forall m :: ve <= m < x ==> IsSpace(s[m])
    requires !ValueChar(s[x])
    ensures b == x && b + ValueRun(s, b) == x
  {
    forall m | k + 1 <= m < x ensures IsSpace(s[m]) {
      if m < b {
        SpacesFromAll(s, k + 1, m);
      }
    }
    SpacesFromExact(s, k + 1, x);
    ValueRunExact(s, x, x);
  }

  /** Every match `DeclarationAt` returns is a match of the regex. */
  lemma DeclarationSound(s: string, q: nat, name: string, rule: Rule, h: Hit) returns (k: nat, x: nat)
    requires q <= |s| && DeclarationAt(s, q, name, rule) == Some(h)
    ensures DeclMatch(s, q, name, k, h.valueStart, h.valueEnd, x, rule)
    ensures h.end == if s[x] == ';' then x + 1 else x
  {
    k := q + |name| + SpacesFrom(s, q + |name|);
    var b := k + 1 + SpacesFrom(s, k + 1);
    x := b + ValueRun(s, b);
    ScanRuns(s, q, name, k, b, x);
    if x > b {
      SoundValue(s, q, name, k, b, x, rule);
    } else {
      SoundBlank(s, q, name, k, b, x, rule);
    }
  }

  /** The scan reached a value: the regex matches with the value up to
      its last non-blank character. */
  lemma SoundValue(s: string, q: nat, name: string, k: nat, b: nat, x: nat, rule: Rule)
    requires IgnoreCaseAt(s, q, name) && q + |name| <= k < b < x < |s|
    requires forall m :: q + |name| <= m < k ==> IsSpace(s[m])
    requires s[k] == ':'
    requires forall m :: k < m < b ==> IsSpace(s[m])
    requires forall m :: b <= m < x ==> ValueChar(s[m])
    requires !IsSpace(s[b]) && Terminator(s, x, rule)
    ensures DeclMatch(s, q, name, k, b, x - SpacesBefore(s, b, x), x, rule)
  {
    var ve := x - SpacesBefore(s, b, x);
    forall m | ve <= m < x ensures IsSpace(s[m]) {
      SpacesBeforeAll(s, b, x, m);
    }
  }

  /** The scan met the terminator right after the whitespace: the regex
      matches with the last of that whitespace as the value. */
  lemma SoundBlank(s: string, q: nat, name: string, k: nat, b: nat, x: nat, rule: Rule)
    requires IgnoreCaseAt(s, q, name) && q + |name| <= k && k + 1 < b == x < |s|
    requires forall m :: q + |name| <= m < k ==> IsSpace(s[m])
    requires s[k] == ':'
    requires forall m :: k < m < b ==> IsSpace(s[m])
    requires Terminator(s, x, rule)
    ensures DeclMatch(s, q, name, k, b - 1, b, x, rule)
  {
    assert IsSpace(s[b - 1]);
  }

  /** What the scan of a declaration passes over: whitespace before and
      after the colon, then value characters up to `x`. */
  lemma ScanRuns(s: string, q: nat, name: string, k: nat, b: nat, x: nat)
    requires q + |name| <= |s| && k == q + |name| + SpacesFrom(s, q + |name|)
    requires k < |s| && b == k + 1 + SpacesFrom(s, k + 1) && x == b + ValueRun(s, b)
    ensures forall m :: q + |name| <= m < k ==> IsSpace(s[m])
    ensures forall m :: k < m < b ==> IsSpace(s[m])
    ensures forall m :: b <= m < x ==> ValueChar(s[m])
  {
    forall m | q + |name| <= m < k ensures IsSpace(s[m]) {
      SpacesFromAll(s, q + |name|, m);
    }
    forall m | k < m < b ensures IsSpace(s[m]) {
      SpacesFromAll(s, k + 1, m);
    }
    forall m | b <= m < x ensures ValueChar(s[m]) {
      ValueRunAll(s, b, m);
    }
  }

  /** Whenever the regex matches at `q`, `DeclarationAt` returns the match
      the regex prefers: the most whitespace after the colon, then the
      shortest value. */
  lemma DeclarationPreferred(s: string, q: nat, name: string, k: nat, vs: nat, ve: nat, x: nat, rule: Rule)
    requires DeclMatch(s, q, name, k, vs, ve, x, rule)
    ensures DeclarationAt(s, q, name, rule).Some?
    ensures var h := DeclarationAt(s, q, name, rule).value;
      vs <= h.valueStart && (vs == h.valueStart ==> h.valueEnd <= ve)
  {
    DeclarationScan(s, q, name, k, vs, ve, x);
    var b := k + 1 + SpacesFrom(s, k + 1);
    if b < ve {
      if vs == b {
        SpacesBeforeCovers(s, b, x, ve);
      }
    }
  }

  /** The attribute regex matches at `q` with `=` at `k`, the opening quote
      at `b` and the closing quote at `c`. */
  predicate AttrMatch(s: string, q: nat, name: string, k: nat, b: nat, c: nat, quote: char)
  {
    AttrPrefix(s, q, name, k, b) && b < c < |s| && s[b] == quote && s[c] == quote && AttrFollows(s, c + 1)
  }

  /** The attribute name at `q`, `=` at `k` and whitespace around it up to
      `b`. */
  predicate AttrPrefix(s: string, q: nat, name: string, k: nat, b: nat)
  {
    && IgnoreCaseAt(s, q, name)
    && q + |name| <= k < b < |s|
    && (forall m :: q + |name| <= m < k ==> IsSpace(s[m]))
    && s[k] == '='
    && (forall m :: k < m < b ==> IsSpace(s[m]))
  }

  /** `CloseQuote` finds the first closing quote the lookahead accepts. */
  lemma {:induction false} CloseQuoteFirst(s: string, i: nat, quote: char, c: nat)
    requires i <= c < |s| && s[c] == quote && AttrFollows(s, c + 1)
    ensures CloseQuote(s, i, quote).Some? && CloseQuote(s, i, quote).value <= c
    decreases c - i
  {
    if !(s[i] == quote && AttrFollows(s, i + 1)) {
      CloseQuoteFirst(s, i + 1, quote, c);
    }
  }

  /** Every match `AttributeAt` returns is a match of the regex. */
  lemma AttributeSound(s: string, q: nat, name: string, quote: char, h: Hit) returns (k: nat)
    requires q <= |s| && AttributeAt(s, q, name, quote) == Some(h)
    ensures AttrMatch(s, q, name, k, h.valueStart - 1, h.valueEnd, quote) && h.end == h.valueEnd + 1
  {
    k := q + |name| + SpacesFrom(s, q + |name|);
    forall m | q + |name| <= m < k ensures IsSpace(s[m]) {
      SpacesFromAll(s, q + |name|, m);
    }
    forall m | k < m < h.valueStart - 1 ensures IsSpace(s[m]) {
      SpacesFromAll(s, k + 1, m);
    }
  }

  /** Whenever the attribute regex matches at `q`, `AttributeAt` returns
      it with the first closing quote the lookahead accepts. */
  lemma AttributePreferred(s: string, q: nat, name: string, k: nat, b: nat, c: nat, quote: char)
    requires quote == '"' || quote == '\''
    requires AttrMatch(s, q, name, k, b, c, quote)
    ensures AttributeAt(s, q, name, quote).Some?
    ensures AttributeAt(s, q, name, quote).value.valueStart == b + 1
    ensures AttributeAt(s, q, name, quote).value.valueEnd <= c
  {
    AttributeScan(s, q, name, k, b, quote);
    AttributeFound(s, q, name, k, b, c, quote);
  }

  /** Once the scan is known to reach the opening quote at `b`, the match
      closes at the first accepted quote, at `c` or before. */
  lemma AttributeFound(s: string, q: nat, name: string, k: nat, b: nat, c: nat, quote: char)
    requires IgnoreCaseAt(s, q, name) && q + |name| <= k < b < c < |s|
    requires q + |name| + SpacesFrom(s, q + |name|) == k && s[k] == '='
    requires k + 1 + SpacesFrom(s, k + 1) == b && s[b] == quote
    requires s[c] == quote && AttrFollows(s, c + 1)
    ensures AttributeAt(s, q, name, quote).Some?
    ensures AttributeAt(s, q, name, quote).value.valueStart == b + 1
    ensures AttributeAt(s, q, name, quote).value.valueEnd <= c
  {
    CloseQuoteFirst(s, b + 1, quote, c);
  }

  /** The scan of an attribute finds `=` at `k` and the quote at `b`. */
  lemma AttributeScan(s: string, q: nat, name: string, k: nat, b: nat, quote: char)
    requires quote == '"' || quote == '\''
    requires q + |name| <= k < b < |s|
    requires forall m :: q + |name| <= m < k ==> IsSpace(s[m])
    requires s[k] == '='
    requires forall m :: k < m < b ==> IsSpace(s[m])
    requires s[b] == quote
    ensures q + |name| + SpacesFrom(s, q + |name|) == k
    ensures k + 1 + SpacesFrom(s, k + 1) == b
  {
    SpacesFromExact(s, q + |name|, k);
    SpacesFromExact(s, k + 1, b);
  }

  /** On a declaration whose value has no blank at either end, the match
      captures exactly that value. */
  lemma DeclarationOfShape(s: string, q: nat, name: string, k: nat, vs: nat, ve: nat, x: nat, rule: Rule)
    requires DeclMatch(s, q, name, k, vs, ve, x, rule)
    requires !IsSpace(s[vs]) && !IsSpace(s[ve - 1])
    ensures DeclarationAt(s, q, name, rule).Some?
    ensures DeclarationAt(s, q, name, rule).value == Hit(vs, ve, if s[x] == ';' then x + 1 else x)
  {
    DeclarationScan(s, q, name, k, vs, ve, x);
    SpacesFromExact(s, k + 1, vs);
    SpacesBeforeExact(s, vs, x, ve);
  }

  /** Counting whitespace back from `e` stops at a non-blank character. */
  lemma {:induction false} SpacesBeforeExact(s: string, b: nat, e: nat, v: nat)
    requires b < v <= e <= |s|
    requires forall m :: v <= m < e ==> IsSpace(s[m])
    requires !IsSpace(s[v - 1])
    ensures SpacesBefore(s, b, e) == e - v
    decreases e - v
  {
    if v < e {
      SpacesBeforeExact(s, b, e - 1, v);
    }
  }

  // ---------------------------------------------------------------------
  // Declarations without a semicolon

  /** As written, a declaration that ends at the closing brace of its rule
      without a semicolon is not matched at all. */
  lemma UnterminatedAsWritten(s: string, q: nat, name: string, k: nat, vs: nat, ve: nat, x: nat)
    requires DeclShape(s, q, name, k, vs, ve, x) && s[x] == '}'
    ensures DeclarationAt(s, q, name, AsWritten).None?
  {
    DeclarationScan(s, q, name, k, vs, ve, x);
  }

  /** The corrected reading matches such a declaration, capturing its value
      and leaving the brace in place. */
  lemma UnterminatedCorrected(s: string, q: nat, name: string, k: nat, vs: nat, ve: nat, x: nat)
    requires DeclShape(s, q, name, k, vs, ve, x) && s[x] == '}'
    ensures DeclarationAt(s, q, name, Corrected).Some?
    ensures DeclarationAt(s, q, name, Corrected).value.end == x
  {
    DeclarationScan(s, q, name, k, vs, ve, x);
  }

  /** As written, the family replacement copies the first character of such
      a declaration and looks again from the next one, so the value is
      left as it is. */
  lemma UnterminatedFamilyAsWritten(t: Tables, s: string, q: nat, k: nat, vs: nat, ve: nat, x: nat)
    requires DeclShape(s, q, "font-family", k, vs, ve, x) && s[x] == '}'
    ensures var find := Finder(CssFamily, s, AsWritten);
      var callback := Callback(t, CssFamily, s, AsWritten);
      Replace(s, q, find, callback)
        == PassResult([s[q]] + Replace(s, q + 1, find, callback).text, Replace(s, q + 1, find, callback).count)
  {
    UnterminatedAsWritten(s, q, "font-family", k, vs, ve, x);
    ReplaceNoMatch(s, q, Finder(CssFamily, s, AsWritten), Callback(t, CssFamily, s, AsWritten));
  }

  /** The corrected reading hands the value of such a declaration to the
      callback, and a listed family is replaced in place, the brace kept. */
  lemma UnterminatedFamilyCorrected(t: Tables, s: string, q: nat, k: nat, vs: nat, ve: nat, x: nat)
    requires DeclShape(s, q, "font-family", k, vs, ve, x) && s[x] == '}'
    requires !IsSpace(s[vs]) && !IsSpace(s[ve - 1])
    requires MaybeReplaceFontFamily(t, s[vs..ve]).Some?
    ensures var find := Finder(CssFamily, s, Corrected);
      var callback := Callback(t, CssFamily, s, Corrected);
      Replace(s, q, find, callback)
        == PassResult(s[q..vs] + MaybeReplaceFontFamily(t, s[vs..ve]).value + s[ve..x] + Replace(s, x, find, callback).text,
                      Replace(s, x, find, callback).count + 1)
  {
    DeclarationOfShape(s, q, "font-family", k, vs, ve, x, Corrected);
    var h := Hit(vs, ve, x);
    var out := s[q..vs] + MaybeReplaceFontFamily(t, s[vs..ve]).value + s[ve..x];
    assert Finder(CssFamily, s, Corrected)(q) == Some(h);
    assert Callback(t, CssFamily, s, Corrected)(q, h) == Some(out);
    ReplaceReplaced(s, q, Finder(CssFamily, s, Corrected), Callback(t, CssFamily, s, Corrected), h, out);
  }

  /** Where the regex does not match, `replace` copies one character. */
  lemma ReplaceNoMatch(s: string, p: nat, find: nat -> Option<Hit>, callback: (nat, Hit) -> Option<string>)
    requires p < |s| && find(p).None?
    ensures Replace(s, p, find, callback)
      == PassResult([s[p]] + Replace(s, p + 1, find, callback).text, Replace(s, p + 1, find, callback).count)
  {
  }

  /** Where the callback replaces a match, `replace` emits the replacement
      and counts it. */
  lemma ReplaceReplaced(s: string, p: nat, find: nat -> Option<Hit>, callback: (nat, Hit) -> Option<string>, h: Hit, out: string)
    requires p < h.end <= |s| && find(p) == Some(h) && callback(p, h) == Some(out)
    ensures Replace(s, p, find, callback)
      == PassResult(out + Replace(s, h.end, find, callback).text, Replace(s, h.end, find, callback).count + 1)
  {
  }

  // ---------------------------------------------------------------------
  // Counting

  /** A replacement whose callback never replaced anything gives back the
      text it was given. */
  lemma {:induction false} ReplaceUnchanged(s: string, p: nat, find: nat -> Option<Hit>, callback: (nat, Hit) -> Option<string>)
    requires p <= |s| && Replace(s, p, find, callback).count == 0
    ensures Replace(s, p, find, callback).text == s[p..]
    decreases |s| - p
  {
    if p < |s| {
      var m := find(p);
      if m.Some? && p < m.value.end <= |s| {
        ReplaceUnchanged(s, m.value.end, find, callback);
        assert s[p..] == s[p..m.value.end] + s[m.value.end..];
      } else {
        ReplaceUnchanged(s, p + 1, find, callback);
        assert s[p..] == [s[p]] + s[p + 1..];
      }
    }
  }

  /** When no declaration or attribute was replaced, the text is the one
      given: the `changed` flag is false exactly when there is nothing to
      write back. */
  lemma RewriteUnchanged(t: Tables, svg: string, rule: Rule)
    requires Rewrite(t, svg, rule).count == 0
    ensures Rewrite(t, svg, rule).text == svg
  {
    var css := Pass(t, CssFamily, svg, rule);
    ReplaceUnchanged(svg, 0, Finder(CssFamily, svg, rule), Callback(t, CssFamily, svg, rule));
    var font := Pass(t, CssFont, css.text, rule);
    ReplaceUnchanged(css.text, 0, Finder(CssFont, css.text, rule), Callback(t, CssFont, css.text, rule));
    var dq := Pass(t, AttrDouble, font.text, rule);
    ReplaceUnchanged(font.text, 0, Finder(AttrDouble, font.text, rule), Callback(t, AttrDouble, font.text, rule));
    ReplaceUnchanged(dq.text, 0, Finder(AttrSingle, dq.text, rule), Callback(t, AttrSingle, dq.text, rule));
  }

  // ---------------------------------------------------------------------
  // A rewritten attribute is left alone the next time

  /** Whether a pattern matches depends only on the characters it covers. */
  lemma IgnoreCaseMoved(a: string, i: nat, b: string, j: nat, w: string)
    requires i + |w| <= |a| && j + |w| <= |b| && a[i..i + |w|] == b[j..j + |w|]
    ensures IgnoreCaseAt(a, i, w) == IgnoreCaseAt(b, j, w)
  {
    forall k | 0 <= k < |w| ensures SameIgnoringCase(a[i + k], w[k]) == SameIgnoringCase(b[j + k], w[k]) {
      assert a[i + k] == a[i..i + |w|][k];
      assert b[j + k] == b[j..j + |w|][k];
    }
  }

  /** An attribute prefix copied elsewhere is an attribute prefix there. */
  lemma AttrPrefixMoved(s: string, q: nat, name: string, k: nat, b: nat, w: string, q2: nat)
    requires AttrPrefix(s, q, name, k, b)
    requires q2 + (b - q) < |w|
    requires forall m :: q <= m < b ==> w[q2 + (m - q)] == s[m]
    ensures AttrPrefix(w, q2, name, q2 + (k - q), q2 + (b - q))
  {
    assert s[q..q + |name|] == w[q2..q2 + |name|] by {
      forall m | q <= m < q + |name| ensures w[q2 + (m - q)] == s[m] {
      }
    }
    IgnoreCaseMoved(s, q, w, q2, name);
    forall m | q2 + |name| <= m < q2 + (k - q) ensures IsSpace(w[m]) {
      assert w[q2 + ((m - q2 + q) - q)] == s[m - q2 + q];
    }
    forall m | q2 + (k - q) < m < q2 + (b - q) ensures IsSpace(w[m]) {
      assert w[q2 + ((m - q2 + q) - q)] == s[m - q2 + q];
    }
    assert w[q2 + (k - q)] == s[k];
  }

  /** `CloseQuote` passes over characters that are not the quote. */
  lemma {:induction false} CloseQuoteSkips(s: string, i: nat, quote: char, c: nat)
    requires i <= c <= |s|
    requires forall m :: i <= m < c ==> s[m] != quote
    ensures CloseQuote(s, i, quote) == CloseQuote(s, c, quote)
    decreases c - i
  {
    if i < c {
      CloseQuoteSkips(s, i + 1, quote, c);
    }
  }

  /** The text of a rewritten attribute: the original prefix, then the
      replacement stack between double quotes. */
  lemma AttrEditText(t: Tables, pat: Pattern, s: string, q: nat, h: Hit, rule: Rule)
    requires pat.AttrDouble? || pat.AttrSingle?
    requires q < h.valueStart <= h.valueEnd <= h.end <= |s|
    requires Edit(t, pat, s, q, h, rule).Some?
    ensures var st := MaybeReplaceFontFamily(t, s[h.valueStart..h.valueEnd]);
      && st.Some?
      && Edit(t, pat, s, q, h, rule).value == s[q..h.valueStart - 1] + "\"" + st.value + "\""
  {
  }

  /** Wherever a rewritten attribute stands in a later text, followed by
      what the lookahead accepts, the double-quoted pattern matches it
      again, captures exactly the stack, and leaves it as it is. */
  lemma AttrRewriteStable(t: Tables, s: string, q: nat, quote: char, h: Hit, st: string, w: string, q2: nat)
    requires quote == '"' || quote == '\''
    requires q <= |s| && AttributeAt(s, q, "font-family", quote) == Some(h)
    requires MaybeReplaceFontFamily(t, s[h.valueStart..h.valueEnd]) == Some(st)
    requires PlainStack(t.sansStack) && PlainStack(t.monoStack)
    requires q2 + (h.valueStart - q) + |st| + 1 <= |w|
    requires w[q2..q2 + (h.valueStart - q) + |st| + 1] == s[q..h.valueStart - 1] + "\"" + st + "\""
    requires AttrFollows(w, q2 + (h.valueStart - q) + |st| + 1)
    ensures AttributeAt(w, q2, "font-family", '"')
      == Some(Hit(q2 + (h.valueStart - q), q2 + (h.valueStart - q) + |st|, q2 + (h.valueStart - q) + |st| + 1))
    ensures MaybeReplaceFontFamily(t, w[q2 + (h.valueStart - q)..q2 + (h.valueStart - q) + |st|]) == None
  {
    AttrRewriteMatch(s, q, quote, h, st, w, q2);
    FamilyFixpoint(t, st);
  }

  /** The matching half of `AttrRewriteStable`, for any text `st` free of
      quotes. */
  lemma AttrRewriteMatch(s: string, q: nat, quote: char, h: Hit, st: string, w: string, q2: nat)
    requires quote == '"' || quote == '\''
    requires q <= |s| && AttributeAt(s, q, "font-family", quote) == Some(h)
    requires PlainChars(st)
    requires q2 + (h.valueStart - q) + |st| + 1 <= |w|
    requires w[q2..q2 + (h.valueStart - q) + |st| + 1] == s[q..h.valueStart - 1] + "\"" + st + "\""
    requires AttrFollows(w, q2 + (h.valueStart - q) + |st| + 1)
    ensures AttributeAt(w, q2, "font-family", '"').Some?
    ensures AttributeAt(w, q2, "font-family", '"').value
      == Hit(q2 + (h.valueStart - q), q2 + (h.valueStart - q) + |st|, q2 + (h.valueStart - q) + |st| + 1)
    ensures w[q2 + (h.valueStart - q)..q2 + (h.valueStart - q) + |st|] == st
  {
    var k := AttributeSound(s, q, "font-family", quote, h);
    var b := h.valueStart - 1;
    var pre := s[q..b];
    QuotedCopy(pre, st, w, q2);
    forall m | q <= m < b ensures w[q2 + (m - q)] == s[m] {
      assert s[m] == pre[m - q];
    }
    AttrPrefixMoved(s, q, "font-family", k, b, w, q2);
    AttrStableAt(w, q2, "font-family", q2 + (k - q), q2 + (b - q), st);
  }

  /** The characters of a copy of `pre`, a double quote, `st` and a double
      quote. */
  lemma QuotedCopy(pre: string, st: string, w: string, q2: nat)
    requires q2 + |pre| + |st| + 2 <= |w|
    requires w[q2..q2 + |pre| + |st| + 2] == pre + "\"" + st + "\""
    ensures forall m :: 0 <= m < |pre| ==> w[q2 + m] == pre[m]
    ensures w[q2 + |pre|] == '"' && w[q2 + |pre| + 1 + |st|] == '"'
    ensures w[q2 + |pre| + 1..q2 + |pre| + 1 + |st|] == st
  {
    var out := pre + "\"" + st + "\"";
    forall m | 0 <= m < |pre| ensures w[q2 + m] == pre[m] {
      assert w[q2 + m] == out[m];
    }
    assert w[q2 + |pre|] == out[|pre|];
    assert w[q2 + |pre| + 1 + |st|] == out[|pre| + 1 + |st|];
    forall m | 0 <= m < |st| ensures w[q2 + |pre| + 1 + m] == st[m] {
      assert w[q2 + |pre| + 1 + m] == out[|pre| + 1 + m];
    }
  }

  /** A plain stack between double quotes after an attribute prefix, and
      then what the lookahead accepts: the match captures the stack. */
  lemma AttrStableAt(w: string, q2: nat, name: string, k2: nat, b2: nat, st: string)
    requires AttrPrefix(w, q2, name, k2, b2) && w[b2] == '"'
    requires b2 + 1 + |st| < |w| && w[b2 + 1..b2 + 1 + |st|] == st && w[b2 + 1 + |st|] == '"'
    requires AttrFollows(w, b2 + 2 + |st|) && PlainChars(st)
    ensures AttributeAt(w, q2, name, '"').Some?
    ensures AttributeAt(w, q2, name, '"').value == Hit(b2 + 1, b2 + 1 + |st|, b2 + 2 + |st|)
  {
    var c2 := b2 + 1 + |st|;
    forall m | b2 + 1 <= m < c2 ensures w[m] != '"' {
      assert w[m] == st[m - b2 - 1];
      assert PlainChar(st[m - b2 - 1]);
    }
    CloseQuoteSkips(w, b2 + 1, '"', c2);
    AttributeScan(w, q2, name, k2, b2, '"');
  }

  /** Concatenation regrouped. */
  lemma AppendAssoc(a: string, b: string, c: string)
    ensures (a + b) + c == a + (b + c)
  {
  }
}
