/** The anchors a Markdown file defines and the lookup of a requested anchor,
    as `LinkChecker.validateAnchor` in scripts/check-links.js computes them:
    heading slugs (a repeated slug gets `-1`, `-2`, ...), kramdown `{#id}` in a
    heading, `{: #id}` attribute lists and HTML `id="..."` attributes. */
module Anchors {
  import opened Wrappers
  import opened Text
  import opened Tokens
  import Percent
  import Seqs

  /** `[\p{L}\p{N}]` for the ranges this model keeps: ASCII letters and digits,
      Latin-1 letters and digits, Latin Extended-A/B, basic Greek and Cyrillic,
      Hiragana, Katakana, CJK ideographs, Hangul syllables and fullwidth forms. */
  predicate IsLetterOrNumber(c: char)
  {
    IsAsciiAlnum(c)
    || c == '\U{00AA}' || c == '\U{00B5}' || c == '\U{00BA}'
    || ('\U{00B2}' <= c <= '\U{00B3}') || c == '\U{00B9}' || ('\U{00BC}' <= c <= '\U{00BE}')
    || ('\U{00C0}' <= c <= '\U{024F}' && c != '\U{00D7}' && c != '\U{00F7}')
    || ('\U{0391}' <= c <= '\U{03C9}' && c != '\U{03A2}')
    || ('\U{0410}' <= c <= '\U{044F}')
    || c == '\U{3005}' || ('\U{3041}' <= c <= '\U{3096}') || ('\U{309D}' <= c <= '\U{309E}')
    || ('\U{30A1}' <= c <= '\U{30FA}') || ('\U{30FC}' <= c <= '\U{30FE}')
    || ('\U{3400}' <= c <= '\U{4DBF}') || ('\U{4E00}' <= c <= '\U{9FFF}')
    || ('\U{AC00}' <= c <= '\U{D7A3}')
    || ('\U{FF10}' <= c <= '\U{FF19}') || ('\U{FF21}' <= c <= '\U{FF3A}') || ('\U{FF41}' <= c <= '\U{FF5A}')
    || ('\U{FF66}' <= c <= '\U{FF9D}')
  }

  // ---------------------------------------------------------------------------
  // normalizeSlugBase: trim, lowercase, drop [^\p{L}\p{N}\s-], \s+ -> '-',
  // -+ -> '-', drop one leading and one trailing '-'.

  /** `.replace(/[^\p{L}\p{N}\s-]/gu, '')` */
  function KeepSlugChars(s: string): (r: string)
  {
    if s == [] then []
    else if IsLetterOrNumber(s[0]) || IsSpace(s[0]) || s[0] == '-' then [s[0]] + KeepSlugChars(s[1..])
    else KeepSlugChars(s[1..])
  }

  /** `.replace(/\s+/g, '-')` */
  function SpacesToHyphens(s: string): (r: string)
    decreases |s|
  {
    if s == [] then []
    else if IsSpace(s[0]) then "-" + SpacesToHyphens(s[SpaceRun(s)..])
    else [s[0]] + SpacesToHyphens(s[1..])
  }

  /** Number of leading `-`. */
  function HyphenRun(s: string): (n: nat)
    ensures n <= |s| && (n < |s| ==> s[n] != '-')
    ensures forall i :: 0 <= i < n ==> s[i] == '-'
    ensures s != [] && s[0] == '-' ==> n >= 1
  {
    if s == [] || s[0] != '-' then 0 else 1 + HyphenRun(s[1..])
  }

  predicate NoDoubleHyphen(s: string)
  {
    forall i :: 0 <= i < |s| - 1 ==> !(s[i] == '-' && s[i + 1] == '-')
  }

  /** `.replace(/-+/g, '-')` */
  function CollapseHyphens(s: string): (r: string)
    decreases |s|
  {
    if s == [] then []
    else if s[0] == '-' then "-" + CollapseHyphens(s[HyphenRun(s)..])
    else [s[0]] + CollapseHyphens(s[1..])
  }

  /** Characters that may remain after the filter in `normalizeSlugBase`. */
  predicate IsKeptChar(c: char)
  {
    IsSlugChar(c) || IsSpace(c)
  }

  predicate AllSlugChars(s: string)
  {
    forall i :: 0 <= i < |s| ==> IsSlugChar(s[i])
  }

  predicate AllLowered(s: string)
  {
    forall i :: 0 <= i < |s| ==> LowerChar(s[i]) == s[i]
  }

  lemma {:induction false} KeepSlugCharsShape(s: string)
    requires AllLowered(s)
    ensures forall i :: 0 <= i < |KeepSlugChars(s)| ==> IsKeptChar(KeepSlugChars(s)[i])
  {
    if s != [] {
      KeepSlugCharsShape(s[1..]);
    }
  }

  lemma {:induction false} SpacesToHyphensShape(s: string)
    requires forall i :: 0 <= i < |s| ==> IsKeptChar(s[i])
    ensures AllSlugChars(SpacesToHyphens(s))
    decreases |s|
  {
    if s != [] {
      if IsSpace(s[0]) {
        SpacesToHyphensShape(s[SpaceRun(s)..]);
      } else {
        SpacesToHyphensShape(s[1..]);
      }
    }
  }

  lemma {:induction false} CollapseHyphensShape(s: string)
    requires AllSlugChars(s)
    ensures AllSlugChars(CollapseHyphens(s))
    ensures NoDoubleHyphen(CollapseHyphens(s))
    ensures (CollapseHyphens(s) != []) == (s != [])
    ensures s != [] ==> (CollapseHyphens(s)[0] == '-') == (s[0] == '-')
    decreases |s|
  {
    if s != [] {
      var n := if s[0] == '-' then HyphenRun(s) else 1;
      var rest := s[n..];
      CollapseHyphensShape(rest);
      var r := CollapseHyphens(s);
      var cr := CollapseHyphens(rest);
      assert r == [if s[0] == '-' then '-' else s[0]] + cr;
      assert s[0] == '-' && rest != [] ==> rest[0] != '-';
      forall i | 0 <= i < |r| - 1 ensures !(r[i] == '-' && r[i + 1] == '-') {
        if i > 0 {
          assert r[i] == cr[i - 1] && r[i + 1] == cr[i];
        }
      }
    }
  }

  /** `.replace(/^-|-$/g, '')` */
  function StripEdgeHyphens(s: string): (r: string)
  {
    var a := if |s| > 0 && s[0] == '-' then s[1..] else s;
    if |a| > 0 && a[|a| - 1] == '-' then a[..|a| - 1] else a
  }

  /** `normalizeSlugBase`. */
  function SlugBase(text: string): string
  {
    StripEdgeHyphens(CollapseHyphens(SpacesToHyphens(KeepSlugChars(Lower(Trim(text))))))
  }

  predicate IsSlugChar(c: char)
  {
    (IsLetterOrNumber(c) && LowerChar(c) == c) || c == '-'
  }

  /** The shape every slug has: lowercase letters, numbers and single inner hyphens. */
  predicate IsSlug(s: string)
  {
    (forall i :: 0 <= i < |s| ==> IsSlugChar(s[i]))
    && NoDoubleHyphen(s)
    && (s != [] ==> s[0] != '-' && s[|s| - 1] != '-')
  }

  lemma SlugCharNotSpace(c: char)
    ensures IsSlugChar(c) ==> !IsSpace(c)
  {
  }

  lemma StripEdgeShape(s: string)
    requires forall i :: 0 <= i < |s| ==> IsSlugChar(s[i])
    requires NoDoubleHyphen(s)
    ensures IsSlug(StripEdgeHyphens(s))
  {
    var a := if |s| > 0 && s[0] == '-' then s[1..] else s;
    assert forall i :: 0 <= i < |a| ==> IsSlugChar(a[i]);
    assert NoDoubleHyphen(a);
    var r := StripEdgeHyphens(s);
    if r != [] {
      if |s| > 0 && s[0] == '-' {
        assert a[0] == s[1];
      }
      if |a| > 0 && a[|a| - 1] == '-' {
        assert r[|r| - 1] == a[|a| - 2];
      }
    }
  }

  /** Every result of `normalizeSlugBase` has the slug shape. */
  lemma SlugBaseIsSlug(text: string)
    ensures IsSlug(SlugBase(text))
  {
    var l := Lower(Trim(text));
    forall i | 0 <= i < |l| ensures LowerChar(l[i]) == l[i] {
      LowerCharIdempotent(Trim(text)[i]);
    }
    var k := KeepSlugChars(l);
    KeepSlugCharsShape(l);
    var h := SpacesToHyphens(k);
    SpacesToHyphensShape(k);
    var c := CollapseHyphens(h);
    CollapseHyphensShape(h);
    StripEdgeShape(c);
  }

  lemma {:induction false} KeepSlugCharsOfSlug(s: string)
    requires forall i :: 0 <= i < |s| ==> IsSlugChar(s[i])
    ensures KeepSlugChars(s) == s
  {
    if s != [] {
      KeepSlugCharsOfSlug(s[1..]);
    }
  }

  lemma {:induction false} SpacesToHyphensNoSpace(s: string)
    requires NoSpace(s)
    ensures SpacesToHyphens(s) == s
  {
    if s != [] {
      SpacesToHyphensNoSpace(s[1..]);
    }
  }

  lemma {:induction false} CollapseNoDouble(s: string)
    requires NoDoubleHyphen(s)
    ensures CollapseHyphens(s) == s
  {
    if s != [] {
      assert NoDoubleHyphen(s[1..]) by {
        forall i | 0 <= i < |s[1..]| - 1 ensures !(s[1..][i] == '-' && s[1..][i + 1] == '-') {
          assert s[1..][i] == s[i + 1] && s[1..][i + 1] == s[i + 2];
        }
      }
      CollapseNoDouble(s[1..]);
      if s[0] == '-' {
        if |s| > 1 {
          assert !(s[0] == '-' && s[1] == '-');
        }
        assert HyphenRun(s[1..]) == 0;
        assert HyphenRun(s) == 1;
      }
      assert s == [s[0]] + s[1..];
    }
  }

  lemma LowerOfLowered(s: string)
    requires AllLowered(s)
    ensures Lower(s) == s
  {
  }

  /** A slug is its own slug, so `normalizeSlugBase` is idempotent. */
  lemma SlugBaseOfSlug(s: string)
    requires IsSlug(s)
    ensures SlugBase(s) == s
  {
    if s != [] {
      SlugCharNotSpace(s[0]);
      SlugCharNotSpace(s[|s| - 1]);
    }
    TrimOfTrimmed(s);
    LowerOfLowered(s);
    KeepSlugCharsOfSlug(s);
    forall i | 0 <= i < |s| ensures !IsSpace(s[i]) {
      SlugCharNotSpace(s[i]);
    }
    SpacesToHyphensNoSpace(s);
    CollapseNoDouble(s);
  }

  lemma SlugBaseIdempotent(text: string)
    ensures SlugBase(SlugBase(text)) == SlugBase(text)
  {
    SlugBaseIsSlug(text);
    SlugBaseOfSlug(SlugBase(text));
  }

  // ---------------------------------------------------------------------------
  // slugify: the `seen` counter map

  /** `slugify` with the slug base already computed: the anchor it returns and
      the updated counter map. */
  function SlugifyBase(seen: map<string, nat>, slug: string): (string, map<string, nat>)
  {
    if slug == "" then ("", seen)
    else if slug !in seen then (slug, seen[slug := 0])
    else (slug + "-" + NatToString(seen[slug] + 1), seen[slug := seen[slug] + 1])
  }

  /** The `slugify` closure of `validateAnchor` on one cleaned heading text. */
  function Slugify(seen: map<string, nat>, text: string): (string, map<string, nat>)
  {
    SlugifyBase(seen, SlugBase(text))
  }

  /** The anchors `slugify` returns for headings with these slug bases. */
  function SlugsFrom(bases: seq<string>, seen: map<string, nat>): (r: seq<string>)
    ensures |r| == |bases|
    decreases |bases|
  {
    if bases == [] then []
    else
      var (slug, seen') := SlugifyBase(seen, bases[0]);
      [slug] + SlugsFrom(bases[1..], seen')
  }

  function Bases(texts: seq<string>): (r: seq<string>)
    ensures |r| == |texts|
  {
    Seqs.Map(SlugBase, texts)
  }

  /** The anchors registered for a file's cleaned heading texts, in order. */
  function HeadingSlugs(texts: seq<string>): (r: seq<string>)
    ensures |r| == |texts|
  {
    SlugsFrom(Bases(texts), map[])
  }

  function Count(xs: seq<string>, x: string): nat
  {
    if xs == [] then 0 else Count(xs[..|xs| - 1], x) + (if xs[|xs| - 1] == x then 1 else 0)
  }

  lemma CountSnoc(xs: seq<string>, y: string, x: string)
    ensures Count(xs + [y], x) == Count(xs, x) + (if y == x then 1 else 0)
  {
    assert (xs + [y])[..|xs|] == xs;
  }

  /** The counter map after headings with these slug bases. */
  ghost predicate SeenAfter(seen: map<string, nat>, bases: seq<string>)
  {
    (forall b :: b in seen ==> b != "" && Count(bases, b) > 0 && seen[b] == Count(bases, b) - 1)
    && (forall b :: b != "" && Count(bases, b) > 0 ==> b in seen)
  }

  /** The anchor for a heading with slug base b after c earlier headings with
      the same base. */
  function Suffixed(b: string, c: nat): string
  {
    if b == "" then "" else if c == 0 then b else b + "-" + NatToString(c)
  }

  /** The anchor the k-th heading gets: its slug base the first time that base
      occurs, and `base-c` when c earlier headings had the same base. */
  function ExpectedAt(bases: seq<string>, k: nat): string
    requires k < |bases|
  {
    Suffixed(bases[k], Count(bases[..k], bases[k]))
  }

  lemma ExpectedAtPrefix(t: seq<string>, u: seq<string>, k: nat)
    requires k < |t| <= |u| && t == u[..|t|]
    ensures ExpectedAt(t, k) == ExpectedAt(u, k)
  {
    assert t[..k] == u[..k];
    assert t[k] == u[k];
  }

  lemma SeenAfterStep(seen: map<string, nat>, bases: seq<string>, b: string)
    requires SeenAfter(seen, bases)
    ensures SeenAfter(SlugifyBase(seen, b).1, bases + [b])
    ensures SlugifyBase(seen, b).0 == Suffixed(b, Count(bases, b))
  {
    var nb := bases + [b];
    forall x ensures Count(nb, x) == Count(bases, x) + (if b == x then 1 else 0) {
      CountSnoc(bases, b, x);
    }
  }

  lemma ExpectedAtSplit(done: seq<string>, bases: seq<string>)
    requires bases != []
    ensures ExpectedAt(done + bases, |done|) == Suffixed(bases[0], Count(done, bases[0]))
  {
    assert (done + bases)[..|done|] == done;
    assert (done + bases)[|done|] == bases[0];
  }

  lemma MoveFirst<T>(a: seq<T>, xs: seq<T>)
    requires xs != []
    ensures (a + [xs[0]]) + xs[1..] == a + xs
  {
    assert xs == [xs[0]] + xs[1..];
  }

  /** With counters matching the bases already seen, slugify registers the
      expected anchors for the remaining bases. */
  lemma {:induction false} SlugsFromExpected(done: seq<string>, bases: seq<string>, seen: map<string, nat>, k: nat)
    requires SeenAfter(seen, done)
    requires k < |bases|
    ensures SlugsFrom(bases, seen)[k] == ExpectedAt(done + bases, |done| + k)
    decreases |bases|
  {
    var b := bases[0];
    SeenAfterStep(seen, done, b);
    var step := SlugifyBase(seen, b);
    assert SlugsFrom(bases, seen) == [step.0] + SlugsFrom(bases[1..], step.1);
    if k == 0 {
      ExpectedAtSplit(done, bases);
    } else {
      var done' := done + [b];
      SlugsFromExpected(done', bases[1..], step.1, k - 1);
      MoveFirst(done, bases);
      calc {
        SlugsFrom(bases, seen)[k];
        SlugsFrom(bases[1..], step.1)[k - 1];
        ExpectedAt(done' + bases[1..], |done'| + (k - 1));
        { assert |done'| + (k - 1) == |done| + k; }
        ExpectedAt(done + bases, |done| + k);
      }
    }
  }

  /** The first heading with a given slug base is registered under the bare
      base, and the c-th repeat under `base-c`; an empty base registers nothing. */
  lemma HeadingSlugsAt(texts: seq<string>, k: nat)
    requires k < |texts|
    ensures HeadingSlugs(texts)[k] == ExpectedAt(Bases(texts), k)
  {
    assert SeenAfter(map[], []);
    SlugsFromExpected([], Bases(texts), map[], k);
    assert [] + Bases(texts) == Bases(texts);
  }

  // ---------------------------------------------------------------------------
  // Ids written in the text

  predicate IsIdStart(c: char) { IsAsciiAlnum(c) }

  predicate IsIdChar(c: char) { IsAsciiAlnum(c) || c == '_' || c == '-' }

  /** Number of leading `[A-Za-z0-9_-]` characters. */
  function IdRun(s: string): (n: nat)
    ensures n <= |s|
    ensures forall i :: 0 <= i < n ==> IsIdChar(s[i])
    ensures n < |s| ==> !IsIdChar(s[n])
  {
    if s == [] || !IsIdChar(s[0]) then 0 else 1 + IdRun(s[1..])
  }

  /** `\{#([A-Za-z0-9][A-Za-z0-9_-]*)\}` at the start of s: the id and the match length. */
  function BraceIdPrefix(s: string): (r: Option<(string, nat)>)
    ensures r.Some? ==> 0 < r.value.1 <= |s| && |r.value.0| > 0
  {
    if |s| >= 3 && s[0] == '{' && s[1] == '#' && IsIdStart(s[2]) then
      var n := IdRun(s[2..]);
      if 2 + n < |s| && s[2 + n] == '}' then Some((s[2..2 + n], n + 3)) else None
    else None
  }

  /** The ids of `text.matchAll(/\{#(...)\}/g)`, in order. */
  function BraceIds(s: string): seq<string>
    decreases |s|
  {
    if s == [] then []
    else match BraceIdPrefix(s)
      case Some((id, len)) => [id] + BraceIds(s[len..])
      case None => BraceIds(s[1..])
  }

  /** The global replacement of `\s*\{#(...)\}\s*` by one space: each id
      together with the whitespace around it becomes a single space. */
  function StripBraceIds(s: string): string
    decreases |s|
  {
    if s == [] then []
    else
      var w := SpaceRun(s);
      match BraceIdPrefix(s[w..])
      case Some((_, len)) =>
        var rest := s[w + len..];
        " " + StripBraceIds(rest[SpaceRun(rest)..])
      case None => [s[0]] + StripBraceIds(s[1..])
  }

  /** The text a heading's slug is made from. */
  function CleanHeading(text: string): string
  {
    Trim(StripBraceIds(text))
  }

  /** The values of `content.matchAll(/\bid="([^"]+)"/g)` from index i on. */
  function HtmlIdsFrom(s: string, i: nat): seq<string>
    decreases |s| - i
  {
    if i >= |s| then []
    else if (i == 0 || !IsWordChar(s[i - 1])) && OccursAt(s, "id=\"", i) then
      var j := i + 4;
      var k := IndexOfChar(s[j..], '"');
      if 0 < k < |s| - j then [s[j..j + k]] + HtmlIdsFrom(s, j + k + 1)
      else HtmlIdsFrom(s, i + 1)
    else HtmlIdsFrom(s, i + 1)
  }

  /** `\{\:\s*#([A-Za-z0-9][A-Za-z0-9_-]*)\s*\}` at the start of s. */
  function KramdownIdPrefix(s: string): (r: Option<(string, nat)>)
    ensures r.Some? ==> 0 < r.value.1 <= |s| && |r.value.0| > 0
  {
    if |s| >= 2 && s[0] == '{' && s[1] == ':' then
      var a := 2 + SpaceRun(s[2..]);
      if a + 1 < |s| && s[a] == '#' && IsIdStart(s[a + 1]) then
        var b := a + 1 + IdRun(s[a + 1..]);
        var c := b + SpaceRun(s[b..]);
        if c < |s| && s[c] == '}' then Some((s[a + 1..b], c + 1)) else None
      else None
    else None
  }

  /** The ids of `content.matchAll(/\{\:\s*#(...)\s*\}/g)`, in order. */
  function KramdownIds(s: string): seq<string>
    decreases |s|
  {
    if s == [] then []
    else match KramdownIdPrefix(s)
      case Some((id, len)) => [id] + KramdownIds(s[len..])
      case None => KramdownIds(s[1..])
  }

  /** `inline.content` of every `heading_open` among the first n tokens that an
      `inline` token follows, in token order. */
  function HeadingTextsUpTo(tokens: seq<BlockToken>, n: nat): seq<string>
    requires n <= |tokens|
  {
    if n == 0 then []
    else
      var here := if tokens[n - 1].HeadingOpen? && n < |tokens| && tokens[n].Inline? then [tokens[n].content] else [];
      HeadingTextsUpTo(tokens, n - 1) + here
  }

  function HeadingTexts(tokens: seq<BlockToken>): seq<string>
  {
    HeadingTextsUpTo(tokens, |tokens|)
  }

  function CleanAll(texts: seq<string>): (r: seq<string>)
    ensures |r| == |texts|
  {
    Seqs.Map(CleanHeading, texts)
  }

  function BraceIdsOf(texts: seq<string>): seq<string>
  {
    if texts == [] then [] else BraceIdsOf(texts[..|texts| - 1]) + BraceIds(texts[|texts| - 1])
  }

  lemma BraceIdsOfSnoc(texts: seq<string>, x: string)
    ensures BraceIdsOf(texts + [x]) == BraceIdsOf(texts) + BraceIds(x)
  {
    assert (texts + [x])[..|texts|] == texts;
  }

  lemma {:induction false} IdSetAppend(a: seq<string>, b: seq<string>)
    ensures IdSet(a + b) == IdSet(a) + IdSet(b)
    decreases |b|
  {
    if b == [] {
      assert a + b == a;
    } else {
      assert (a + b)[..|a + b| - 1] == a + b[..|b| - 1];
      IdSetAppend(a, b[..|b| - 1]);
    }
  }

  /** The non-empty anchors among some slugs. */
  function SlugSet(slugs: seq<string>): (r: set<string>)
    ensures forall s :: s in r <==> s in slugs && s != ""
  {
    if slugs == [] then {}
    else SlugSet(slugs[..|slugs| - 1]) + (if slugs[|slugs| - 1] != "" then {slugs[|slugs| - 1]} else {})
  }

  /** Lowercased, trimmed, non-empty forms of some ids. */
  function IdSet(ids: seq<string>): set<string>
  {
    if ids == [] then {}
    else
      var id := Trim(ids[|ids| - 1]);
      IdSet(ids[..|ids| - 1]) + (if id != "" then {Lower(id)} else {})
  }

  /** The anchor set `validateAnchor` caches for a file with this text and tokens. */
  function AnchorSet(content: string, tokens: seq<BlockToken>): set<string>
  {
    var texts := HeadingTexts(tokens);
    IdSet(BraceIdsOf(texts))
    + SlugSet(HeadingSlugs(CleanAll(texts)))
    + IdSet(HtmlIdsFrom(content, 0))
    + IdSet(KramdownIds(content))
  }

  /** The requested anchor as it is looked up: trimmed, decoded when it decodes, lowercased. */
  function NormalizeAnchor(anchor: string): string
  {
    Lower(Percent.DecodeOrKeep(Trim(anchor)))
  }

  /** The lookup in a file's anchor set: verbatim, or after slugging. */
  predicate AnchorAccepted(anchors: set<string>, anchor: string)
  {
    var a := NormalizeAnchor(anchor);
    a in anchors || (SlugBase(a) != "" && SlugBase(a) in anchors)
  }

  lemma SuffixedSlug(b: string, n: string)
    requires IsSlug(b) && b != ""
    requires n != [] && forall i :: 0 <= i < |n| ==> IsAsciiDigit(n[i])
    ensures IsSlug(b + "-" + n)
  {
    var s := b + "-" + n;
    assert forall i :: 0 <= i < |n| ==> IsSlugChar(n[i]);
    assert forall i :: 0 <= i < |s| ==> IsSlugChar(s[i]) by {
      forall i | 0 <= i < |s| ensures IsSlugChar(s[i]) {
        if i < |b| { assert s[i] == b[i]; }
        else if i > |b| { assert s[i] == n[i - |b| - 1]; }
      }
    }
    forall i | 0 <= i < |s| - 1 ensures !(s[i] == '-' && s[i + 1] == '-') {
      if i < |b| - 1 {
        assert s[i] == b[i] && s[i + 1] == b[i + 1];
      } else if i == |b| - 1 {
        assert s[i] == b[|b| - 1];
      } else {
        assert s[i + 1] == n[i - |b|];
      }
    }
    assert s[0] == b[0];
    assert s[|s| - 1] == n[|n| - 1];
  }

  lemma SlugFormsAreSlugs(bases: seq<string>, k: nat)
    requires k < |bases|
    requires forall i :: 0 <= i < |bases| ==> IsSlug(bases[i])
    ensures IsSlug(ExpectedAt(bases, k))
  {
    var b := bases[k];
    var c := Count(bases[..k], b);
    assert IsSlug(b);
    if b != "" && c != 0 {
      SuffixedSlug(b, NatToString(c));
    }
  }

  /** One `slugify` call: the anchor is empty exactly when the slug base is,
      otherwise it is a slug beginning with the base; the counters gain the
      base as a key and no other. */
  lemma SlugifyShape(seen: map<string, nat>, text: string)
    ensures var b := SlugBase(text);
            var (a, after) := Slugify(seen, text);
            (a == "" <==> b == "")
            && IsSlug(a)
            && |b| <= |a| && a[..|b|] == b
            && after.Keys == seen.Keys + (if b == "" then {} else {b})
  {
    var b := SlugBase(text);
    SlugBaseIsSlug(text);
    if b != "" && b in seen {
      SuffixedSlug(b, NatToString(seen[b] + 1));
      var a := Slugify(seen, text).0;
      assert a == b + "-" + NatToString(seen[b] + 1);
      assert a[..|b|] == b;
    }
  }

  lemma BasesAreSlugs(texts: seq<string>)
    ensures forall i :: 0 <= i < |texts| ==> IsSlug(Bases(texts)[i])
  {
    forall i | 0 <= i < |texts| ensures IsSlug(Bases(texts)[i]) {
      Seqs.MapAt(SlugBase, texts, i);
      SlugBaseIsSlug(texts[i]);
    }
  }

  lemma SlugIsNormalized(s: string)
    requires IsSlug(s)
    ensures NormalizeAnchor(s) == s
  {
    if s != [] {
      SlugCharNotSpace(s[0]);
      SlugCharNotSpace(s[|s| - 1]);
    }
    TrimOfTrimmed(s);
    forall i | 0 <= i < |s| ensures s[i] != '%' {
      assert IsSlugChar(s[i]);
    }
    assert '%' !in s;
    Percent.DecodeWithoutPercent(s, 0);
    assert s[0..] == s;
    assert AllLowered(s);
    LowerOfLowered(s);
  }

  /** Every heading of a file can be linked by the anchor it is registered
      under (`#base` for the first, `#base-c` for the c-th repeat). */
  lemma HeadingAnchorAccepted(content: string, tokens: seq<BlockToken>, k: nat)
    requires k < |HeadingTexts(tokens)|
    requires HeadingSlugs(CleanAll(HeadingTexts(tokens)))[k] != ""
    ensures AnchorAccepted(AnchorSet(content, tokens), HeadingSlugs(CleanAll(HeadingTexts(tokens)))[k])
  {
    var cleaned := CleanAll(HeadingTexts(tokens));
    var s := HeadingSlugs(cleaned)[k];
    HeadingSlugsAt(cleaned, k);
    BasesAreSlugs(cleaned);
    SlugFormsAreSlugs(Bases(cleaned), k);
    SlugIsNormalized(s);
    assert s in HeadingSlugs(cleaned);
  }

  lemma ExpectedAtExtend(bases: seq<string>, b: string, k: nat)
    requires k < |bases|
    ensures ExpectedAt(bases + [b], k) == ExpectedAt(bases, k)
  {
    ExpectedAtPrefix(bases, bases + [b], k);
  }

  lemma HeadingTextsStep(tokens: seq<BlockToken>, i: nat)
    requires i < |tokens|
    ensures tokens[i].HeadingOpen? && i + 1 < |tokens| && tokens[i + 1].Inline?
      ==> HeadingTextsUpTo(tokens, i + 1) == HeadingTextsUpTo(tokens, i) + [tokens[i + 1].content]
    ensures !(tokens[i].HeadingOpen? && i + 1 < |tokens| && tokens[i + 1].Inline?)
      ==> HeadingTextsUpTo(tokens, i + 1) == HeadingTextsUpTo(tokens, i)
  {
  }

  lemma AnchorStep(raw: seq<string>, h: string, slugs: seq<string>, slug: string, anchors: set<string>)
    requires anchors == IdSet(BraceIdsOf(raw)) + SlugSet(slugs)
    ensures anchors + IdSet(BraceIds(h)) + (if slug != "" then {slug} else {})
      == IdSet(BraceIdsOf(raw + [h])) + SlugSet(slugs + [slug])
  {
    BraceIdsOfSnoc(raw, h);
    IdSetAppend(BraceIdsOf(raw), BraceIds(h));
    assert (slugs + [slug])[..|slugs|] == slugs;
  }

  /** Registering one more heading extends the registered anchors by the one
      `slugify` returns for it, given counters in step with the earlier headings. */
  lemma HeadingSlugsSnoc(texts: seq<string>, t: string, seen: map<string, nat>, base: string)
    requires SeenAfter(seen, Bases(texts))
    requires Bases(texts + [t]) == Bases(texts) + [base]
    ensures HeadingSlugs(texts + [t]) == HeadingSlugs(texts) + [SlugifyBase(seen, base).0]
  {
    var bases := Bases(texts);
    var slugs := HeadingSlugs(texts);
    var extended := HeadingSlugs(texts + [t]);
    SeenAfterStep(seen, bases, base);
    forall k | 0 <= k < |extended| ensures extended[k] == (slugs + [SlugifyBase(seen, base).0])[k] {
      HeadingSlugsAt(texts + [t], k);
      if k < |texts| {
        ExpectedAtExtend(bases, base, k);
        HeadingSlugsAt(texts, k);
      } else {
        ExpectedAtSplit(bases, [base]);
      }
    }
  }

  /** The state of the heading loop after the first i tokens: the `seen`
      counters match the slug bases of the headings met so far, and the
      anchors are their explicit ids and their slugs. */
  ghost predicate Collected(tokens: seq<BlockToken>, i: nat, seen: map<string, nat>, anchors: set<string>)
  {
    && i <= |tokens|
    && var raw := HeadingTextsUpTo(tokens, i);
       SeenAfter(seen, Bases(CleanAll(raw)))
       && anchors == IdSet(BraceIdsOf(raw)) + SlugSet(HeadingSlugs(CleanAll(raw)))
  }

  /** A token that does not open a heading followed by an inline token changes nothing. */
  lemma CollectSkip(tokens: seq<BlockToken>, i: nat, seen: map<string, nat>, anchors: set<string>)
    requires i < |tokens| && Collected(tokens, i, seen, anchors)
    requires !(tokens[i].HeadingOpen? && i + 1 < |tokens| && tokens[i + 1].Inline?)
    ensures Collected(tokens, i + 1, seen, anchors)
  {
    HeadingTextsStep(tokens, i);
  }

  /** A heading adds its explicit ids and its slug, and advances `seen`. */
  lemma CollectHeading(tokens: seq<BlockToken>, i: nat, seen: map<string, nat>, anchors: set<string>,
                       h: string, cleaned: string, base: string)
    requires i < |tokens| && Collected(tokens, i, seen, anchors)
    requires tokens[i].HeadingOpen? && i + 1 < |tokens| && tokens[i + 1].Inline?
    requires h == tokens[i + 1].content && cleaned == CleanHeading(h) && base == SlugBase(cleaned)
    ensures Collected(tokens, i + 1, SlugifyBase(seen, base).1,
                      anchors + IdSet(BraceIds(h)) + (if SlugifyBase(seen, base).0 != "" then {SlugifyBase(seen, base).0} else {}))
  {
    var raw := HeadingTextsUpTo(tokens, i);
    var texts := CleanAll(raw);
    HeadingTextsStep(tokens, i);
    Seqs.MapSnoc(CleanHeading, raw, h);
    Seqs.MapSnoc(SlugBase, texts, cleaned);
    SeenAfterStep(seen, Bases(texts), base);
    HeadingSlugsSnoc(texts, cleaned, seen, base);
    AnchorStep(raw, h, HeadingSlugs(texts), SlugifyBase(seen, base).0, anchors);
  }

  /** After the last token the heading anchors are complete; the ids written
      as attributes in the whole text make up the rest of the set. */
  lemma CollectDone(content: string, tokens: seq<BlockToken>, seen: map<string, nat>, anchors: set<string>)
    requires Collected(tokens, |tokens|, seen, anchors)
    ensures anchors + IdSet(HtmlIdsFrom(content, 0)) + IdSet(KramdownIds(content)) == AnchorSet(content, tokens)
  {
  }

  /** The heading loop of `validateAnchor`: gathers explicit ids and heading
      slugs (with the `seen` counters of `slugify`), then the `id="..."` and
      `{: #id}` ids of the whole text. */
  method CollectAnchors(content: string, tokens: seq<BlockToken>) returns (anchors: set<string>)
    ensures anchors == AnchorSet(content, tokens)
  {
    anchors := {};
    var seen: map<string, nat> := map[];
    var i := 0;
    while i < |tokens|
      invariant Collected(tokens, i, seen, anchors)
    {
      if tokens[i].HeadingOpen? && i + 1 < |tokens| && tokens[i + 1].Inline? {
        var headingText := tokens[i + 1].content;
        var cleaned := CleanHeading(headingText);
        var base := SlugBase(cleaned);
        CollectHeading(tokens, i, seen, anchors, headingText, cleaned, base);
        anchors := anchors + IdSet(BraceIds(headingText)) + (if SlugifyBase(seen, base).0 != "" then {SlugifyBase(seen, base).0} else {});
        seen := SlugifyBase(seen, base).1;
        assert Collected(tokens, i + 1, seen, anchors);
      } else {
        CollectSkip(tokens, i, seen, anchors);
        assert Collected(tokens, i + 1, seen, anchors);
      }
      i := i + 1;
    }
    CollectDone(content, tokens, seen, anchors);
    anchors := anchors + IdSet(HtmlIdsFrom(content, 0)) + IdSet(KramdownIds(content));
  }
}
