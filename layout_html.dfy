/** The `<img>` sources the layout-risk scanner reads from raw HTML: the
    pattern `<img\b[^>]*\bsrc\s*=\s*(?:"([^"]*)"|'([^']*)'|([^\s>]+))` with
    the `g` and `i` flags, run with `matchAll`, keeping the non-empty
    captures. The greedy `[^>]*` backtracks from the first `>` after the tag
    name, so the `src` that is used is the last one before that `>`. */
module LayoutHtml {
  import opened Wrappers
  import opened Text

  /** `c` matches the lower-case ASCII letter or symbol `l` under the `i`
      flag, which folds ASCII case only. */
  predicate Folds(c: char, l: char)
  {
    c == l || c == UpperChar(l)
  }

  /** `\b` at index i: a word character on one side only. */
  predicate Boundary(s: string, i: nat)
    requires i <= |s|
  {
    (i > 0 && IsWordChar(s[i - 1])) != (i < |s| && IsWordChar(s[i]))
  }

  /** `<img` at index p, in any case. */
  predicate TagAt(s: string, p: nat)
  {
    p + 4 <= |s| && s[p] == '<' && Folds(s[p + 1], 'i') && Folds(s[p + 2], 'm') && Folds(s[p + 3], 'g')
  }

  /** `src` at index t, in any case. */
  predicate SrcWordAt(s: string, t: nat)
  {
    t + 3 <= |s| && Folds(s[t], 's') && Folds(s[t + 1], 'r') && Folds(s[t + 2], 'c')
  }

  /** Where a match ends, and its capture. */
  datatype ImgMatch = ImgMatch(end: nat, src: string)

  /** Length of the run of `[^\s>]` at index k. */
  function UnquotedRun(s: string, k: nat): (n: nat)
    requires k <= |s|
    ensures k + n <= |s|
    ensures forall j :: k <= j < k + n ==> !IsSpace(s[j]) && s[j] != '>'
    ensures k + n < |s| ==> IsSpace(s[k + n]) || s[k + n] == '>'
    decreases |s| - k
  {
    if k == |s| || IsSpace(s[k]) || s[k] == '>' then 0 else 1 + UnquotedRun(s, k + 1)
  }

  /** Length of the run of `[^>]` at index k. */
  function OpenRun(s: string, k: nat): (n: nat)
    requires k <= |s|
    ensures k + n <= |s|
    ensures forall j :: k <= j < k + n ==> s[j] != '>'
    ensures k + n < |s| ==> s[k + n] == '>'
    decreases |s| - k
  {
    if k == |s| || s[k] == '>' then 0 else 1 + OpenRun(s, k + 1)
  }

  /** The alternatives `"([^"]*)"`, `'([^']*)'` and `([^\s>]+)` at index k,
      tried in that order; a quote with no partner falls to the third. */
  function ValueAt(s: string, k: nat): (r: Option<ImgMatch>)
    requires k <= |s|
    ensures r.Some? ==> k < r.value.end <= |s| && !IsSpace(s[k])
  {
    if k == |s| then None
    else
      var q := k + 1 + IndexOfChar(s[k + 1..], s[k]);
      if (s[k] == '"' || s[k] == '\'') && q < |s| then Some(ImgMatch(q + 1, s[k + 1..q]))
      else if !IsSpace(s[k]) && s[k] != '>' then Some(ImgMatch(k + UnquotedRun(s, k), s[k..k + UnquotedRun(s, k)]))
      else None
  }

  /** `\bsrc\s*=\s*` and a value at index t. Both `\s*` are greedy, and no
      shorter run can be followed by `=` or by a value. */
  function SrcAt(s: string, t: nat): (r: Option<ImgMatch>)
    requires t <= |s|
    ensures r.Some? ==> t < r.value.end <= |s|
  {
    if !(Boundary(s, t) && SrcWordAt(s, t)) then None
    else
      var e := t + 3 + SpaceRun(s[t + 3..]);
      if e < |s| && s[e] == '=' then ValueAt(s, e + 1 + SpaceRun(s[e + 1..])) else None
  }

  /** The match after `[^>]*` consumed `s[lo..t]` for the largest t at most
      `hi` where the rest matches. */
  function LastSrc(s: string, lo: nat, hi: nat): (r: Option<ImgMatch>)
    requires lo <= hi <= |s|
    ensures r.Some? ==> lo < r.value.end <= |s|
    decreases hi - lo
  {
    match SrcAt(s, hi)
    case Some(m) => Some(m)
    case None => if hi == lo then None else LastSrc(s, lo, hi - 1)
  }

  /** The match starting at index p, if any. */
  function ImgAt(s: string, p: nat): (r: Option<ImgMatch>)
    requires p <= |s|
    ensures r.Some? ==> p < r.value.end <= |s|
  {
    if !(TagAt(s, p) && Boundary(s, p + 4)) then None
    else LastSrc(s, p + 4, p + 4 + OpenRun(s, p + 4))
  }

  /** `matchAll` from index `from`: each match is searched for where the
      previous one ended; empty captures are dropped. */
  function SourcesFrom(s: string, from: nat): seq<string>
    requires from <= |s|
    decreases |s| - from
  {
    if from == |s| then []
    else
      match ImgAt(s, from)
      case Some(m) => (if m.src != "" then [m.src] else []) + SourcesFrom(s, m.end)
      case None => SourcesFrom(s, from + 1)
  }

  /** `extractImgSrcFromHtml`: the sources it pushes, in order. */
  function ImgSources(html: string): seq<string>
  {
    SourcesFrom(html, 0)
  }

  /** Every source it finds is non-empty. */
  lemma {:induction false} SourcesNonEmpty(s: string, from: nat)
    requires from <= |s|
    ensures forall i :: 0 <= i < |SourcesFrom(s, from)| ==> SourcesFrom(s, from)[i] != ""
    decreases |s| - from
  {
    if from < |s| {
      match ImgAt(s, from)
      case Some(m) => SourcesNonEmpty(s, m.end);
      case None => SourcesNonEmpty(s, from + 1);
    }
  }

  /** HTML without an `<img` tag, in any case, has no sources. */
  lemma {:induction false} NoTagNoSources(s: string, from: nat)
    requires from <= |s|
    requires forall p :: from <= p ==> !TagAt(s, p)
    ensures SourcesFrom(s, from) == []
    decreases |s| - from
  {
    if from < |s| {
      NoTagNoSources(s, from + 1);
    }
  }

  /** Positions above `t` where nothing matches are skipped. */
  lemma {:induction false} LastSrcSkips(s: string, lo: nat, hi: nat, t: nat)
    requires lo <= t <= hi <= |s|
    requires forall k :: t < k <= hi ==> SrcAt(s, k).None?
    ensures LastSrc(s, lo, hi) == LastSrc(s, lo, t)
    decreases hi - t
  {
    if t < hi {
      var h: nat := hi - 1;
      LastSrcStep(s, lo, hi, h);
      LastSrcSkips(s, lo, h, t);
      assert LastSrc(s, lo, hi) == LastSrc(s, lo, h) == LastSrc(s, lo, t);
    }
  }

  lemma LastSrcStep(s: string, lo: nat, hi: nat, h: nat)
    requires lo < hi <= |s| && h == hi - 1 && SrcAt(s, hi).None?
    ensures LastSrc(s, lo, hi) == LastSrc(s, lo, h)
  {
  }

  /** No `src`, in any case, inside a value. */
  predicate NoSrcWord(v: string)
  {
    forall t :: 0 <= t <= |v| ==> !SrcWordAt(v, t)
  }

  /** An `<img` tag whose attributes `pre` come before a last `src=`, the
      value text `v`, and `>`. */
  function Tag(pre: string, v: string): string
  {
    "<img" + pre + "src=" + v + ">"
  }

  /** The characters of `Tag(pre, v)`, position by position. */
  predicate IsTag(s: string, pre: string, v: string)
  {
    && |s| == |pre| + |v| + 9
    && s[0] == '<' && s[1] == 'i' && s[2] == 'm' && s[3] == 'g'
    && (forall j :: 0 <= j < |pre| ==> s[4 + j] == pre[j])
    && s[|pre| + 4] == 's' && s[|pre| + 5] == 'r' && s[|pre| + 6] == 'c' && s[|pre| + 7] == '='
    && (forall j :: 0 <= j < |v| ==> s[|pre| + 8 + j] == v[j])
    && s[|s| - 1] == '>'
  }

  lemma TagIsTag(pre: string, v: string)
    ensures IsTag(Tag(pre, v), pre, v)
  {
  }

  /** Whatever the attributes before it hold, other `src` attributes
      included, the source read is the value after the last `src=`. */
  lemma TagSourceOf(s: string, pre: string, v: string, src: string)
    requires IsTag(s, pre, v)
    requires pre != [] && !IsWordChar(pre[0]) && !IsWordChar(pre[|pre| - 1])
    requires '>' !in pre && '>' !in v && NoSrcWord(v)
    requires ValueAt(s, |pre| + 8) == Some(ImgMatch(|s| - 1, src))
    ensures SourcesFrom(s, 0) == if src == "" then [] else [src]
  {
    TagSearch(s, pre, v);
    assert s[|pre| + 3] == pre[|pre| - 1];
    SourcesOfOne(s, |pre| + 4, src);
  }

  /** A text whose only match is `src=` at index t, with its value running
      to the last character. */
  lemma SourcesOfOne(s: string, t: nat, src: string)
    requires 4 < t && t + 4 < |s| && !IsWordChar(s[t - 1])
    requires s[t] == 's' && s[t + 1] == 'r' && s[t + 2] == 'c' && s[t + 3] == '='
    requires ImgAt(s, 0) == LastSrc(s, 4, t)
    requires ValueAt(s, t + 4) == Some(ImgMatch(|s| - 1, src))
    ensures SourcesFrom(s, 0) == if src == "" then [] else [src]
  {
    SrcAtWord(s, t);
    assert LastSrc(s, 4, t) == SrcAt(s, t);
    LastCharNoSources(s);
  }

  /** `src=` after a non-word character reads the value right after `=`. */
  lemma SrcAtWord(s: string, t: nat)
    requires 0 < t && t + 4 < |s| && !IsWordChar(s[t - 1])
    requires s[t] == 's' && s[t + 1] == 'r' && s[t + 2] == 'c' && s[t + 3] == '='
    requires ValueAt(s, t + 4).Some?
    ensures SrcAt(s, t) == ValueAt(s, t + 4)
  {
    assert Boundary(s, t);
    assert s[t + 3..][0] == s[t + 3];
    assert SpaceRun(s[t + 3..]) == 0;
    assert s[t + 4..][0] == s[t + 4];
    assert SpaceRun(s[t + 4..]) == 0;
  }

  /** Nothing matches from the last character on. */
  lemma LastCharNoSources(s: string)
    requires s != []
    ensures SourcesFrom(s, |s| - 1) == []
  {
    assert !TagAt(s, |s| - 1);
    assert SourcesFrom(s, |s|) == [];
  }

  /** In a tag the search for `src` runs from the last character before `>`
      down to the last `src=`. */
  lemma TagSearch(s: string, pre: string, v: string)
    requires IsTag(s, pre, v)
    requires pre != [] && !IsWordChar(pre[0])
    requires '>' !in pre && '>' !in v && NoSrcWord(v)
    ensures ImgAt(s, 0) == LastSrc(s, 4, |pre| + 4)
  {
    var hi := |s| - 1;
    var t := |pre| + 4;
    assert s[4] == pre[0];
    assert TagAt(s, 0) && Boundary(s, 4);
    forall j | 4 <= j < hi ensures s[j] != '>' {
      if j < t {
        assert s[j] == pre[j - 4];
      } else if j >= t + 4 {
        assert s[j] == v[j - t - 4];
      }
    }
    OpenRunExact(s, 4, hi - 4);
    forall k | t < k <= hi ensures SrcAt(s, k).None? {
      NotSrcWordInTag(s, pre, v, k);
    }
    LastSrcSkips(s, 4, hi, t);
  }

  lemma NotSrcWordInTag(s: string, pre: string, v: string, k: nat)
    requires IsTag(s, pre, v) && NoSrcWord(v)
    requires |pre| + 4 < k < |s|
    ensures !SrcWordAt(s, k)
  {
    var t := |pre| + 4;
    if k >= t + 4 && k + 3 <= |s| - 1 {
      var i := k - t - 4;
      assert s[k] == v[i] && s[k + 1] == v[i + 1] && s[k + 2] == v[i + 2];
      assert !SrcWordAt(v, i);
    }
  }

  lemma {:induction false} OpenRunExact(s: string, k: nat, n: nat)
    requires k + n <= |s|
    requires forall j :: k <= j < k + n ==> s[j] != '>'
    requires k + n == |s| || s[k + n] == '>'
    ensures OpenRun(s, k) == n
    decreases n
  {
    if n > 0 {
      OpenRunExact(s, k + 1, n - 1);
    }
  }

  /** `<img … src="v">` and `<img … src='v'>` give `v` when it is not empty. */
  lemma QuotedSource(pre: string, v: string, q: char)
    requires pre != [] && !IsWordChar(pre[0]) && !IsWordChar(pre[|pre| - 1]) && '>' !in pre
    requires q == '"' || q == '\''
    requires q !in v && '>' !in v && NoSrcWord(v)
    ensures ImgSources(Tag(pre, [q] + v + [q])) == if v == "" then [] else [v]
  {
    QuotedNoSrcWord(v, q);
    TagIsTag(pre, [q] + v + [q]);
    QuotedSourceOf(Tag(pre, [q] + v + [q]), pre, v, q);
  }

  lemma QuotedSourceOf(s: string, pre: string, v: string, q: char)
    requires IsTag(s, pre, [q] + v + [q])
    requires pre != [] && !IsWordChar(pre[0]) && !IsWordChar(pre[|pre| - 1]) && '>' !in pre
    requires q == '"' || q == '\''
    requires q !in v && '>' !in [q] + v + [q] && NoSrcWord([q] + v + [q])
    ensures ImgSources(s) == if v == "" then [] else [v]
  {
    var w := [q] + v + [q];
    var k := |pre| + 8;
    assert s[k] == w[0] && s[k + |v| + 1] == w[|v| + 1];
    forall j | 0 <= j < |v| ensures s[k + 1 + j] == v[j] {
      assert s[k + 1 + j] == w[1 + j];
    }
    QuotedValue(s, k, v, q);
    TagSourceOf(s, pre, w, v);
  }

  /** Quotes around a value add no `>` and no `src`. */
  lemma QuotedNoSrcWord(v: string, q: char)
    requires q == '"' || q == '\''
    requires '>' !in v && NoSrcWord(v)
    ensures '>' !in [q] + v + [q] && NoSrcWord([q] + v + [q])
  {
    var w := [q] + v + [q];
    forall t | 0 <= t <= |w| ensures !SrcWordAt(w, t) {
      if 1 <= t && t + 3 <= |v| + 1 {
        assert w[t] == v[t - 1] && w[t + 1] == v[t] && w[t + 2] == v[t + 1];
        assert !SrcWordAt(v, t - 1);
      }
    }
  }

  /** `<img … src=v>` with an unquoted value gives `v`. */
  lemma UnquotedSource(pre: string, v: string)
    requires pre != [] && !IsWordChar(pre[0]) && !IsWordChar(pre[|pre| - 1]) && '>' !in pre
    requires v != [] && v[0] != '"' && v[0] != '\''
    requires NoSpace(v) && '>' !in v && NoSrcWord(v)
    ensures ImgSources(Tag(pre, v)) == [v]
  {
    TagIsTag(pre, v);
    UnquotedSourceOf(Tag(pre, v), pre, v);
  }

  lemma UnquotedSourceOf(s: string, pre: string, v: string)
    requires IsTag(s, pre, v)
    requires pre != [] && !IsWordChar(pre[0]) && !IsWordChar(pre[|pre| - 1]) && '>' !in pre
    requires v != [] && v[0] != '"' && v[0] != '\''
    requires NoSpace(v) && '>' !in v && NoSrcWord(v)
    ensures ImgSources(s) == [v]
  {
    UnquotedValue(s, |pre| + 8, v);
    TagSourceOf(s, pre, v, v);
  }

  /** A quoted value: the text up to the partner quote. */
  lemma QuotedValue(s: string, k: nat, v: string, q: char)
    requires q == '"' || q == '\''
    requires q !in v && k + |v| + 2 < |s| + 1
    requires s[k] == q && s[k + |v| + 1] == q
    requires forall j :: 0 <= j < |v| ==> s[k + 1 + j] == v[j]
    ensures ValueAt(s, k) == Some(ImgMatch(k + |v| + 2, v))
  {
    var rest := s[k + 1..];
    assert rest[..|v|] == v;
    IndexOfCharUnique(rest, q, |v|);
    assert s[k + 1..k + 1 + |v|] == v;
  }

  /** An unquoted value: the run of non-space characters before `>`. */
  lemma UnquotedValue(s: string, k: nat, v: string)
    requires v != [] && v[0] != '"' && v[0] != '\''
    requires NoSpace(v) && '>' !in v
    requires k + |v| < |s| && s[k + |v|] == '>'
    requires forall j :: 0 <= j < |v| ==> s[k + j] == v[j]
    ensures ValueAt(s, k) == Some(ImgMatch(k + |v|, v))
  {
    assert s[k] == v[0];
    forall j | k <= j < k + |v| ensures !IsSpace(s[j]) && s[j] != '>' {
      assert s[j] == v[j - k];
    }
    UnquotedRunExact(s, k, |v|);
    assert s[k..k + |v|] == v;
  }

  /** A `data-src` attribute after `src` is the one read:
      `<img src="a" data-src="b">` gives `b`. */
  lemma DataSrcWins(a: string, b: string)
    requires '"' !in b && '>' !in a && '>' !in b && NoSrcWord(b) && b != ""
    ensures ImgSources(Tag(" src=\"" + a + "\" data-", "\"" + b + "\"")) == [b]
  {
    var pre := " src=\"" + a + "\" data-";
    assert pre[0] == ' ' && pre[|pre| - 1] == '-';
    assert '>' !in pre by {
      forall j | 0 <= j < |pre| ensures pre[j] != '>' {
        if 6 <= j < 6 + |a| {
          assert pre[j] == a[j - 6];
        }
      }
    }
    QuotedSource(pre, b, '"');
  }

  lemma {:induction false} UnquotedRunExact(s: string, k: nat, n: nat)
    requires k + n <= |s|
    requires forall j :: k <= j < k + n ==> !IsSpace(s[j]) && s[j] != '>'
    requires k + n == |s| || IsSpace(s[k + n]) || s[k + n] == '>'
    ensures UnquotedRun(s, k) == n
    decreases n
  {
    if n > 0 {
      UnquotedRunExact(s, k + 1, n - 1);
    }
  }
}
