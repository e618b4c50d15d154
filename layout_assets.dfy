/** How the layout-risk scanner turns an image source into a local file:
    the source is cleaned like a path-like link, skipped when it is empty,
    external or a template expression, and otherwise resolved against the
    site root (absolute sources, with a GitHub Pages baseurl removed) or
    against the Markdown file's directory. */
module LayoutAssets {
  import opened Wrappers
  import opened Text
  import opened Paths
  import Percent
  import SiteRoots

  /** `url.slice(1, -1).trim()` for a trimmed link wrapped in angle brackets. */
  function Unwrap(url: string): (r: string)
  {
    if |url| >= 2 && url[0] == '<' && url[|url| - 1] == '>' then Trim(url[1..|url| - 1]) else url
  }

  /** The link before its fragment and then before its query string. */
  function Cut(url: string): (r: string)
  {
    BeforeChar(BeforeChar(url, '#'), '?')
  }

  /** `normalizePathLikeLink`: trimmed, unwrapped from angle brackets, cut
      before the first `#` and then before the first `?`, percent-decoded
      when it decodes, and trimmed again. */
  function CleanLink(raw: string): (r: string)
  {
    Trim(Percent.DecodeOrKeep(Cut(Unwrap(Trim(raw)))))
  }

  lemma BeforeCharWhole(s: string, c: char)
    requires c !in s
    ensures BeforeChar(s, c) == s
  {
    IndexOfCharUnique(s, c, |s|);
  }

  /** Text before the first `c` of a concatenation whose left part has no `c`. */
  lemma BeforeCharPast(s: string, t: string, c: char)
    requires c !in s
    ensures BeforeChar(s + t, c) == s + BeforeChar(t, c)
  {
    var k := IndexOfChar(t, c);
    var u := s + t;
    assert u[..|s| + k] == s + t[..k];
    IndexOfCharUnique(u, c, |s| + k);
  }

  /** Trimmed text with no escape decodes and trims to itself. */
  lemma DecodePlain(s: string)
    requires IsTrimmed(s) && '%' !in s
    ensures Trim(Percent.DecodeOrKeep(s)) == s
  {
    Percent.DecodeWithoutPercent(s, 0);
    assert s[0..] == s;
    TrimOfTrimmed(s);
  }

  /** A trimmed link that does not start with `<` is not unwrapped. */
  lemma UnwrapPlain(s: string)
    requires IsTrimmed(s) && (s == [] || s[0] != '<')
    ensures Unwrap(Trim(s)) == s
  {
    TrimOfTrimmed(s);
  }

  /** A trimmed link with no fragment, query, escape or leading angle
      bracket is its own cleaned form. */
  lemma CleanPlainLink(s: string)
    requires IsTrimmed(s) && '#' !in s && '?' !in s && '%' !in s
    requires s == [] || s[0] != '<'
    ensures CleanLink(s) == s
  {
    UnwrapPlain(s);
    BeforeCharWhole(s, '#');
    BeforeCharWhole(s, '?');
    DecodePlain(s);
  }

  /** Cutting a link at a `#` or `?` after a part holding neither keeps that part. */
  lemma CutSuffix(s: string, sep: char, tail: string)
    requires sep == '#' || sep == '?'
    requires '#' !in s && '?' !in s
    ensures Cut(s + [sep] + tail) == s
  {
    var u := s + [sep] + tail;
    assert u == s + ([sep] + tail);
    BeforeCharPast(s, [sep] + tail, '#');
    if sep == '#' {
      assert BeforeChar([sep] + tail, '#') == [];
      BeforeCharWhole(s, '?');
    } else {
      BeforeCharPast([sep], tail, '#');
      var w := [sep] + BeforeChar(tail, '#');
      assert BeforeChar(u, '#') == s + w;
      BeforeCharPast(s, w, '?');
      assert BeforeChar(w, '?') == [];
    }
  }

  /** A fragment or a query string is dropped, whatever it holds. */
  lemma CleanDropsSuffix(s: string, sep: char, tail: string)
    requires sep == '#' || sep == '?'
    requires s != [] && IsTrimmed(s) && '#' !in s && '?' !in s && '%' !in s && s[0] != '<'
    requires tail == [] || !IsSpace(tail[|tail| - 1])
    ensures CleanLink(s + [sep] + tail) == s
  {
    var u := s + [sep] + tail;
    assert u[0] == s[0];
    assert u[|u| - 1] == if tail == [] then sep else tail[|tail| - 1];
    UnwrapPlain(u);
    CutSuffix(s, sep, tail);
    DecodePlain(s);
  }

  /** Angle brackets around a link are dropped, unless what they hold is
      itself wrapped in a pair. */
  lemma CleanUnwraps(s: string)
    requires var t := Trim(s); !(|t| >= 2 && t[0] == '<' && t[|t| - 1] == '>')
    ensures CleanLink("<" + s + ">") == CleanLink(s)
  {
    var u := "<" + s + ">";
    var t := Trim(s);
    assert u[0] == '<' && u[|u| - 1] == '>';
    TrimOfTrimmed(u);
    assert Unwrap(u) == t by {
      assert u[1..|u| - 1] == s;
    }
    assert Unwrap(t) == t;
    assert CleanLink(u) == Trim(Percent.DecodeOrKeep(Cut(t)));
    assert CleanLink(s) == Trim(Percent.DecodeOrKeep(Cut(t)));
  }

  /** `isExternalUrl`. */
  predicate IsExternalAsset(url: string)
  {
    StartsWith(url, "http://") || StartsWith(url, "https://") || StartsWith(url, "mailto:") || StartsWith(url, "data:")
  }

  /** Whether an image source names a file to look at: it is not empty after
      cleaning, not external, and holds no Liquid `{{` or `{%`. */
  predicate IsStatic(cleaned: string)
  {
    cleaned != "" && !IsExternalAsset(cleaned) && !Contains(cleaned, "{{") && !Contains(cleaned, "{%")
  }

  /** `resolveLocalAssetPath`: the file an image source names, if any. */
  function AssetPath(url: string, sourceFile: Path, roots: SiteRoots.Roots): (r: Option<Path>)
    ensures r.Some? <==> IsStatic(CleanLink(url))
  {
    AssetOf(CleanLink(url), sourceFile, roots)
  }

  /** The file a cleaned source names: below the site root for an absolute
      one, next to the Markdown file otherwise. */
  function AssetOf(cleaned: string, sourceFile: Path, roots: SiteRoots.Roots): (r: Option<Path>)
    ensures r.Some? <==> IsStatic(cleaned)
  {
    if !IsStatic(cleaned) then None
    else if cleaned[0] == '/' then
      Some(Join(roots.siteRootDir, SiteRoots.RelativeFromRoot(cleaned, roots.repoName)))
    else Some(Resolve(Dirname(sourceFile), cleaned))
  }

  /** An absolute source under the baseurl `/<repoName>/` is looked up below
      the site root without that prefix. */
  lemma AssetUnderBaseurl(cleaned: string, sourceFile: Path, roots: SiteRoots.Roots, rest: string)
    requires roots.repoName != [] && roots.repoName[0] != '/'
    requires cleaned == "/" + roots.repoName + "/" + rest
    requires !Contains(cleaned, "{{") && !Contains(cleaned, "{%")
    ensures AssetOf(cleaned, sourceFile, roots) == Some(Join(roots.siteRootDir, rest))
  {
    var name := roots.repoName;
    assert !IsExternalAsset(cleaned) by {
      assert cleaned[..1] == "/";
    }
    assert SiteRoots.SlashRun(cleaned) == 1 by {
      assert cleaned[1] == name[0];
      assert SiteRoots.SlashRun(cleaned[1..]) == 0;
    }
    var stripped := cleaned[1..];
    assert stripped == name + "/" + rest;
    assert StartsWith(stripped, name + "/") by {
      assert stripped[..|name| + 1] == name + "/";
    }
    assert StartsWith(cleaned, "/") by {
      assert cleaned[..1] == "/";
    }
    SiteRoots.BaseurlStripping(cleaned, name);
    assert stripped[|name| + 1..] == rest;
    if stripped == name + "/" {
      assert rest == [];
    }
    assert stripped != name;
  }

  /** A relative source is resolved against the Markdown file's directory. */
  lemma AssetRelative(url: string, sourceFile: Path, roots: SiteRoots.Roots)
    requires IsStatic(CleanLink(url)) && CleanLink(url)[0] != '/'
    ensures AssetPath(url, sourceFile, roots) == Some(Resolve(Dirname(sourceFile), CleanLink(url)))
  {
    assert AssetPath(url, sourceFile, roots) == AssetOf(CleanLink(url), sourceFile, roots);
  }
}
