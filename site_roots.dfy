/** How the link checker and the layout-risk scanner find the published site
    root and the repository name, and how they strip a GitHub Pages baseurl
    (`/<repoName>/...`) from an absolute link. */
module SiteRoots {
  import opened Text
  import opened Paths

  datatype Roots = Roots(baseDir: Path, siteRootDir: Path, repoRootDir: Path, repoName: string)

  /** Root selection for a resolved scan directory: `docs/_config.yml` below it
      makes `docs` the site root; a scan of a `docs` directory holding
      `_config.yml` keeps it as the site root under its parent repository. */
  function ResolveRoots(fs: FileSystem, baseDir: Path): (r: Roots)
    ensures r.baseDir == baseDir
    ensures r.repoName == Basename(r.repoRootDir)
  {
    var docs := Join(baseDir, "docs");
    if Exists(fs, Join(docs, "_config.yml")) then Roots(baseDir, docs, baseDir, Basename(baseDir))
    else if Basename(baseDir) == "docs" && Exists(fs, Join(baseDir, "_config.yml")) then
      Roots(baseDir, baseDir, Dirname(baseDir), Basename(Dirname(baseDir)))
    else Roots(baseDir, baseDir, baseDir, Basename(baseDir))
  }

  /** The site root is either the scanned directory itself with no configuration
      found, or a `docs` directory that holds `_config.yml` directly below the
      repository root; the scanned directory is one of the two roots. */
  lemma RootsShape(fs: FileSystem, baseDir: Path)
    requires Canon(baseDir) == baseDir
    ensures var r := ResolveRoots(fs, baseDir);
      (r.siteRootDir == baseDir && r.repoRootDir == baseDir)
      || (Basename(r.siteRootDir) == "docs" && Dirname(r.siteRootDir) == r.repoRootDir
          && Exists(fs, Join(r.siteRootDir, "_config.yml")))
    ensures var r := ResolveRoots(fs, baseDir);
      baseDir == r.siteRootDir || baseDir == r.repoRootDir
  {
    assert IsName("docs");
    JoinName(baseDir, "docs");
  }

  /** Number of leading `/`. */
  function SlashRun(s: string): (n: nat)
    ensures n <= |s|
    ensures forall i :: 0 <= i < n ==> s[i] == '/'
    ensures n < |s| ==> s[n] != '/'
  {
    if s == [] || s[0] != '/' then 0 else 1 + SlashRun(s[1..])
  }

  /** The part of an absolute link below the site root: `/<repoName>` and
      `/<repoName>/` name the root itself, a `/<repoName>/` prefix is removed,
      and any other link only loses its leading slashes. */
  function RelativeFromRoot(decoded: string, repoName: string): (rel: string)
    requires StartsWith(decoded, "/")
    ensures EndsWith(decoded, rel)
  {
    var stripped := decoded[SlashRun(decoded)..];
    var normalized := "/" + stripped;
    var prefix := "/" + repoName;
    if normalized == prefix || normalized == prefix + "/" then ""
    else if StartsWith(normalized, prefix + "/") then
      assert normalized[|prefix| + 1..] == stripped[|repoName| + 1..];
      normalized[|prefix| + 1..]
    else stripped
  }

  lemma ConsInjective(c: char, a: string, b: string)
    ensures [c] + a == [c] + b <==> a == b
  {
    if [c] + a == [c] + b {
      assert a == ([c] + a)[1..];
      assert b == ([c] + b)[1..];
    }
  }

  /** The baseurl rule stated on the link without its leading slashes. */
  lemma BaseurlStripping(decoded: string, repoName: string)
    requires StartsWith(decoded, "/")
    ensures var stripped := decoded[SlashRun(decoded)..];
      (stripped == repoName || stripped == repoName + "/" ==> RelativeFromRoot(decoded, repoName) == "")
      && (StartsWith(stripped, repoName + "/") && stripped != repoName + "/"
          ==> RelativeFromRoot(decoded, repoName) == stripped[|repoName| + 1..])
      && (stripped != repoName && !StartsWith(stripped, repoName + "/")
          ==> RelativeFromRoot(decoded, repoName) == stripped)
  {
    var stripped := decoded[SlashRun(decoded)..];
    var normalized := "/" + stripped;
    var prefix := "/" + repoName;
    ConsInjective('/', stripped, repoName);
    ConsInjective('/', stripped, repoName + "/");
    assert prefix + "/" == "/" + (repoName + "/");
    assert StartsWith(normalized, prefix + "/") <==> StartsWith(stripped, repoName + "/") by {
      if StartsWith(stripped, repoName + "/") {
        assert normalized[..|prefix| + 1] == "/" + stripped[..|repoName| + 1];
      }
      if StartsWith(normalized, prefix + "/") {
        assert stripped[..|repoName| + 1] == normalized[1..|prefix| + 1];
      }
    }
  }
}
