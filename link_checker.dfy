/** The `LinkChecker` class of `scripts/check-links.js`: its result lists, its
    two caches (external check results by URL, anchor sets by file) and the
    methods that fill them. Each method is proved to give the verdicts of
    the cache-free definitions in module LinkCheck. */
module LinkChecking {
  import opened Wrappers
  import opened Text
  import opened Paths
  import opened Tokens
  import opened LinkCheck
  import Anchors
  import SiteRoots
  import Percent
  import JsMap
  import Seqs

  /** A cached anchor set is the one built from that Markdown file's text. */
  ghost predicate AnchorCacheEntry(fs: FileSystem, parse: Tokenizer, file: Path, anchors: set<string>)
  {
    EndsWith(file, ".md") && ReadFile(fs, file).Ok?
    && anchors == Anchors.AnchorSet(ReadFile(fs, file).value, parse(ReadFile(fs, file).value))
  }

  /** What `checkFile` adds to `fileLinks`: nothing when the file cannot be
      read or has no links, else its relative name with its checked links. */
  function FileEntries(env: Env, baseDir: Path, file: Path): (r: Log)
    ensures |r| <= 1
  {
    match ReadFile(env.fs, file)
    case Err(_) => []
    case Ok(c) =>
      var links := LinksOf(env.parse(c));
      if links == [] then [] else [(RelativeName(baseDir, file), CheckedLinks(env, file, links))]
  }

  /** What `checkFile` adds to `fileErrors`. */
  function ReadErrors(fs: FileSystem, baseDir: Path, file: Path): (r: seq<FileError>)
    ensures |r| <= 1
  {
    match ReadFile(fs, file)
    case Err(m) => [FileError(RelativeName(baseDir, file), m)]
    case Ok(_) => []
  }

  /** `fileLinks.set` for each recorded file. */
  function Record(fileLinks: JsMap.Entries<string, seq<CheckedLink>>, entries: Log): JsMap.Entries<string, seq<CheckedLink>>
    decreases |entries|
  {
    if entries == [] then fileLinks
    else Record(JsMap.Set(fileLinks, entries[0].0, entries[0].1), entries[1..])
  }

  lemma {:induction false} RecordAppend(fileLinks: JsMap.Entries<string, seq<CheckedLink>>, a: Log, b: Log)
    ensures Record(fileLinks, a + b) == Record(Record(fileLinks, a), b)
    decreases |a|
  {
    if a == [] {
      assert a + b == b;
    } else {
      assert (a + b)[0] == a[0] && (a + b)[1..] == a[1..] + b;
      RecordAppend(JsMap.Set(fileLinks, a[0].0, a[0].1), a[1..], b);
    }
  }

  /** The results a scan of these files records, in order. */
  function RunLog(env: Env, baseDir: Path, files: seq<Path>): Log
  {
    if files == [] then [] else RunLog(env, baseDir, files[..|files| - 1]) + FileEntries(env, baseDir, files[|files| - 1])
  }

  /** The read errors a scan of these files records, in order. */
  function RunErrors(fs: FileSystem, baseDir: Path, files: seq<Path>): seq<FileError>
  {
    if files == [] then [] else RunErrors(fs, baseDir, files[..|files| - 1]) + ReadErrors(fs, baseDir, files[|files| - 1])
  }

  /** Each result is its link with the verdict `validateLink` gives it. */
  ghost predicate Checks(env: Env, file: Path, links: seq<Link>, results: seq<CheckedLink>)
  {
    && |results| == |links|
    && forall i {:trigger links[i]} :: 0 <= i < |links| ==>
         results[i] == CheckedLink(links[i], LinkVerdict(env, file, links[i].url))
  }

  lemma ChecksIff(env: Env, file: Path, links: seq<Link>, results: seq<CheckedLink>)
    ensures Checks(env, file, links, results) <==> results == CheckedLinks(env, file, links)
  {
    if Checks(env, file, links, results) {
      Seqs.MapPointwise(CheckOne(env, file), links, results);
    }
    if results == CheckedLinks(env, file, links) {
      forall i | 0 <= i < |links|
        ensures results[i] == CheckedLink(links[i], LinkVerdict(env, file, links[i].url))
      {
        Seqs.MapAt(CheckOne(env, file), links, i);
      }
    }
  }

  /** The number of entries `checkFile` adds to `fileLinks`. */
  function EntryCount(fs: FileSystem, parse: Tokenizer, file: Path): (n: nat)
    ensures n <= 1
  {
    match ReadFile(fs, file)
    case Err(_) => 0
    case Ok(c) => if LinksOf(parse(c)) == [] then 0 else 1
  }

  /** `entries` is what `checkFile` adds to `fileLinks` for this file. */
  ghost predicate FileRecorded(env: Env, baseDir: Path, file: Path, entries: Log)
  {
    && |entries| == EntryCount(env.fs, env.parse, file)
    && (entries != [] ==>
          && ReadFile(env.fs, file).Ok?
          && entries[0].0 == RelativeName(baseDir, file)
          && Checks(env, file, LinksOf(env.parse(ReadFile(env.fs, file).value)), entries[0].1))
  }

  lemma FileRecordedIff(env: Env, baseDir: Path, file: Path, entries: Log)
    ensures FileRecorded(env, baseDir, file, entries) <==> entries == FileEntries(env, baseDir, file)
  {
    match ReadFile(env.fs, file)
    case Err(_) =>
    case Ok(c) =>
      ChecksIff(env, file, LinksOf(env.parse(c)), if entries == [] then [] else entries[0].1);
  }

  /** Recording more files adds their broken links and warnings after the earlier ones. */
  lemma LogAppend(log: Log, entries: Log)
    ensures BrokenOfLog(log + entries) == BrokenOfLog(log) + BrokenOfLog(entries)
    ensures WarningsOfLog(log + entries) == WarningsOfLog(log) + WarningsOfLog(entries)
  {
    BrokenLogAppend(log, entries);
    WarningsLogAppend(log, entries);
  }

  lemma {:induction false} BrokenLogAppend(log: Log, entries: Log)
    ensures BrokenOfLog(log + entries) == BrokenOfLog(log) + BrokenOfLog(entries)
    decreases |entries|
  {
    if entries == [] {
      assert log + entries == log;
    } else {
      var init, last := entries[..|entries| - 1], entries[|entries| - 1];
      var all := log + entries;
      assert all[..|all| - 1] == log + init && all[|all| - 1] == last;
      BrokenLogAppend(log, init);
      var b := BrokenOf(last.0, last.1);
      assert BrokenOfLog(all) == (BrokenOfLog(log) + BrokenOfLog(init)) + b;
      assert BrokenOfLog(entries) == BrokenOfLog(init) + b;
    }
  }

  lemma {:induction false} WarningsLogAppend(log: Log, entries: Log)
    ensures WarningsOfLog(log + entries) == WarningsOfLog(log) + WarningsOfLog(entries)
    decreases |entries|
  {
    if entries == [] {
      assert log + entries == log;
    } else {
      var init, last := entries[..|entries| - 1], entries[|entries| - 1];
      var all := log + entries;
      assert all[..|all| - 1] == log + init && all[|all| - 1] == last;
      WarningsLogAppend(log, init);
      var w := WarningsOf(last.0, last.1);
      assert WarningsOfLog(all) == (WarningsOfLog(log) + WarningsOfLog(init)) + w;
      assert WarningsOfLog(entries) == WarningsOfLog(init) + w;
    }
  }

  /** `generateReport().summary` from the checker's lists. */
  function Summarize(fileLinks: JsMap.Entries<string, seq<CheckedLink>>, broken: seq<LinkReport>,
                     warnings: seq<LinkReport>, errors: seq<FileError>): Summary
  {
    Summary(|fileLinks|, JsMap.TotalLength(fileLinks), |broken|, |warnings|, |errors|,
            |broken| == 0 && |errors| == 0)
  }

  /** A run succeeds exactly when every checked link was valid and every file
      could be read; failed external checks do not count against it. */
  lemma SummarySuccess(fileLinks: JsMap.Entries<string, seq<CheckedLink>>, log: Log, errors: seq<FileError>)
    ensures Summarize(fileLinks, BrokenOfLog(log), WarningsOfLog(log), errors).success
      <==> LogValid(log) && errors == []
  {
    NoBrokenIffLogValid(log);
  }

  /** The checker's result lists and caches as values: `brokenLinks`,
      `externalWarnings`, `checkedLinks` (external results by URL), `fileLinks`,
      `fileErrors` and `anchorCache` (anchor sets by file). */
  datatype State = State(brokenLinks: seq<LinkReport>, externalWarnings: seq<LinkReport>,
                         checkedLinks: map<string, ExternalCheck>,
                         fileLinks: JsMap.Entries<string, seq<CheckedLink>>,
                         fileErrors: seq<FileError>, anchorCache: map<Path, set<string>>)

  /** The caches hold what fresh checks give (`fetched` lists the URLs fetched
      so far, in order), the files of `fileLinks` are distinct, and the broken
      and warning lists are those of `log`, the files whose links were checked. */
  ghost predicate StateValid(fs: FileSystem, parse: Tokenizer, net: Network, s: State, fetched: seq<string>, log: Log)
  {
    && UrlCacheValid(net, s.checkedLinks, fetched)
    && AnchorCacheValid(fs, parse, s.anchorCache)
    && JsMap.DistinctKeys(s.fileLinks)
    && s.brokenLinks == BrokenOfLog(log)
    && s.externalWarnings == WarningsOfLog(log)
  }

  class LinkChecker {
    const fs: FileSystem
    const parse: Tokenizer
    const net: Network
    var checkExternal: bool
    /** The site root and the repository name; "" until `checkDirectory` sets them. */
    var siteRootDir: Path
    var repoName: string
    var brokenLinks: seq<LinkReport>
    var externalWarnings: seq<LinkReport>
    var checkedLinks: map<string, ExternalCheck>
    var fileLinks: JsMap.Entries<string, seq<CheckedLink>>
    var fileErrors: seq<FileError>
    var anchorCache: map<Path, set<string>>
    /** The URLs fetched so far, in order. */
    ghost var fetched: seq<string>
    /** Every file whose links were checked, with its results, in order. */
    ghost var log: Log

    /** Each cached external result is what a fresh check gives, and each URL was fetched once. */
    ghost predicate UrlsValid()
      reads this`checkedLinks, this`fetched
    {
      UrlCacheValid(net, checkedLinks, fetched)
    }

    /** Each cached anchor set is the one its file yields. */
    ghost predicate AnchorsValid()
      reads this`anchorCache
    {
      AnchorCacheValid(fs, parse, anchorCache)
    }

    /** The checker's fields as a value. */
    function StateOf(): State
      reads this`brokenLinks, this`externalWarnings, this`checkedLinks, this`fileLinks, this`fileErrors, this`anchorCache
    {
      State(brokenLinks, externalWarnings, checkedLinks, fileLinks, fileErrors, anchorCache)
    }

    /** The result lists are those of the files checked so far. */
    ghost predicate Valid()
      reads this`brokenLinks, this`externalWarnings, this`checkedLinks, this`fileLinks, this`fileErrors,
            this`anchorCache, this`fetched, this`log
    {
      StateValid(fs, parse, net, StateOf(), fetched, log)
    }

    constructor(fs: FileSystem, parse: Tokenizer, net: Network)
      ensures this.fs == fs && this.parse == parse && this.net == net
      ensures !checkExternal && siteRootDir == "" && repoName == ""
      ensures brokenLinks == [] && externalWarnings == [] && fileErrors == [] && fileLinks == []
      ensures checkedLinks == map[] && anchorCache == map[] && fetched == [] && log == []
      ensures Valid()
    {
      this.fs := fs;
      this.parse := parse;
      this.net := net;
      checkExternal := false;
      siteRootDir := "";
      repoName := "";
      brokenLinks := [];
      externalWarnings := [];
      checkedLinks := map[];
      fileLinks := [];
      fileErrors := [];
      anchorCache := map[];
      fetched := [];
      log := [];
    }

    /** The settings `validateLink` sees for a scan of `baseDir`: an unset site
        root or repository name falls back to `baseDir` and its basename. */
    function EnvFor(baseDir: Path): Env
      reads this`checkExternal, this`siteRootDir, this`repoName
    {
      Env(fs, parse, net, checkExternal,
          if siteRootDir == "" then baseDir else siteRootDir,
          if repoName == "" then Basename(baseDir) else repoName)
    }

    /** `validateAnchor`: the cached anchor set of a Markdown file is built once. */
    method ValidateAnchor(filePath: Path, anchor: string) returns (r: Result<bool, string>)
      requires AnchorsValid()
      modifies this`anchorCache
      ensures AnchorsValid()
      ensures r == AnchorLookup(fs, parse, filePath, anchor)
      ensures anchorCache == CachedAfter(fs, parse, old(anchorCache), filePath)
    {
      var cache;
      r, cache := LookupAnchor(fs, parse, anchorCache, filePath, anchor);
      anchorCache := cache;
    }

    /** `validateLink`: an external URL is fetched at most once while external
        checking is on; every other kind of link leaves the URL cache alone. */
    method ValidateLink(link: Link, sourceFile: Path, baseDir: Path) returns (v: Verdict)
      requires UrlsValid() && AnchorsValid()
      modifies this`anchorCache, this`checkedLinks, this`fetched
      ensures UrlsValid() && AnchorsValid()
      ensures v == LinkVerdict(EnvFor(baseDir), sourceFile, link.url)
      ensures var fetch := Classify(link.url) == External && checkExternal && link.url !in old(checkedLinks);
        && fetched == old(fetched) + (if fetch then [link.url] else [])
        && checkedLinks == (if fetch then old(checkedLinks)[link.url := CheckExternalUrl(net, link.url)] else old(checkedLinks))
    {
      var c, a;
      ghost var f;
      v, c, f, a := ValidateLinkIn(EnvFor(baseDir), checkedLinks, fetched, anchorCache, sourceFile, link.url);
      checkedLinks, fetched, anchorCache := c, f, a;
    }

    /** `checkFile`: a read error is recorded; otherwise every link is validated
        and filed as broken, as a warning, or neither, and the file's results
        are set in `fileLinks`. */
    method CheckFile(filePath: Path, baseDir: Path)
      requires Valid()
      modifies this`brokenLinks, this`externalWarnings, this`checkedLinks, this`fileLinks, this`fileErrors,
               this`anchorCache, this`fetched, this`log
      ensures Valid()
      ensures fileErrors == old(fileErrors) + ReadErrors(fs, baseDir, filePath)
      ensures |log| >= |old(log)| && log[..|old(log)|] == old(log)
      ensures FileRecorded(EnvFor(baseDir), baseDir, filePath, log[|old(log)|..])
      ensures fileLinks == Record(old(fileLinks), log[|old(log)|..])
    {
      var s;
      ghost var f, l;
      s, f, l := CheckFileInto(EnvFor(baseDir), baseDir, filePath, StateOf(), fetched, log);
      SetState(s, f, l);
    }

    /** Stores a state computed on values in the fields. */
    method SetState(s: State, ghost f: seq<string>, ghost l: Log)
      modifies this`brokenLinks, this`externalWarnings, this`checkedLinks, this`fileLinks, this`fileErrors,
               this`anchorCache, this`fetched, this`log
      ensures StateOf() == s && fetched == f && log == l
    {
      brokenLinks, externalWarnings, checkedLinks := s.brokenLinks, s.externalWarnings, s.checkedLinks;
      fileLinks, fileErrors, anchorCache := s.fileLinks, s.fileErrors, s.anchorCache;
      fetched, log := f, l;
    }

    /** `generateReport().summary`. */
    function Report(): Summary
      reads this
    {
      Summarize(fileLinks, brokenLinks, externalWarnings, fileErrors)
    }

    /** `checkDirectory` on the files the glob found: roots first, then every
        file in order, then the report. */
    method CheckDirectory(cwd: Path, directory: string, files: seq<Path>, checkExternalOption: bool)
      returns (report: Summary)
      requires Valid()
      modifies this
      ensures Valid()
      ensures var roots := SiteRoots.ResolveRoots(fs, Resolve(cwd, directory));
        checkExternal == checkExternalOption && siteRootDir == roots.siteRootDir && repoName == roots.repoName
      ensures log == old(log) + RunLog(EnvFor(Resolve(cwd, directory)), Resolve(cwd, directory), files)
      ensures fileErrors == old(fileErrors) + RunErrors(fs, Resolve(cwd, directory), files)
      ensures fileLinks == Record(old(fileLinks), RunLog(EnvFor(Resolve(cwd, directory)), Resolve(cwd, directory), files))
      ensures report == Report()
    {
      var baseDir := SetRoots(cwd, directory, checkExternalOption);
      ghost var env := EnvFor(baseDir);
      CheckAll(baseDir, files);
      assert EnvFor(baseDir) == env;
      report := Report();
    }

    /** The settings `checkDirectory` fixes before the first file. */
    method SetRoots(cwd: Path, directory: string, checkExternalOption: bool) returns (baseDir: Path)
      modifies this`checkExternal, this`siteRootDir, this`repoName
      ensures baseDir == Resolve(cwd, directory)
      ensures var roots := SiteRoots.ResolveRoots(fs, baseDir);
        checkExternal == checkExternalOption && siteRootDir == roots.siteRootDir && repoName == roots.repoName
    {
      checkExternal := checkExternalOption;
      baseDir := Resolve(cwd, directory);
      var roots := SiteRoots.ResolveRoots(fs, baseDir);
      siteRootDir := roots.siteRootDir;
      repoName := roots.repoName;
    }

    /** Every file in order, with the settings already fixed. */
    method CheckAll(baseDir: Path, files: seq<Path>)
      requires Valid()
      modifies this`brokenLinks, this`externalWarnings, this`checkedLinks, this`fileLinks, this`fileErrors,
               this`anchorCache, this`fetched, this`log
      ensures Valid()
      ensures log == old(log) + RunLog(EnvFor(baseDir), baseDir, files)
      ensures fileErrors == old(fileErrors) + RunErrors(fs, baseDir, files)
      ensures fileLinks == Record(old(fileLinks), RunLog(EnvFor(baseDir), baseDir, files))
    {
      var s;
      ghost var f, l;
      s, f, l := CheckFiles(EnvFor(baseDir), baseDir, files, StateOf(), fetched, log);
      SetState(s, f, l);
    }
  }

  /** Every cached external result is the one a fresh check would give, the
      cached URLs are the fetched ones, and none was fetched twice. */
  ghost predicate UrlCacheValid(net: Network, checked: map<string, ExternalCheck>, fetched: seq<string>)
  {
    && (forall u :: u in checked ==> checked[u] == CheckExternalUrl(net, u))
    && (forall u :: u in checked <==> u in fetched)
    && Seqs.Distinct(fetched)
  }

  ghost predicate AnchorCacheValid(fs: FileSystem, parse: Tokenizer, cache: map<Path, set<string>>)
  {
    forall f :: f in cache ==> AnchorCacheEntry(fs, parse, f, cache[f])
  }

  /** Fetching a URL not yet cached and caching its result keeps the URL cache valid. */
  lemma FetchUrl(net: Network, checked: map<string, ExternalCheck>, fetched: seq<string>, url: string)
    requires UrlCacheValid(net, checked, fetched) && url !in checked
    ensures UrlCacheValid(net, checked[url := CheckExternalUrl(net, url)], fetched + [url])
  {
    Seqs.DistinctSnoc(fetched, url);
  }

  lemma CacheAnchors(fs: FileSystem, parse: Tokenizer, cache: map<Path, set<string>>, file: Path, anchors: set<string>)
    requires AnchorCacheValid(fs, parse, cache)
    requires EndsWith(file, ".md") && ReadFile(fs, file).Ok?
    requires anchors == Anchors.AnchorSet(ReadFile(fs, file).value, parse(ReadFile(fs, file).value))
    ensures AnchorCacheValid(fs, parse, cache[file := anchors])
  {
  }

  /** A lookup in a valid cache entry is `validateAnchor`'s answer. */
  lemma LookupCached(fs: FileSystem, parse: Tokenizer, cache: map<Path, set<string>>, file: Path, anchor: string)
    requires AnchorCacheValid(fs, parse, cache) && file in cache
    ensures AnchorLookup(fs, parse, file, anchor) == Ok(Anchors.AnchorAccepted(cache[file], anchor))
  {
  }

  /** The anchor cache after a lookup in `file`: a readable Markdown file not
      yet cached gets its anchor set. */
  function CachedAfter(fs: FileSystem, parse: Tokenizer, cache: map<Path, set<string>>, file: Path): map<Path, set<string>>
  {
    if EndsWith(file, ".md") && file !in cache && ReadFile(fs, file).Ok?
    then cache[file := Anchors.AnchorSet(ReadFile(fs, file).value, parse(ReadFile(fs, file).value))]
    else cache
  }

  /** `validateAnchor` on an explicit cache: the anchor set of a Markdown file
      is built at most once and then looked up. */
  method LookupAnchor(fs: FileSystem, parse: Tokenizer, cache: map<Path, set<string>>, filePath: Path, anchor: string)
    returns (r: Result<bool, string>, cache': map<Path, set<string>>)
    requires AnchorCacheValid(fs, parse, cache)
    ensures AnchorCacheValid(fs, parse, cache')
    ensures r == AnchorLookup(fs, parse, filePath, anchor)
    ensures cache' == CachedAfter(fs, parse, cache, filePath)
  {
    if !EndsWith(filePath, ".md") {
      return Ok(true), cache;
    }
    var got;
    got, cache' := CachedAnchors(fs, parse, cache, filePath);
    CachedAfterLookup(fs, parse, cache, filePath, got, cache');
    if got.Err? {
      return Err(got.error), cache';
    }
    LookupCached(fs, parse, cache', filePath, anchor);
    var anchors := got.value;
    var normalized := Anchors.NormalizeAnchor(anchor);
    var alt := Anchors.SlugBase(normalized);
    r := Ok(normalized in anchors || (alt != "" && alt in anchors));
  }

  /** The anchor set of a Markdown file: from the cache, or built from the
      file's text and cached. */
  method CachedAnchors(fs: FileSystem, parse: Tokenizer, cache: map<Path, set<string>>, filePath: Path)
    returns (r: Result<set<string>, string>, cache': map<Path, set<string>>)
    requires AnchorCacheValid(fs, parse, cache) && EndsWith(filePath, ".md")
    ensures AnchorCacheValid(fs, parse, cache')
    ensures cache' == if filePath in cache || r.Err? then cache else cache[filePath := r.value]
    ensures r.Ok? ==> filePath in cache' && r.value == cache'[filePath]
    ensures r.Err? ==> ReadFile(fs, filePath) == Err(r.error) && filePath !in cache
  {
    if filePath in cache {
      return Ok(cache[filePath]), cache;
    }
    var read := ReadFile(fs, filePath);
    if read.Err? {
      return Err(read.error), cache;
    }
    var anchors := BuildAnchors(fs, parse, filePath, read.value);
    CacheAnchors(fs, parse, cache, filePath, anchors);
    cache' := cache[filePath := anchors];
    r := Ok(anchors);
  }

  /** The cache `CachedAnchors` returns is `CachedAfter`'s. */
  lemma CachedAfterLookup(fs: FileSystem, parse: Tokenizer, cache: map<Path, set<string>>, filePath: Path,
                          r: Result<set<string>, string>, cache': map<Path, set<string>>)
    requires AnchorCacheValid(fs, parse, cache') && EndsWith(filePath, ".md")
    requires r.Ok? ==> filePath in cache' && r.value == cache'[filePath]
    requires r.Err? ==> ReadFile(fs, filePath) == Err(r.error) && filePath !in cache
    requires cache' == if filePath in cache || r.Err? then cache else cache[filePath := r.value]
    ensures cache' == CachedAfter(fs, parse, cache, filePath)
  {
  }

  /** Builds the anchor set of a readable Markdown file. */
  method BuildAnchors(fs: FileSystem, parse: Tokenizer, filePath: Path, content: string) returns (anchors: set<string>)
    requires ReadFile(fs, filePath) == Ok(content)
    ensures anchors == Anchors.AnchorSet(ReadFile(fs, filePath).value, parse(ReadFile(fs, filePath).value))
  {
    anchors := Anchors.CollectAnchors(content, parse(content));
  }

  /** The internal-link part of `validateLink`: the target path is worked out,
      then looked for on disk, then its anchor is checked. */
  method CheckInternalLink(env: Env, cache: map<Path, set<string>>, sourceFile: Path, url: string)
    returns (v: Verdict, cache': map<Path, set<string>>)
    requires AnchorCacheValid(env.fs, env.parse, cache)
    ensures AnchorCacheValid(env.fs, env.parse, cache') && cache'.Keys >= cache.Keys
    ensures v == InternalVerdict(env, sourceFile, url)
  {
    cache' := cache;
    var targetPath, anchor := ResolveTarget(env, sourceFile, url);
    var located := LocateTarget(env.fs, targetPath);
    if located.None? {
      return Verdict(false, InternalResult, Some("File not found"), None), cache';
    }
    var t := IndexOfDirectory(env.fs, located.value);
    if anchor != "" {
      var found;
      found, cache' := LookupAnchor(env.fs, env.parse, cache, t, anchor);
      match found {
        case Err(m) =>
          return Verdict(false, ErrorResult, Some(m), None), cache';
        case Ok(ok) =>
          if !ok {
            return Verdict(false, AnchorResult, Some(NotFound(anchor)), None), cache';
          }
      }
    }
    return Verdict(true, InternalResult, None, None), cache';
  }

  /** The path and anchor an internal link names: decoded, resolved against
      the site root or the linking file's directory, and split at a `#` left
      in the path. */
  method ResolveTarget(env: Env, sourceFile: Path, url: string) returns (targetPath: Path, anchor: string)
    ensures (targetPath, anchor) == SplitTarget(TargetOf(env, sourceFile, DecodedPath(url)), url)
  {
    var sourceDir := Dirname(sourceFile);
    var urlPath := UrlPath(url);
    var decodedPath := Percent.DecodeOrKeep(urlPath);
    decodedPath := StripAngles(decodedPath);
    if StartsWith(decodedPath, "/") {
      var relativeFromRoot := SiteRoots.RelativeFromRoot(decodedPath, env.repoName);
      targetPath := Join(env.siteRoot, relativeFromRoot);
    } else {
      targetPath := Resolve(sourceDir, decodedPath);
    }
    if '#' in targetPath {
      anchor := HashPart(targetPath);
      targetPath := BeforeChar(targetPath, '#');
    } else {
      anchor := HashPart(url);
    }
  }

  /** The candidates `validateLink` tries for a target, in order. */
  method LocateTarget(fs: FileSystem, targetPath: Path) returns (r: Option<Path>)
    ensures r == Locate(fs, targetPath)
  {
    if Exists(fs, targetPath) {
      return Some(targetPath);
    }
    if Extname(targetPath) == "" {
      if Exists(fs, targetPath + ".md") {
        return Some(targetPath + ".md");
      }
      if Exists(fs, targetPath + ".html") {
        return Some(targetPath + ".html");
      }
    }
    var indexMd := Join(targetPath, "index.md");
    if Exists(fs, indexMd) {
      return Some(indexMd);
    }
    var indexHtml := Join(targetPath, "index.html");
    if Exists(fs, indexHtml) {
      return Some(indexHtml);
    }
    return None;
  }

  /** A directory that was found stands for its index file when it has one. */
  method IndexOfDirectory(fs: FileSystem, targetPath: Path) returns (t: Path)
    ensures t == DirectoryIndex(fs, targetPath)
  {
    t := targetPath;
    var stat := Stat(fs, targetPath);
    if stat == Some(Directory) {
      if Exists(fs, Join(targetPath, "index.md")) {
        t := Join(targetPath, "index.md");
      } else if Exists(fs, Join(targetPath, "index.html")) {
        t := Join(targetPath, "index.html");
      }
    }
  }

  /** `extractLinks`: the links of the page's inline tokens, in order. */
  method ExtractLinks(parse: Tokenizer, content: string) returns (links: seq<Link>)
    ensures links == LinksOf(parse(content))
  {
    var tokens := parse(content);
    links := [];
    for t := 0 to |tokens|
      invariant links == LinksUpTo(tokens, t)
    {
      var found := TokenLinksOf(tokens[t]);
      links := links + found;
    }
  }

  /** The links of one block token: those of the children of an `inline` token. */
  method TokenLinksOf(token: BlockToken) returns (found: seq<Link>)
    ensures found == TokenLinks(token)
  {
    found := [];
    if token.Inline? && token.children.Some? {
      found := InlineLinks(token.children.value, LineOf(token.mapLine));
    }
  }

  /** `checkFile` on explicit caches: what it adds to `fileLinks` (as a log),
      to `fileErrors`, to `brokenLinks` and to `externalWarnings`. */
  method CheckFileIn(env: Env, checked: map<string, ExternalCheck>, ghost fetched: seq<string>,
                     anchors: map<Path, set<string>>, baseDir: Path, filePath: Path)
    returns (entries: Log, errors: seq<FileError>, broken: seq<LinkReport>, warnings: seq<LinkReport>,
             checked': map<string, ExternalCheck>, ghost fetched': seq<string>, anchors': map<Path, set<string>>)
    requires UrlCacheValid(env.net, checked, fetched) && AnchorCacheValid(env.fs, env.parse, anchors)
    ensures UrlCacheValid(env.net, checked', fetched') && AnchorCacheValid(env.fs, env.parse, anchors')
    ensures errors == ReadErrors(env.fs, baseDir, filePath)
    ensures FileRecorded(env, baseDir, filePath, entries)
    ensures broken == BrokenOfLog(entries) && warnings == WarningsOfLog(entries)
  {
    checked', fetched', anchors' := checked, fetched, anchors;
    entries, errors, broken, warnings := [], [], [], [];
    var read := ReadFile(env.fs, filePath);
    var rel := RelativeName(baseDir, filePath);
    if read.Err? {
      errors := [FileError(rel, read.error)];
      return;
    }
    var links := ExtractLinks(env.parse, read.value);
    if |links| == 0 {
      return;
    }
    var results;
    results, broken, warnings, checked', fetched', anchors' := ScanLinks(env, checked, fetched, anchors, filePath, rel, links);
    entries := [(rel, results)];
    assert entries[..0] == [];
  }

  /** Setting the recorded entries keeps the keys of `fileLinks` distinct. */
  lemma {:induction false} RecordDistinct(fileLinks: JsMap.Entries<string, seq<CheckedLink>>, entries: Log)
    requires JsMap.DistinctKeys(fileLinks)
    ensures JsMap.DistinctKeys(Record(fileLinks, entries))
    decreases |entries|
  {
    if entries != [] {
      JsMap.SetDistinct(fileLinks, entries[0].0, entries[0].1);
      RecordDistinct(JsMap.Set(fileLinks, entries[0].0, entries[0].1), entries[1..]);
    }
  }

  /** `checkFile` on a state: the file's entries are added to the lists. */
  method CheckFileInto(env: Env, baseDir: Path, filePath: Path, s: State, ghost fetched: seq<string>, ghost log: Log)
    returns (s': State, ghost fetched': seq<string>, ghost log': Log)
    requires StateValid(env.fs, env.parse, env.net, s, fetched, log)
    ensures StateValid(env.fs, env.parse, env.net, s', fetched', log')
    ensures s'.fileErrors == s.fileErrors + ReadErrors(env.fs, baseDir, filePath)
    ensures |log'| >= |log| && log'[..|log|] == log
    ensures FileRecorded(env, baseDir, filePath, log'[|log|..])
    ensures s'.fileLinks == Record(s.fileLinks, log'[|log|..])
  {
    var entries, errors, broken, warnings, checked, anchors;
    entries, errors, broken, warnings, checked, fetched', anchors :=
      CheckFileIn(env, s.checkedLinks, fetched, s.anchorCache, baseDir, filePath);
    var fileLinks := s.fileLinks;
    if entries != [] {
      fileLinks := JsMap.Set(fileLinks, entries[0].0, entries[0].1);
    }
    RecordOne(s.fileLinks, entries);
    s' := State(s.brokenLinks + broken, s.externalWarnings + warnings, checked, fileLinks,
                s.fileErrors + errors, anchors);
    log' := log + entries;
    AddEntries(env.fs, env.parse, env.net, s, fetched, log, entries, s', fetched');
    assert log'[|log|..] == entries;
  }

  /** Recording at most one entry is one `fileLinks.set`. */
  lemma RecordOne(fileLinks: JsMap.Entries<string, seq<CheckedLink>>, entries: Log)
    requires |entries| <= 1
    ensures Record(fileLinks, entries) == if entries == [] then fileLinks else JsMap.Set(fileLinks, entries[0].0, entries[0].1)
  {
    if entries != [] {
      assert entries[1..] == [];
    }
  }

  /** Adding a file's entries to the lists, with caches that are still valid, keeps the state valid. */
  lemma AddEntries(fs: FileSystem, parse: Tokenizer, net: Network, s: State, fetched: seq<string>, log: Log,
                   entries: Log, s': State, fetched': seq<string>)
    requires StateValid(fs, parse, net, s, fetched, log)
    requires UrlCacheValid(net, s'.checkedLinks, fetched') && AnchorCacheValid(fs, parse, s'.anchorCache)
    requires s'.brokenLinks == s.brokenLinks + BrokenOfLog(entries)
    requires s'.externalWarnings == s.externalWarnings + WarningsOfLog(entries)
    requires s'.fileLinks == Record(s.fileLinks, entries)
    ensures StateValid(fs, parse, net, s', fetched', log + entries)
  {
    LogAppend(log, entries);
    RecordDistinct(s.fileLinks, entries);
  }

  /** The loop of `checkDirectory`: every file in order. */
  method CheckFiles(env: Env, baseDir: Path, files: seq<Path>, s: State, ghost fetched: seq<string>, ghost log: Log)
    returns (s': State, ghost fetched': seq<string>, ghost log': Log)
    requires StateValid(env.fs, env.parse, env.net, s, fetched, log)
    ensures StateValid(env.fs, env.parse, env.net, s', fetched', log')
    ensures log' == log + RunLog(env, baseDir, files)
    ensures s'.fileErrors == s.fileErrors + RunErrors(env.fs, baseDir, files)
    ensures s'.fileLinks == Record(s.fileLinks, RunLog(env, baseDir, files))
  {
    s', fetched', log' := s, fetched, log;
    var i := 0;
    while i < |files|
      invariant 0 <= i <= |files|
      invariant StateValid(env.fs, env.parse, env.net, s', fetched', log')
      invariant log' == log + RunLog(env, baseDir, files[..i])
      invariant s'.fileErrors == s.fileErrors + RunErrors(env.fs, baseDir, files[..i])
      invariant s'.fileLinks == Record(s.fileLinks, RunLog(env, baseDir, files[..i]))
    {
      ghost var before := log';
      ghost var errors := s'.fileErrors;
      s', fetched', log' := CheckFileInto(env, baseDir, files[i], s', fetched', log');
      RunStep(env, baseDir, files, i, log, before, log');
      RunErrorsStep(env.fs, baseDir, files, i, s.fileErrors, errors, s'.fileErrors);
      RecordAppend(s.fileLinks, RunLog(env, baseDir, files[..i]), log'[|before|..]);
      i := i + 1;
    }
    assert files[..|files|] == files;
  }

  lemma RunLogStep(env: Env, baseDir: Path, files: seq<Path>, i: nat)
    requires i < |files|
    ensures RunLog(env, baseDir, files[..i + 1]) == RunLog(env, baseDir, files[..i]) + FileEntries(env, baseDir, files[i])
  {
    assert files[..i + 1][..i] == files[..i];
  }

  /** One more file extends the run's read errors by that file's. */
  lemma RunErrorsStep(fs: FileSystem, baseDir: Path, files: seq<Path>, i: nat,
                      errors0: seq<FileError>, before: seq<FileError>, after: seq<FileError>)
    requires i < |files|
    requires before == errors0 + RunErrors(fs, baseDir, files[..i])
    requires after == before + ReadErrors(fs, baseDir, files[i])
    ensures after == errors0 + RunErrors(fs, baseDir, files[..i + 1])
  {
    assert files[..i + 1][..i] == files[..i];
  }

  /** One more file extends the run's log by that file's entries. */
  lemma RunStep(env: Env, baseDir: Path, files: seq<Path>, i: nat, log0: Log, before: Log, after: Log)
    requires i < |files|
    requires before == log0 + RunLog(env, baseDir, files[..i])
    requires |after| >= |before| && after[..|before|] == before
    requires FileRecorded(env, baseDir, files[i], after[|before|..])
    ensures after == log0 + RunLog(env, baseDir, files[..i + 1])
    ensures RunLog(env, baseDir, files[..i + 1]) == RunLog(env, baseDir, files[..i]) + after[|before|..]
  {
    var entries := after[|before|..];
    FileRecordedIff(env, baseDir, files[i], entries);
    RunLogStep(env, baseDir, files, i);
    ExtendLog(log0, RunLog(env, baseDir, files[..i]), before, after, entries);
  }

  /** A log that starts with `before` is `before` and what follows. */
  lemma ExtendLog(log0: Log, run: Log, before: Log, after: Log, entries: Log)
    requires before == log0 + run
    requires |after| >= |before| && after[..|before|] == before && entries == after[|before|..]
    ensures after == log0 + (run + entries)
  {
    assert after == before + entries;
  }

  /** `validateLink` on explicit caches: an external URL is fetched at most
      once while external checking is on; every other kind of link leaves
      the URL cache alone. */
  method ValidateLinkIn(env: Env, checked: map<string, ExternalCheck>, ghost fetched: seq<string>,
                        anchors: map<Path, set<string>>, sourceFile: Path, url: string)
    returns (v: Verdict, checked': map<string, ExternalCheck>, ghost fetched': seq<string>,
             anchors': map<Path, set<string>>)
    requires UrlCacheValid(env.net, checked, fetched) && AnchorCacheValid(env.fs, env.parse, anchors)
    ensures UrlCacheValid(env.net, checked', fetched') && AnchorCacheValid(env.fs, env.parse, anchors')
    ensures v == LinkVerdict(env, sourceFile, url)
    ensures var fetch := Classify(url) == External && env.checkExternal && url !in checked;
      && fetched' == fetched + (if fetch then [url] else [])
      && checked' == (if fetch then checked[url := CheckExternalUrl(env.net, url)] else checked)
  {
    checked', fetched', anchors' := checked, fetched, anchors;
    if StartsWith(url, "#") {
      var r;
      r, anchors' := LookupAnchor(env.fs, env.parse, anchors, sourceFile, url[1..]);
      v := match r
        case Err(m) => Verdict(false, ErrorResult, Some("Failed to validate anchor #" + url[1..] + ": " + m), None)
        case Ok(found) => if found then Verdict(true, AnchorResult, None, None)
                          else Verdict(false, AnchorResult, Some(NotFound(url[1..])), None);
    } else if StartsWith(url, "http://") || StartsWith(url, "https://") {
      if !env.checkExternal {
        v := Verdict(true, ExternalResult, None, None);
      } else if url in checked {
        v := Verdict(true, ExternalResult, checked[url].reason, Some(checked[url].ok));
      } else {
        var result := CheckExternalUrl(env.net, url);
        FetchUrl(env.net, checked, fetched, url);
        checked', fetched' := checked[url := result], fetched + [url];
        v := Verdict(true, ExternalResult, result.reason, Some(result.ok));
      }
    } else if StartsWith(url, "mailto:") {
      v := Verdict(true, EmailResult, None, None);
    } else {
      v, anchors' := CheckInternalLink(env, anchors, sourceFile, url);
    }
  }

  /** The loop of `checkFile` on explicit caches: each link is validated in
      order and filed as broken, as a warning, or neither. */
  method ScanLinks(env: Env, checked: map<string, ExternalCheck>, ghost fetched: seq<string>,
                   anchors: map<Path, set<string>>, file: Path, rel: string, links: seq<Link>)
    returns (results: seq<CheckedLink>, broken: seq<LinkReport>, warnings: seq<LinkReport>,
             checked': map<string, ExternalCheck>, ghost fetched': seq<string>, anchors': map<Path, set<string>>)
    requires UrlCacheValid(env.net, checked, fetched) && AnchorCacheValid(env.fs, env.parse, anchors)
    ensures UrlCacheValid(env.net, checked', fetched') && AnchorCacheValid(env.fs, env.parse, anchors')
    ensures Checks(env, file, links, results)
    ensures broken == BrokenOf(rel, results) && warnings == WarningsOf(rel, results)
  {
    checked', fetched', anchors' := checked, fetched, anchors;
    results, broken, warnings := [], [], [];
    var k := 0;
    while k < |links|
      invariant UrlCacheValid(env.net, checked', fetched') && AnchorCacheValid(env.fs, env.parse, anchors')
      invariant Scanned(VerdictOf(env, file), rel, links, k, results, broken, warnings)
    {
      var link := links[k];
      var v;
      v, checked', fetched', anchors' := ValidateLinkIn(env, checked', fetched', anchors', file, link.url);
      ScanStep(VerdictOf(env, file), rel, links, k, results, broken, warnings, v);
      results := results + [CheckedLink(link, v)];
      if !v.valid {
        broken := broken + [LinkReport(rel, link.line, link.column, link.url, link.text, v.reason)];
      } else if v.kind == ExternalResult && v.externalOk == Some(false) {
        warnings := warnings + [LinkReport(rel, link.line, link.column, link.url, link.text, v.reason)];
      }
      k := k + 1;
    }
  }

  /** The verdict `validateLink` gives each URL of `file`. */
  function VerdictOf(env: Env, file: Path): string -> Verdict
  {
    (url: string) => LinkVerdict(env, file, url)
  }

  /** The first k links of a file have been given their verdicts in `results`,
      and the broken and warning lists hold their entries. */
  ghost predicate Scanned(verdict: string -> Verdict, rel: string, links: seq<Link>, k: nat, results: seq<CheckedLink>,
                          broken: seq<LinkReport>, warnings: seq<LinkReport>)
  {
    && k <= |links| && |results| == k
    && (forall i {:trigger links[i]} :: 0 <= i < k ==> results[i] == CheckedLink(links[i], verdict(links[i].url)))
    && broken == BrokenOf(rel, results)
    && warnings == WarningsOf(rel, results)
  }

  lemma ScanStep(verdict: string -> Verdict, rel: string, links: seq<Link>, k: nat, results: seq<CheckedLink>,
                 broken: seq<LinkReport>, warnings: seq<LinkReport>, v: Verdict)
    requires Scanned(verdict, rel, links, k, results, broken, warnings)
    requires k < |links| && v == verdict(links[k].url)
    ensures var l := links[k];
      var report := LinkReport(rel, l.line, l.column, l.url, l.text, v.reason);
      Scanned(verdict, rel, links, k + 1, results + [CheckedLink(l, v)],
              broken + (if !v.valid then [report] else []),
              warnings + (if v.valid && v.kind == ExternalResult && v.externalOk == Some(false) then [report] else []))
  {
    var c := CheckedLink(links[k], v);
    BrokenOfSnoc(rel, results, c);
    WarningsOfSnoc(rel, results, c);
  }

  lemma BrokenOfSnoc(rel: string, results: seq<CheckedLink>, c: CheckedLink)
    ensures BrokenOf(rel, results + [c]) == BrokenOf(rel, results) + (if IsBroken(c.verdict) then [ReportOf(rel, c)] else [])
  {
    var r := results + [c];
    assert r[..|r| - 1] == results;
  }

  lemma WarningsOfSnoc(rel: string, results: seq<CheckedLink>, c: CheckedLink)
    ensures WarningsOf(rel, results + [c]) == WarningsOf(rel, results) + (if IsWarning(c.verdict) then [ReportOf(rel, c)] else [])
  {
    var r := results + [c];
    assert r[..|r| - 1] == results;
  }

  /** The inner loop of `extractLinks` over one inline token's children. */
  method InlineLinks(children: seq<InlineToken>, line: nat) returns (links: seq<Link>)
    ensures links == ChildLinksUpTo(children, line, |children|)
  {
    links := [];
    for i := 0 to |children|
      invariant links == ChildLinksUpTo(children, line, i)
    {
      var found := ChildLinkAt(children, i, line);
      links := links + found;
    }
  }

  /** The link child i makes, if any: a `link_open` with an `href` (its text
      runs to the next `link_close`), or an `image` with a `src`. */
  method ChildLinkAt(children: seq<InlineToken>, i: nat, line: nat) returns (found: seq<Link>)
    requires i < |children|
    ensures found == ChildLink(children, i, line)
  {
    var child := children[i];
    if child.LinkOpen? && child.href != "" {
      var text := LinkTextFrom(children, i + 1);
      found := [Link(line, 1, Trim(text), Trim(child.href))];
    } else if child.ImageToken? && child.src != "" {
      found := [Link(line, 1, Trim(child.content), Trim(child.src))];
    } else {
      found := [];
    }
  }

  /** The text of a link whose `link_open` is just before `lo`: everything up
      to the next `link_close`. */
  method LinkTextFrom(children: seq<InlineToken>, lo: nat) returns (text: string)
    requires 0 < lo <= |children|
    ensures text == LinkText(children, lo - 1)
  {
    text := "";
    var j := lo;
    while j < |children| && !children[j].LinkClose?
      invariant lo <= j <= |children|
      invariant forall k :: lo <= k < j ==> !children[k].LinkClose?
      invariant text == TextBetween(children, lo, j)
    {
      text := text + TextOf(children[j]);
      j := j + 1;
    }
    CloseIndexAt(children, lo, j);
  }

  lemma {:induction false} CloseIndexAt(children: seq<InlineToken>, lo: nat, j: nat)
    requires lo <= j <= |children|
    requires forall k :: lo <= k < j ==> !children[k].LinkClose?
    requires j == |children| || children[j].LinkClose?
    ensures CloseIndex(children, lo) == j
    decreases j - lo
  {
    if lo < j {
      CloseIndexAt(children, lo + 1, j);
    }
  }
}
