/** The decision procedure of `scripts/check-links.js`: which links a page
    holds, how each URL is classified and resolved, and what verdict it gets.
    Everything here is a function of the file system, the tokenizer and the
    network; the `LinkChecker` class in link_checker.dfy computes the same
    verdicts step by step through its caches. */
module LinkCheck {
  import opened Wrappers
  import opened Text
  import opened Paths
  import opened Tokens
  import Percent
  import Anchors
  import SiteRoots
  import Seqs

  // ---------------------------------------------------------------------------
  // Links of a page (`extractLinks`)

  datatype Link = Link(line: nat, column: nat, text: string, url: string)

  /** What one child between `link_open` and `link_close` adds to the link text. */
  function TextOf(t: InlineToken): string
  {
    match t
    case TextToken(c) => c
    case CodeInline(c) => c
    case ImageToken(_, c) => c
    case _ => ""
  }

  /** Index of the first `link_close` at or after `from`, or the number of children. */
  function CloseIndex(children: seq<InlineToken>, from: nat): (k: nat)
    requires from <= |children|
    ensures from <= k <= |children|
    ensures forall j :: from <= j < k ==> !children[j].LinkClose?
    ensures k < |children| ==> children[k].LinkClose?
    decreases |children| - from
  {
    if from == |children| || children[from].LinkClose? then from else CloseIndex(children, from + 1)
  }

  /** The text contributions of children[from..to], concatenated. */
  function TextBetween(children: seq<InlineToken>, lo: nat, hi: nat): string
    requires lo <= hi <= |children|
    decreases hi
  {
    if hi == lo then "" else TextBetween(children, lo, hi - 1) + TextOf(children[hi - 1])
  }

  /** The text of the link opened by child i. */
  function LinkText(children: seq<InlineToken>, i: nat): string
    requires i < |children|
  {
    TextBetween(children, i + 1, CloseIndex(children, i + 1))
  }

  /** The link child i of an inline token on `line` yields: a `link_open` with a
      non-empty `href`, or an `image` with a non-empty `src`. */
  function ChildLink(children: seq<InlineToken>, i: nat, line: nat): seq<Link>
    requires i < |children|
  {
    match children[i]
    case LinkOpen(href) => if href == "" then [] else [Link(line, 1, Trim(LinkText(children, i)), Trim(href))]
    case ImageToken(src, content) => if src == "" then [] else [Link(line, 1, Trim(content), Trim(src))]
    case _ => []
  }

  function ChildLinksUpTo(children: seq<InlineToken>, line: nat, n: nat): seq<Link>
    requires n <= |children|
  {
    if n == 0 then [] else ChildLinksUpTo(children, line, n - 1) + ChildLink(children, n - 1, line)
  }

  /** `token.map[0] + 1`, or 1 without a source map. */
  function LineOf(mapLine: Option<nat>): (line: nat)
    ensures line >= 1
  {
    match mapLine
    case Some(m) => m + 1
    case None => 1
  }

  /** The links of one block token: only `inline` tokens with children have any. */
  function TokenLinks(t: BlockToken): seq<Link>
  {
    if t.Inline? && t.children.Some? then ChildLinksUpTo(t.children.value, LineOf(t.mapLine), |t.children.value|)
    else []
  }

  function LinksUpTo(tokens: seq<BlockToken>, n: nat): seq<Link>
    requires n <= |tokens|
  {
    if n == 0 then [] else LinksUpTo(tokens, n - 1) + TokenLinks(tokens[n - 1])
  }

  /** The links `extractLinks` returns for a token stream, in order. */
  function LinksOf(tokens: seq<BlockToken>): seq<Link>
  {
    LinksUpTo(tokens, |tokens|)
  }

  /** A child that makes a link. */
  predicate IsLinkChild(t: InlineToken)
  {
    (t.LinkOpen? && t.href != "") || (t.ImageToken? && t.src != "")
  }

  function LinkChildCount(children: seq<InlineToken>): nat
  {
    if children == [] then 0
    else LinkChildCount(children[..|children| - 1]) + (if IsLinkChild(children[|children| - 1]) then 1 else 0)
  }

  /** The number of link-making children of the inline tokens with children. */
  function LinkCount(tokens: seq<BlockToken>): nat
  {
    if tokens == [] then 0
    else
      var t := tokens[|tokens| - 1];
      var here := if t.Inline? && t.children.Some? then LinkChildCount(t.children.value) else 0;
      LinkCount(tokens[..|tokens| - 1]) + here
  }

  /** A well-formed link record: column 1, a line from 1 on, and trimmed text and URL. */
  predicate WellFormed(l: Link)
  {
    l.column == 1 && l.line >= 1 && IsTrimmed(l.url) && IsTrimmed(l.text)
  }

  lemma {:induction false} ChildLinksShape(children: seq<InlineToken>, line: nat, n: nat)
    requires n <= |children| && line >= 1
    ensures |ChildLinksUpTo(children, line, n)| == LinkChildCount(children[..n])
    ensures forall l :: l in ChildLinksUpTo(children, line, n) ==> WellFormed(l)
  {
    if n > 0 {
      ChildLinksShape(children, line, n - 1);
      assert children[..n][..n - 1] == children[..n - 1];
      match children[n - 1]
      case LinkOpen(href) =>
        TrimmedShape(LinkText(children, n - 1));
        TrimmedShape(href);
      case ImageToken(src, content) =>
        TrimmedShape(content);
        TrimmedShape(src);
      case _ =>
    }
  }

  /** One link record per `link_open` with an `href` and per `image` with a
      `src`, each well formed; a page without such tokens (footnote references,
      say) has no links. */
  lemma {:induction false} LinksShape(tokens: seq<BlockToken>, n: nat)
    requires n <= |tokens|
    ensures |LinksUpTo(tokens, n)| == LinkCount(tokens[..n])
    ensures forall l :: l in LinksUpTo(tokens, n) ==> WellFormed(l)
  {
    if n > 0 {
      LinksShape(tokens, n - 1);
      assert tokens[..n][..n - 1] == tokens[..n - 1];
      var t := tokens[n - 1];
      if t.Inline? && t.children.Some? {
        var ch := t.children.value;
        ChildLinksShape(ch, LineOf(t.mapLine), |ch|);
        assert ch[..|ch|] == ch;
      }
    }
  }

  /** A token with no children of its own that make links adds no links. */
  lemma NoLinkChildrenNoLinks(tokens: seq<BlockToken>)
    requires LinkCount(tokens) == 0
    ensures LinksOf(tokens) == []
  {
    LinksShape(tokens, |tokens|);
    assert tokens[..|tokens|] == tokens;
  }

  // ---------------------------------------------------------------------------
  // Classification

  datatype LinkKind = SameFileAnchor | External | Email | Internal

  /** First match in this order: `#`, `http://` or `https://`, `mailto:`, anything else. */
  function Classify(url: string): LinkKind
  {
    if StartsWith(url, "#") then SameFileAnchor
    else if StartsWith(url, "http://") || StartsWith(url, "https://") then External
    else if StartsWith(url, "mailto:") then Email
    else Internal
  }

  /** The `type` field of a result. */
  datatype ResultType = AnchorResult | ErrorResult | ExternalResult | EmailResult | InternalResult

  /** The result `validateLink` returns; `externalOk` is set only by a real external check. */
  datatype Verdict = Verdict(valid: bool, kind: ResultType, reason: Option<string>, externalOk: Option<bool>)

  // ---------------------------------------------------------------------------
  // External links (`checkExternalUrl`)

  /** What one request gives: a response with a status, an abort by the
      timeout, or another failure with its message. */
  datatype Probe = Response(status: int) | Aborted | Failed(message: string)

  /** The network as the checker sees it: whether `fetch` exists, and what HEAD
      and GET requests to each URL give. */
  datatype Network = Network(fetchAvailable: bool, head: string -> Probe, get: string -> Probe)

  datatype ExternalCheck = ExternalCheck(ok: bool, reason: Option<string>)

  /** `response.ok`. */
  predicate OkStatus(status: int)
  {
    200 <= status <= 299
  }

  /** The statuses after which a HEAD request is repeated as GET. */
  predicate RetryWithGet(status: int)
  {
    status == 400 || status == 403 || status == 405 || status == 501
  }

  /** The request whose outcome decides: the GET retry after one of the
      retry statuses, otherwise the HEAD request. */
  function DecidingProbe(net: Network, url: string): Probe
  {
    var first := net.head(url);
    if first.Response? && RetryWithGet(first.status) then net.get(url) else first
  }

  /** The reason of a failed check: `HTTP <status>`, `timeout` after an
      abort, or the error's message. */
  function FailureReason(p: Probe): string
  {
    match p
    case Response(s) => "HTTP " + IntToString(s)
    case Aborted => "timeout"
    case Failed(m) => m
  }

  /** HEAD first; only the four retry statuses fall back to GET, whose outcome
      then decides. */
  function CheckExternalUrl(net: Network, url: string): (r: ExternalCheck)
    ensures !net.fetchAvailable ==> r == ExternalCheck(true, Some("fetch is not available"))
    ensures net.fetchAvailable ==>
      (r.ok <==>
        ((net.head(url).Response? && OkStatus(net.head(url).status))
         || (net.head(url).Response? && RetryWithGet(net.head(url).status)
             && net.get(url).Response? && OkStatus(net.get(url).status))))
    ensures net.fetchAvailable ==> (r.ok <==> r.reason.None?)
    ensures net.fetchAvailable && net.head(url).Aborted? ==> r.reason == Some("timeout")
    ensures net.fetchAvailable && !r.ok ==> r.reason == Some(FailureReason(DecidingProbe(net, url)))
  {
    if !net.fetchAvailable then ExternalCheck(true, Some("fetch is not available"))
    else
      var first := net.head(url);
      if first.Response? && OkStatus(first.status) then ExternalCheck(true, None)
      else if first.Response? && RetryWithGet(first.status) then
        var second := net.get(url);
        if second.Response? && OkStatus(second.status) then ExternalCheck(true, None)
        else ExternalCheck(false, Some(FailureReason(second)))
      else ExternalCheck(false, Some(FailureReason(first)))
  }

  /** The verdict of an http(s) link; external failures are warnings, never broken links. */
  function ExternalVerdict(checkExternal: bool, c: ExternalCheck): (v: Verdict)
    ensures v.valid && v.kind == ExternalResult
    ensures v.externalOk.Some? <==> checkExternal
  {
    if !checkExternal then Verdict(true, ExternalResult, None, None)
    else Verdict(true, ExternalResult, c.reason, Some(c.ok))
  }

  // ---------------------------------------------------------------------------
  // Internal links

  /** `url.split('#', 2)[1]`: the text between the first `#` and the next, or
      "" when there is no `#` (both are falsy). */
  function HashPart(url: string): (h: string)
    ensures '#' !in h
  {
    var k := IndexOfChar(url, '#');
    if k == |url| then "" else BeforeChar(url[k + 1..], '#')
  }

  /** The path part: before the first `#`, before the first `?`, trimmed. */
  function UrlPath(url: string): string
  {
    Trim(BeforeChar(BeforeChar(url, '#'), '?'))
  }

  /** `<...>` around the whole path is dropped and the inside trimmed (a
      single character cannot both start with `<` and end with `>`). */
  function StripAngles(d: string): (r: string)
    ensures |r| <= |d|
    ensures r != d ==> StartsWith(d, "<") && EndsWith(d, ">")
  {
    if |d| >= 2 && d[0] == '<' && d[|d| - 1] == '>' then
      TrimmedShape(d[1..|d| - 1]);
      Trim(d[1..|d| - 1])
    else d
  }

  /** The decoded path of an internal link. */
  function DecodedPath(url: string): string
  {
    StripAngles(Percent.DecodeOrKeep(UrlPath(url)))
  }

  /** The settings `validateLink` reads besides the link: the file system, the
      tokenizer, the network, whether external links are checked, the site root
      and the repository name (both already defaulted to the scan directory). */
  datatype Env = Env(fs: FileSystem, parse: Tokenizer, net: Network, checkExternal: bool,
                     siteRoot: Path, repoName: string)

  /** An absolute link is taken below the site root after baseurl stripping; a
      relative one is resolved against the directory of the linking file. */
  function TargetOf(env: Env, sourceFile: Path, d: string): Path
  {
    if StartsWith(d, "/") then Join(env.siteRoot, SiteRoots.RelativeFromRoot(d, env.repoName))
    else Resolve(Dirname(sourceFile), d)
  }

  /** A `#` left in the resolved path (one written as `%23`) splits off the
      anchor; otherwise the anchor is the URL's `#` part. */
  function SplitTarget(target: Path, url: string): (Path, string)
  {
    if '#' in target then (BeforeChar(target, '#'), HashPart(target)) else (target, HashPart(url))
  }

  /** The first existing candidate: the path itself; then, for a path without
      an extension only, `.md` and `.html` appended; then `index.md` and
      `index.html` inside it. */
  function Locate(fs: FileSystem, p: Path): (r: Option<Path>)
    ensures r.Some? ==> Exists(fs, r.value)
    ensures r.Some? ==> r.value in [p, p + ".md", p + ".html", Join(p, "index.md"), Join(p, "index.html")]
    ensures r.None? <==>
      (!Exists(fs, p) && (Extname(p) == "" ==> !Exists(fs, p + ".md") && !Exists(fs, p + ".html"))
       && !Exists(fs, Join(p, "index.md")) && !Exists(fs, Join(p, "index.html")))
    ensures Exists(fs, p) ==> r == Some(p)
  {
    if Exists(fs, p) then Some(p)
    else if Extname(p) == "" && Exists(fs, p + ".md") then Some(p + ".md")
    else if Extname(p) == "" && Exists(fs, p + ".html") then Some(p + ".html")
    else if Exists(fs, Join(p, "index.md")) then Some(Join(p, "index.md"))
    else if Exists(fs, Join(p, "index.html")) then Some(Join(p, "index.html"))
    else None
  }

  /** An existing directory stands for its index file when it has one. */
  function DirectoryIndex(fs: FileSystem, p: Path): (r: Path)
    ensures Exists(fs, p) ==> Exists(fs, r)
    ensures !IsDirectory(fs, p) ==> r == p
  {
    if IsDirectory(fs, p) then
      if Exists(fs, Join(p, "index.md")) then Join(p, "index.md")
      else if Exists(fs, Join(p, "index.html")) then Join(p, "index.html")
      else p
    else p
  }

  /** `validateAnchor`: a target that is not Markdown always passes; a Markdown
      target is read (its read error is the `Err`) and the anchor looked up in
      its anchor set. */
  function AnchorLookup(fs: FileSystem, parse: Tokenizer, file: Path, anchor: string): (r: Result<bool, string>)
    ensures !EndsWith(file, ".md") ==> r == Ok(true)
    ensures r.Err? <==> EndsWith(file, ".md") && ReadFile(fs, file).Err?
  {
    if !EndsWith(file, ".md") then Ok(true)
    else match ReadFile(fs, file)
      case Err(m) => Err(m)
      case Ok(c) => Ok(Anchors.AnchorAccepted(Anchors.AnchorSet(c, parse(c)), anchor))
  }

  function NotFound(anchor: string): string
  {
    "Anchor #" + anchor + " not found"
  }

  /** The file and the anchor an internal link points at. */
  function InternalTarget(env: Env, sourceFile: Path, url: string): (Path, string)
  {
    SplitTarget(TargetOf(env, sourceFile, DecodedPath(url)), url)
  }

  /** An internal link holds when one of its candidate files exists and,
      when it names an anchor, the anchor is accepted in the file the
      candidate stands for. */
  predicate InternalHolds(env: Env, sourceFile: Path, url: string)
  {
    var (p, anchor) := InternalTarget(env, sourceFile, url);
    && Locate(env.fs, p).Some?
    && (anchor == ""
        || AnchorLookup(env.fs, env.parse, DirectoryIndex(env.fs, Locate(env.fs, p).value), anchor) == Ok(true))
  }

  function InternalVerdict(env: Env, sourceFile: Path, url: string): (v: Verdict)
    ensures v.externalOk.None?
    ensures v.valid ==> v.kind == InternalResult && v.reason.None?
    ensures !v.valid ==> v.reason.Some? && v.kind in {InternalResult, AnchorResult, ErrorResult}
    ensures v.valid <==> InternalHolds(env, sourceFile, url)
    ensures (!v.valid && v.kind == InternalResult)
        <==> Locate(env.fs, InternalTarget(env, sourceFile, url).0).None?
    ensures !v.valid && v.kind == InternalResult ==> v.reason == Some("File not found")
    ensures v.kind == AnchorResult ==> v.reason == Some(NotFound(InternalTarget(env, sourceFile, url).1))
  {
    var (p, anchor) := InternalTarget(env, sourceFile, url);
    match Locate(env.fs, p)
    case None => Verdict(false, InternalResult, Some("File not found"), None)
    case Some(q) =>
      var t := DirectoryIndex(env.fs, q);
      if anchor == "" then Verdict(true, InternalResult, None, None)
      else match AnchorLookup(env.fs, env.parse, t, anchor)
        case Err(m) => Verdict(false, ErrorResult, Some(m), None)
        case Ok(found) =>
          if found then Verdict(true, InternalResult, None, None)
          else Verdict(false, AnchorResult, Some(NotFound(anchor)), None)
  }

  function SameFileVerdict(env: Env, sourceFile: Path, url: string): (v: Verdict)
    requires StartsWith(url, "#")
    ensures v.kind in {AnchorResult, ErrorResult} && v.externalOk.None?
    ensures v.valid <==> AnchorLookup(env.fs, env.parse, sourceFile, url[1..]) == Ok(true)
  {
    var anchor := url[1..];
    match AnchorLookup(env.fs, env.parse, sourceFile, anchor)
    case Err(m) => Verdict(false, ErrorResult, Some("Failed to validate anchor #" + anchor + ": " + m), None)
    case Ok(found) =>
      if found then Verdict(true, AnchorResult, None, None)
      else Verdict(false, AnchorResult, Some(NotFound(anchor)), None)
  }

  /** The verdict of `validateLink` on a link of `sourceFile`. */
  function LinkVerdict(env: Env, sourceFile: Path, url: string): (v: Verdict)
    ensures Classify(url) == External ==> v.valid && v.kind == ExternalResult
    ensures Classify(url) == Email ==> v == Verdict(true, EmailResult, None, None)
    ensures Classify(url) == SameFileAnchor
        ==> (v.valid <==> AnchorLookup(env.fs, env.parse, sourceFile, url[1..]) == Ok(true))
    ensures Classify(url) == Internal ==> (v.valid <==> InternalHolds(env, sourceFile, url))
    ensures Classify(url) == Internal && !v.valid && v.kind == InternalResult
        ==> Locate(env.fs, InternalTarget(env, sourceFile, url).0).None? && v.reason == Some("File not found")
    ensures v.externalOk.Some? ==> Classify(url) == External && env.checkExternal
    ensures !v.valid ==> v.reason.Some?
  {
    match Classify(url)
    case SameFileAnchor => SameFileVerdict(env, sourceFile, url)
    case External => ExternalVerdict(env.checkExternal, CheckExternalUrl(env.net, url))
    case Email => Verdict(true, EmailResult, None, None)
    case Internal => InternalVerdict(env, sourceFile, url)
  }

  /** A link to an existing file without an anchor holds. */
  lemma ExistingFileHolds(env: Env, sourceFile: Path, url: string)
    requires Classify(url) == Internal
    requires Exists(env.fs, InternalTarget(env, sourceFile, url).0) && InternalTarget(env, sourceFile, url).1 == ""
    ensures LinkVerdict(env, sourceFile, url).valid
  {
  }

  /** Only Markdown targets are searched for anchors: with any other file
      found, every anchor is accepted. */
  lemma NonMarkdownAnchorHolds(env: Env, sourceFile: Path, url: string)
    requires Classify(url) == Internal
    requires var p := InternalTarget(env, sourceFile, url).0;
      Locate(env.fs, p).Some? && !EndsWith(DirectoryIndex(env.fs, Locate(env.fs, p).value), ".md")
    ensures LinkVerdict(env, sourceFile, url).valid
  {
  }

  /** A readable Markdown target without the anchor makes the link broken,
      with the `Anchor #… not found` reason. */
  lemma MissingAnchorBroken(env: Env, sourceFile: Path, url: string, content: string)
    requires Classify(url) == Internal
    requires var (p, anchor) := InternalTarget(env, sourceFile, url);
      && Locate(env.fs, p).Some? && anchor != ""
      && var t := DirectoryIndex(env.fs, Locate(env.fs, p).value);
      && EndsWith(t, ".md") && ReadFile(env.fs, t) == Ok(content)
      && !Anchors.AnchorAccepted(Anchors.AnchorSet(content, env.parse(content)), anchor)
    ensures var v := LinkVerdict(env, sourceFile, url);
      !v.valid && v.kind == AnchorResult && v.reason == Some(NotFound(InternalTarget(env, sourceFile, url).1))
  {
  }

  // ---------------------------------------------------------------------------
  // Reports

  /** A link with its verdict, as `fileLinks` stores it. */
  datatype CheckedLink = CheckedLink(link: Link, verdict: Verdict)

  /** An entry of `brokenLinks` or `externalWarnings`. */
  datatype LinkReport = LinkReport(file: string, line: nat, column: nat, url: string, text: string, reason: Option<string>)

  datatype FileError = FileError(file: string, message: string)

  function ReportOf(file: string, c: CheckedLink): LinkReport
  {
    LinkReport(file, c.link.line, c.link.column, c.link.url, c.link.text, c.verdict.reason)
  }

  predicate IsBroken(v: Verdict)
  {
    !v.valid
  }

  /** A valid external link whose check failed. */
  predicate IsWarning(v: Verdict)
  {
    v.valid && v.kind == ExternalResult && v.externalOk == Some(false)
  }

  /** The verdict of one link of `sourceFile`, kept with the link. */
  function CheckOne(env: Env, sourceFile: Path): Link -> CheckedLink
  {
    (l: Link) => CheckedLink(l, LinkVerdict(env, sourceFile, l.url))
  }

  /** The verdicts of a file's links, in order. */
  function CheckedLinks(env: Env, sourceFile: Path, links: seq<Link>): (r: seq<CheckedLink>)
    ensures |r| == |links|
  {
    Seqs.Map(CheckOne(env, sourceFile), links)
  }

  /** The broken-link entries of one file's results. */
  function BrokenOf(file: string, results: seq<CheckedLink>): seq<LinkReport>
  {
    if results == [] then []
    else
      var last := results[|results| - 1];
      BrokenOf(file, results[..|results| - 1]) + (if IsBroken(last.verdict) then [ReportOf(file, last)] else [])
  }

  /** The warning entries of one file's results. */
  function WarningsOf(file: string, results: seq<CheckedLink>): seq<LinkReport>
  {
    if results == [] then []
    else
      var last := results[|results| - 1];
      WarningsOf(file, results[..|results| - 1]) + (if IsWarning(last.verdict) then [ReportOf(file, last)] else [])
  }

  /** The results of every file whose links were checked, in order. */
  type Log = seq<(string, seq<CheckedLink>)>

  function BrokenOfLog(log: Log): seq<LinkReport>
  {
    if log == [] then [] else BrokenOfLog(log[..|log| - 1]) + BrokenOf(log[|log| - 1].0, log[|log| - 1].1)
  }

  function WarningsOfLog(log: Log): seq<LinkReport>
  {
    if log == [] then [] else WarningsOfLog(log[..|log| - 1]) + WarningsOf(log[|log| - 1].0, log[|log| - 1].1)
  }

  predicate AllValid(results: seq<CheckedLink>)
  {
    forall i :: 0 <= i < |results| ==> results[i].verdict.valid
  }

  predicate LogValid(log: Log)
  {
    forall i :: 0 <= i < |log| ==> AllValid(log[i].1)
  }

  /** No link is both broken and a warning: together they are at most the links there are. */
  lemma {:induction false} BrokenAndWarningsDisjoint(file: string, results: seq<CheckedLink>)
    ensures |BrokenOf(file, results)| + |WarningsOf(file, results)| <= |results|
  {
    if results != [] {
      BrokenAndWarningsDisjoint(file, results[..|results| - 1]);
    }
  }

  /** A file contributes no broken link exactly when every verdict is valid. */
  lemma {:induction false} NoBrokenIffAllValid(file: string, results: seq<CheckedLink>)
    ensures BrokenOf(file, results) == [] <==> AllValid(results)
  {
    if results != [] {
      var init := results[..|results| - 1];
      NoBrokenIffAllValid(file, init);
      assert forall i :: 0 <= i < |init| ==> init[i] == results[i];
    }
  }

  /** The broken-link list of a run is empty exactly when every link of every
      checked file was valid. */
  lemma {:induction false} NoBrokenIffLogValid(log: Log)
    ensures BrokenOfLog(log) == [] <==> LogValid(log)
  {
    if log != [] {
      var init := log[..|log| - 1];
      NoBrokenIffLogValid(init);
      NoBrokenIffAllValid(log[|log| - 1].0, log[|log| - 1].1);
      assert forall i :: 0 <= i < |init| ==> init[i] == log[i];
    }
  }

  /** An external link never makes a run fail: with external checks on or off,
      its verdict is valid. */
  lemma ExternalNeverBroken(env: Env, sourceFile: Path, links: seq<Link>)
    requires forall i :: 0 <= i < |links| ==> Classify(links[i].url) == External
    ensures BrokenOf(sourceFile, CheckedLinks(env, sourceFile, links)) == []
  {
    var results := CheckedLinks(env, sourceFile, links);
    forall i | 0 <= i < |results| ensures results[i].verdict.valid {
      Seqs.MapAt(CheckOne(env, sourceFile), links, i);
    }
    NoBrokenIffAllValid(sourceFile, results);
  }

  /** `generateReport().summary`. */
  datatype Summary = Summary(totalFiles: nat, totalLinks: nat, brokenLinks: nat, externalWarnings: nat,
                             fileReadErrors: nat, success: bool)
}
