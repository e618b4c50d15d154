/** The navigation part of the book generator: the default page order, page
    titles, the previous/next data written for every page, and the choice of
    parser for a configuration file. */
module BookNav {
  import opened Wrappers
  import opened Text
  import opened Paths
  import opened Seqs

  /** An entry of `structure.introduction`, `chapters`, `conclusion` or
      `appendices`; an empty `path` or `title` stands for a missing one, since
      the generator only tests them for truthiness. */
  datatype Section = Section(path: string, title: string)

  /** `config.structure`, a missing list standing as an empty one. */
  datatype Structure = Structure(
    introduction: seq<Section>,
    chapters: seq<Section>,
    conclusion: seq<Section>,
    appendices: seq<Section>)

  /** The parts of the book configuration navigation reads; `order` is
      `config.navigation.order` when it is set. */
  datatype Config = Config(structure: Structure, order: Option<seq<string>>)

  datatype Link = Link(path: string, title: string)

  /** One value of `navigationData`. */
  datatype PageNav = PageNav(previous: Option<Link>, next: Option<Link>, index: nat, total: nat)

  datatype ConfigFormat = JsonFormat | YamlFormat

  // ---------------------------------------------------------------------
  // Paths of pages

  /** `path.replace(/^\//, '').replace(/\.html$/, '')`: one leading slash and
      one trailing `.html` removed. */
  function CleanPath(p: string): (r: string)
    ensures p == r || p == "/" + r || p == r + ".html" || p == "/" + r + ".html"
  {
    var q := if |p| > 0 && p[0] == '/' then p[1..] else p;
    if EndsWith(q, ".html") then q[..|q| - 5] else q
  }

  /** The link path `/${p}.html` of a page. */
  function PageLink(p: string): string
  {
    "/" + p + ".html"
  }

  /** A page's link cleans back to the page. */
  lemma CleanPageLink(p: string)
    ensures CleanPath(PageLink(p)) == p
  {
    var q := PageLink(p)[1..];
    assert q == p + ".html";
    assert q[|q| - 5..] == ".html";
    assert q[..|q| - 5] == p;
  }

  /** A path without a leading slash or a trailing `.html` is already clean. */
  lemma CleanPathOfClean(p: string)
    requires !StartsWith(p, "/") && !EndsWith(p, ".html")
    ensures CleanPath(p) == p
  {
  }

  /** The cleaned paths of the sections that have a path, in order. */
  function PathsOf(secs: seq<Section>): (r: seq<string>)
    ensures |r| <= |secs|
  {
    if secs == [] then []
    else
      var s := secs[|secs| - 1];
      PathsOf(secs[..|secs| - 1]) + (if s.path != "" then [CleanPath(s.path)] else [])
  }

  /** `allSections` of `getPageTitle`: the four lists in book order. */
  function AllSections(st: Structure): seq<Section>
  {
    st.introduction + st.chapters + st.conclusion + st.appendices
  }

  /** A section names a page when it has a path that cleans to it. */
  predicate Names(s: Section, page: string)
  {
    s.path != "" && CleanPath(s.path) == page
  }

  lemma {:induction false} PathsOfAppend(a: seq<Section>, b: seq<Section>)
    ensures PathsOf(a + b) == PathsOf(a) + PathsOf(b)
    decreases |b|
  {
    if b == [] {
      assert a + b == a;
    } else {
      var init := b[..|b| - 1];
      PathsOfAppend(a, init);
      assert (a + b)[..|a + b| - 1] == a + init;
      assert (a + b)[|a + b| - 1] == b[|b| - 1];
    }
  }

  /** Every path in the list comes from a section that names it, and the
      sections' order is kept. */
  lemma {:induction false} PathsOfSource(secs: seq<Section>, i: nat) returns (k: nat)
    requires i < |PathsOf(secs)|
    ensures k < |secs| && Names(secs[k], PathsOf(secs)[i])
    decreases |secs|
  {
    var init := secs[..|secs| - 1];
    if i < |PathsOf(init)| {
      k := PathsOfSource(init, i);
    } else {
      k := |secs| - 1;
    }
  }

  /** Every section with a path contributes its cleaned path. */
  lemma {:induction false} PathsOfCovers(secs: seq<Section>, k: nat)
    requires k < |secs| && secs[k].path != ""
    ensures CleanPath(secs[k].path) in PathsOf(secs)
    decreases |secs|
  {
    if k < |secs| - 1 {
      PathsOfCovers(secs[..|secs| - 1], k);
    }
  }

  // ---------------------------------------------------------------------
  // generateDefaultNavigationOrder

  /** One `forEach` of the default order: push the cleaned path of every
      section that has one. */
  method PushPaths(order0: seq<string>, secs: seq<Section>) returns (order: seq<string>)
    ensures order == order0 + PathsOf(secs)
  {
    order := order0;
    for i := 0 to |secs|
      invariant order == order0 + PathsOf(secs[..i])
    {
      assert secs[..i + 1][..i] == secs[..i];
      if secs[i].path != "" {
        var cleanPath := CleanPath(secs[i].path);
        order := order + [cleanPath];
      }
    }
    assert secs[..|secs|] == secs;
  }

  /** The default order: the cleaned paths of all sections in book order,
      introduction, chapters, conclusion and appendices. */
  method DefaultNavigationOrder(config: Config) returns (order: seq<string>)
    ensures order == PathsOf(AllSections(config.structure))
  {
    var st := config.structure;
    order := [];
    order := PushPaths(order, st.introduction);
    assert order == PathsOf(st.introduction);
    order := PushPaths(order, st.chapters);
    order := PushPaths(order, st.conclusion);
    order := PushPaths(order, st.appendices);
    DefaultOrderParts(st);
  }

  lemma DefaultOrderParts(st: Structure)
    ensures PathsOf(AllSections(st))
      == PathsOf(st.introduction) + PathsOf(st.chapters) + PathsOf(st.conclusion) + PathsOf(st.appendices)
  {
    PathsOfAppend(st.introduction, st.chapters);
    PathsOfAppend(st.introduction + st.chapters, st.conclusion);
    PathsOfAppend(st.introduction + st.chapters + st.conclusion, st.appendices);
  }

  function DefaultOrder(st: Structure): seq<string>
  {
    PathsOf(AllSections(st))
  }

  /** `config.navigation.order` when set, even an empty one, else the
      default order. */
  function NavigationOrder(config: Config): seq<string>
  {
    match config.order
    case Some(o) => o
    case None => DefaultOrder(config.structure)
  }

  // ---------------------------------------------------------------------
  // getPageTitle

  /** The first section that names `page`, from position `k` on. */
  function FindSection(secs: seq<Section>, page: string, k: nat): (r: Option<nat>)
    requires k <= |secs|
    ensures r.Some? ==> k <= r.value < |secs| && Names(secs[r.value], page)
    ensures r.Some? ==> forall j :: k <= j < r.value ==> !Names(secs[j], page)
    ensures r.None? ==> forall j :: k <= j < |secs| ==> !Names(secs[j], page)
    decreases |secs| - k
  {
    if k == |secs| then None
    else if Names(secs[k], page) then Some(k)
    else FindSection(secs, page, k + 1)
  }

  predicate IsSeparator(c: char)
  {
    c == '-' || c == '_' || c == '/'
  }

  /** `replace(/[-_/]/g, ' ')`. */
  function Spaced(p: string): (r: string)
    ensures |r| == |p|
    ensures forall i :: 0 <= i < |p| ==> r[i] == (if IsSeparator(p[i]) then ' ' else p[i])
  {
    seq(|p|, i requires 0 <= i < |p| => if IsSeparator(p[i]) then ' ' else p[i])
  }

  /** `\b\w` matches at `i`: a word character not preceded by one. */
  predicate WordStart(s: string, i: nat)
    requires i < |s|
  {
    IsWordChar(s[i]) && (i == 0 || !IsWordChar(s[i - 1]))
  }

  /** `replace(/\b\w/g, l => l.toUpperCase())`. */
  function Capitalize(s: string): (r: string)
    ensures |r| == |s|
  {
    seq(|s|, i requires 0 <= i < |s| => if WordStart(s, i) then UpperChar(s[i]) else s[i])
  }

  /** The title guessed from a page path. */
  function TitleCase(p: string): string
  {
    Capitalize(Spaced(p))
  }

  /** The title `getPageTitle` gives. */
  function PageTitleOf(st: Structure, page: string): (r: string)
  {
    var all := AllSections(st);
    match FindSection(all, page, 0)
    case Some(k) => if all[k].title != "" then all[k].title else page
    case None => TitleCase(page)
  }

  /** `getPageTitle`: the title of the first section naming the page (the
      page itself when that section has none), else the guessed title. */
  method GetPageTitle(config: Config, pagePath: string) returns (title: string)
    ensures title == PageTitleOf(config.structure, pagePath)
  {
    var allSections := AllSections(config.structure);
    for i := 0 to |allSections|
      invariant FindSection(allSections, pagePath, 0) == FindSection(allSections, pagePath, i)
    {
      var item := allSections[i];
      if item.path != "" {
        var cleanPath := CleanPath(item.path);
        if cleanPath == pagePath {
          title := if item.title != "" then item.title else pagePath;
          return;
        }
      }
    }
    title := TitleCase(pagePath);
  }

  /** A capitalised character keeps being a word character or not. */
  lemma CapitalizeWordChars(s: string)
    ensures forall i :: 0 <= i < |s| ==> (IsWordChar(Capitalize(s)[i]) <==> IsWordChar(s[i]))
  {
  }

  /** The guessed title has no separators, starts every word with a
      character that is not a lower-case letter, and differs from the path
      only there and at the separators. */
  lemma TitleCaseShape(p: string)
    ensures |TitleCase(p)| == |p|
    ensures forall i :: 0 <= i < |p| ==> !IsSeparator(TitleCase(p)[i])
    ensures forall i :: 0 <= i < |p| && WordStart(TitleCase(p), i) ==> !('a' <= TitleCase(p)[i] <= 'z')
    ensures forall i :: 0 <= i < |p| && !IsSeparator(p[i]) && !WordStart(TitleCase(p), i) ==> TitleCase(p)[i] == p[i]
  {
    var s := Spaced(p);
    CapitalizeWordChars(s);
  }

  /** Guessing a title from a guessed title changes nothing. */
  lemma TitleCaseIdempotent(p: string)
    ensures TitleCase(TitleCase(p)) == TitleCase(p)
  {
    var t := TitleCase(p);
    CapitalizeWordChars(Spaced(p));
    assert Spaced(t) == t;
    forall i | 0 <= i < |t| ensures Capitalize(t)[i] == t[i] {
      if WordStart(t, i) {
        assert WordStart(Spaced(p), i);
      }
    }
  }

  /** A page that is not empty gets a title that is not empty. */
  lemma PageTitleNonEmpty(st: Structure, page: string)
    requires page != ""
    ensures PageTitleOf(st, page) != ""
  {
  }

  /** Every page of the default order is found among the sections, so its
      title is never guessed from the path. */
  lemma DefaultOrderTitled(st: Structure, i: nat)
    requires i < |DefaultOrder(st)|
    ensures FindSection(AllSections(st), DefaultOrder(st)[i], 0).Some?
  {
    var k := PathsOfSource(AllSections(st), i);
  }

  /** Every section with a path is a page of the default order. */
  lemma DefaultOrderCovers(st: Structure, k: nat)
    requires k < |AllSections(st)| && AllSections(st)[k].path != ""
    ensures CleanPath(AllSections(st)[k].path) in DefaultOrder(st)
  {
    PathsOfCovers(AllSections(st), k);
  }

  // ---------------------------------------------------------------------
  // generateNavigationData

  /** The link to a page, or none for an empty page path. */
  function LinkTo(st: Structure, p: string): Option<Link>
  {
    if p == "" then None else Some(Link(PageLink(p), PageTitleOf(st, p)))
  }

  /** The navigation value for position `i` of `order`. */
  function NavAt(st: Structure, order: seq<string>, i: nat): PageNav
    requires i < |order|
  {
    PageNav(
      if i > 0 then LinkTo(st, order[i - 1]) else None,
      if i < |order| - 1 then LinkTo(st, order[i + 1]) else None,
      i, |order|)
  }

  /** `navigationData` after the first `n` positions of `order`. */
  function NavUpTo(st: Structure, order: seq<string>, n: nat): map<string, PageNav>
    requires n <= |order|
  {
    if n == 0 then map[] else NavUpTo(st, order, n - 1)[order[n - 1] := NavAt(st, order, n - 1)]
  }

  /** The link for a neighbouring page; `GetPageTitle` supplies the title. */
  method LinkFor(config: Config, p: string) returns (link: Option<Link>)
    ensures link == LinkTo(config.structure, p)
  {
    if p == "" {
      link := None;
    } else {
      var title := GetPageTitle(config, p);
      link := Some(Link("/" + p + ".html", title));
    }
  }

  /** `generateNavigationData` without the file it writes. */
  method GenerateNavigationData(config: Config) returns (navigationData: map<string, PageNav>)
    ensures navigationData == FullNav(config)
  {
    var navigationOrder: seq<string>;
    if config.order.Some? {
      navigationOrder := config.order.value;
    } else {
      navigationOrder := DefaultNavigationOrder(config);
    }
    navigationData := map[];
    for index := 0 to |navigationOrder|
      invariant navigationData == NavUpTo(config.structure, navigationOrder, index)
    {
      var previous: Option<Link> := None;
      var next: Option<Link> := None;
      if index > 0 {
        previous := LinkFor(config, navigationOrder[index - 1]);
      }
      if index < |navigationOrder| - 1 {
        next := LinkFor(config, navigationOrder[index + 1]);
      }
      navigationData := navigationData[navigationOrder[index] := PageNav(previous, next, index, |navigationOrder|)];
    }
  }

  /** The position, index and total of a page, and which neighbours it links
      to: the previous and next pages, each unless it is missing or empty,
      each linked by a path that cleans back to it. */
  lemma NavAtFacts(st: Structure, order: seq<string>, i: nat)
    requires i < |order|
    ensures NavAt(st, order, i).index == i && NavAt(st, order, i).total == |order|
    ensures NavAt(st, order, i).previous.Some? <==> i > 0 && order[i - 1] != ""
    ensures NavAt(st, order, i).next.Some? <==> i + 1 < |order| && order[i + 1] != ""
    ensures NavAt(st, order, i).previous.Some? ==>
      CleanPath(NavAt(st, order, i).previous.value.path) == order[i - 1]
      && NavAt(st, order, i).previous.value.title == PageTitleOf(st, order[i - 1])
    ensures NavAt(st, order, i).next.Some? ==>
      CleanPath(NavAt(st, order, i).next.value.path) == order[i + 1]
      && NavAt(st, order, i).next.value.title == PageTitleOf(st, order[i + 1])
  {
    if i > 0 {
      CleanPageLink(order[i - 1]);
    }
    if i + 1 < |order| {
      CleanPageLink(order[i + 1]);
    }
  }

  /** The pages with navigation data are exactly the pages of the order. */
  lemma {:induction false} NavKeys(st: Structure, order: seq<string>, n: nat)
    requires n <= |order|
    ensures NavUpTo(st, order, n).Keys == set i | 0 <= i < n :: order[i]
  {
    if n > 0 {
      NavKeys(st, order, n - 1);
      assert (set i | 0 <= i < n :: order[i]) == (set i | 0 <= i < n - 1 :: order[i]) + {order[n - 1]};
    }
  }

  /** A page listed more than once keeps the data of its last position. */
  lemma {:induction false} NavLastWins(st: Structure, order: seq<string>, n: nat, i: nat)
    requires i < n <= |order|
    requires forall j :: i < j < n ==> order[j] != order[i]
    ensures order[i] in NavUpTo(st, order, n)
    ensures NavUpTo(st, order, n)[order[i]] == NavAt(st, order, i)
  {
    if i < n - 1 {
      NavLastWins(st, order, n - 1, i);
    }
  }

  /** `navigationData` for the whole order of a configuration. */
  function FullNav(config: Config): map<string, PageNav>
  {
    NavUpTo(config.structure, NavigationOrder(config), |NavigationOrder(config)|)
  }

  /** With distinct pages, following `next` from a page and then `previous`
      comes back to it. */
  lemma NavChain(config: Config, i: nat)
    requires Distinct(NavigationOrder(config))
    requires i + 1 < |NavigationOrder(config)|
    requires NavigationOrder(config)[i] != "" && NavigationOrder(config)[i + 1] != ""
    ensures NavigationOrder(config)[i] in FullNav(config) && NavigationOrder(config)[i + 1] in FullNav(config)
    ensures FullNav(config)[NavigationOrder(config)[i]].next.Some?
    ensures CleanPath(FullNav(config)[NavigationOrder(config)[i]].next.value.path) == NavigationOrder(config)[i + 1]
    ensures FullNav(config)[NavigationOrder(config)[i + 1]].previous.Some?
    ensures CleanPath(FullNav(config)[NavigationOrder(config)[i + 1]].previous.value.path) == NavigationOrder(config)[i]
  {
    var order := NavigationOrder(config);
    var st := config.structure;
    NavLastWins(st, order, |order|, i);
    NavLastWins(st, order, |order|, i + 1);
    NavAtFacts(st, order, i);
    NavAtFacts(st, order, i + 1);
  }

  // ---------------------------------------------------------------------
  // loadConfig

  /** The parser `loadConfig` picks from the lower-cased extension, or the
      extension it refuses. */
  function ConfigFormatOf(configPath: string): (r: Result<ConfigFormat, string>)
    ensures r.Err? ==> r.error !in {".json", ".yml", ".yaml"}
  {
    var ext := Lower(Extname(configPath));
    if ext == ".json" then Ok(JsonFormat)
    else if ext == ".yml" || ext == ".yaml" then Ok(YamlFormat)
    else Err(ext)
  }

  /** The extension of a file name with a non-empty stem is its last dot on. */
  lemma ExtnameOfName(stem: string, e: string)
    requires stem != [] && '/' !in stem && '/' !in e
    requires |e| >= 2 && e[0] == '.' && '.' !in e[1..]
    ensures Extname(stem + e) == e
  {
    var name := stem + e;
    SplitWhole(name, '/');
    assert KeepNamed([name]) == [name] by {
      assert name != "" && name != "." by { assert |name| >= 3; }
    }
    assert name[|stem|] == '.';
    assert name[|stem| + 1..] == e[1..];
    LastDotAt(name, |stem|);
    assert name != "..";
  }

  lemma {:induction false} LastDotAt(name: string, j: nat)
    requires j < |name| && name[j] == '.' && '.' !in name[j + 1..]
    ensures LastDot(name) == j
  {
    var n := |name| - 1;
    if j < n {
      assert name[n] == name[j + 1..][n - j - 1];
      assert name[..n][j + 1..] + [name[n]] == name[j + 1..];
      LastDotAt(name[..n], j);
    }
  }

  lemma DotFree(e: string, lower: string)
    requires Lower(e) == lower && |lower| >= 1
    requires '.' !in lower[1..] && '/' !in lower
    ensures '.' !in e[1..] && '/' !in e
  {
    forall i | 0 <= i < |e| ensures e[i] != '/' && (i >= 1 ==> e[i] != '.') {
      assert Lower(e)[i] == LowerChar(e[i]);
      if i >= 1 {
        assert lower[1..][i - 1] == lower[i];
      }
    }
  }

  /** A `.json` file, in any letter case, is read as JSON. */
  lemma JsonConfig(stem: string, e: string)
    requires stem != [] && '/' !in stem
    requires |e| == 5 && e[0] == '.' && Lower(e) == ".json"
    ensures ConfigFormatOf(stem + e) == Ok(JsonFormat)
  {
    JsonExtension(e);
    ExtnameOfName(stem, e);
  }

  /** A JSON extension, in any letter case, is a single dot and letters. */
  lemma JsonExtension(e: string)
    requires Lower(e) == ".json"
    ensures |e| >= 2 && '.' !in e[1..] && '/' !in e
  {
    var l := Lower(e);
    JsonSpelling(l);
    DotFree(e, l);
  }

  lemma JsonSpelling(l: string)
    requires l == ".json"
    ensures |l| >= 2 && '.' !in l[1..] && '/' !in l
  {
    assert l[1..] == "json";
  }

  /** A YAML extension, in any letter case, is a single dot and letters. */
  lemma YamlExtension(e: string)
    requires Lower(e) == ".yml" || Lower(e) == ".yaml"
    ensures |e| >= 4 && '.' !in e[1..] && '/' !in e
  {
    var l := Lower(e);
    YamlSpelling(l);
    DotFree(e, l);
  }

  lemma YamlSpelling(l: string)
    requires l == ".yml" || l == ".yaml"
    ensures |l| >= 4 && '.' !in l[1..] && '/' !in l
  {
    if l == ".yml" {
      assert l[1..] == "yml";
    } else {
      assert l[1..] == "yaml";
    }
  }

  /** A `.yml` or `.yaml` file, in any letter case, is read as YAML. */
  lemma YamlConfig(stem: string, e: string)
    requires stem != [] && '/' !in stem
    requires e != [] && e[0] == '.' && (Lower(e) == ".yml" || Lower(e) == ".yaml")
    ensures ConfigFormatOf(stem + e) == Ok(YamlFormat)
  {
    YamlExtension(e);
    ExtnameOfName(stem, e);
  }

  /** A hidden file called `.json` has no extension and is refused. */
  lemma HiddenJsonRefused()
    ensures ConfigFormatOf(".json") == Err("")
  {
    SplitWhole(".json", '/');
    assert KeepNamed([".json"]) == [".json"];
    assert LastDot(".json") == 0 by {
      assert '.' !in ".json"[1..];
    }
  }
}
