/** The UX rollout: reading the book registry, finding a book's registry
    entry, deciding how a book's `ux` setting is updated, and the counters of
    a rollout over many books. */
module UxRollout {
  import opened Wrappers
  import opened Text
  import opened Seqs
  import opened Paths
  import JsMap

  /** A JSON value as a parsed file gives it; an object keeps its members in
      key order. Numbers are integers. */
  datatype Json =
    | JNull
    | JBool(b: bool)
    | JNum(n: int)
    | JStr(s: string)
    | JArr(items: seq<Json>)
    | JObj(members: seq<(string, Json)>)

  /** The truthiness JavaScript gives a present value. */
  predicate Truthy(j: Json)
  {
    match j
    case JNull => false
    case JBool(b) => b
    case JNum(n) => n != 0
    case JStr(s) => s != ""
    case _ => true
  }

  /** `typeof j === 'object'` for a value that is not `null`. */
  predicate IsObject(j: Json)
  {
    j.JObj? || j.JArr?
  }

  /** `j[k]`: a member of an object, `None` for `undefined`. */
  function Prop(j: Json, k: string): Option<Json>
  {
    match j
    case JObj(ms) => JsMap.Get(ms, k)
    case _ => None
  }

  /** A property that is present and truthy. */
  function TruthyProp(j: Json, k: string): Option<Json>
  {
    match Prop(j, k)
    case Some(v) => if Truthy(v) then Some(v) else None
    case None => None
  }

  /** `s.replace(/^itdojp\//, '')`. */
  function StripOwner(s: string): (r: string)
    ensures StartsWith(s, "itdojp/") ==> s == "itdojp/" + r
    ensures !StartsWith(s, "itdojp/") ==> r == s
  {
    if StartsWith(s, "itdojp/") then s[7..] else s
  }

  // ---------------------------------------------------------------------
  // normalizeRegistry

  datatype RegistryError =
    | InvalidRegistry    // not an object
    | MissingBooks       // no truthy `books`
    | KeyNotText         // a truthy key that has no `replace`

  /** `entry.name || entry.repo || entry.repository`. */
  function KeyOf(entry: Json): Option<Json>
  {
    match TruthyProp(entry, "name")
    case Some(v) => Some(v)
    case None =>
      match TruthyProp(entry, "repo")
      case Some(v) => Some(v)
      case None => TruthyProp(entry, "repository")
  }

  /** An array entry that gets a key: its stripped key text. */
  predicate KeyedAs(entry: Json, k: string)
  {
    Truthy(entry) && IsObject(entry) && KeyOf(entry).Some? && KeyOf(entry).value.JStr?
    && StripOwner(KeyOf(entry).value.s) == k
  }

  /** An array entry that makes `replace` throw. */
  predicate BadKey(entry: Json)
  {
    Truthy(entry) && IsObject(entry) && KeyOf(entry).Some? && !KeyOf(entry).value.JStr?
  }

  /** One pass of the array loop: skipped entries leave `mapped` alone. */
  function MapEntry(mapped: seq<(string, Json)>, entry: Json): Result<seq<(string, Json)>, RegistryError>
  {
    if !Truthy(entry) || !IsObject(entry) then Ok(mapped)
    else
      match KeyOf(entry)
      case None => Ok(mapped)
      case Some(key) =>
        if key.JStr? then Ok(JsMap.Set(mapped, StripOwner(key.s), entry)) else Err(KeyNotText)
  }

  /** The `mapped` object built from an array of books. */
  function MappedBooks(books: seq<Json>): Result<seq<(string, Json)>, RegistryError>
  {
    if books == [] then Ok([])
    else
      match MappedBooks(books[..|books| - 1])
      case Err(e) => Err(e)
      case Ok(m) => MapEntry(m, books[|books| - 1])
  }

  /** The registry `normalizeRegistry` returns, or the error it throws. */
  function NormalizeRegistry(registry: Json): Result<Json, RegistryError>
  {
    if !Truthy(registry) || !IsObject(registry) then Err(InvalidRegistry)
    else
      match TruthyProp(registry, "books")
      case None => Err(MissingBooks)
      case Some(books) =>
        if books.JArr? then
          match MappedBooks(books.items)
          case Err(e) => Err(e)
          case Ok(m) => Ok(JObj(JsMap.Set(registry.members, "books", JObj(m))))
        else Ok(registry)
  }

  /** The loop over `registry.books` when it is an array. */
  method MapBooks(books: seq<Json>) returns (r: Result<seq<(string, Json)>, RegistryError>)
    ensures r == MappedBooks(books)
  {
    var mapped: seq<(string, Json)> := [];
    for i := 0 to |books|
      invariant MappedBooks(books[..i]) == Ok(mapped)
    {
      assert books[..i + 1][..i] == books[..i];
      var entry := books[i];
      if Truthy(entry) && IsObject(entry) {
        var key := KeyOf(entry);
        if key.Some? {
          if key.value.JStr? {
            mapped := JsMap.Set(mapped, StripOwner(key.value.s), entry);
          } else {
            MappedErrSticks(books, i + 1);
            return Err(KeyNotText);
          }
        }
      }
    }
    assert books[..|books|] == books;
    r := Ok(mapped);
  }

  /** Once an entry has thrown, the whole loop throws. */
  lemma {:induction false} MappedErrSticks(books: seq<Json>, i: nat)
    requires i <= |books| && MappedBooks(books[..i]).Err?
    ensures MappedBooks(books) == MappedBooks(books[..i])
    decreases |books| - i
  {
    if i == |books| {
      assert books[..i] == books;
    } else {
      assert books[..i + 1][..i] == books[..i];
      MappedErrSticks(books, i + 1);
    }
  }

  /** The loop throws exactly when some entry has a key that is not text. */
  lemma {:induction false} MappedErr(books: seq<Json>)
    ensures MappedBooks(books).Err? <==> exists i :: 0 <= i < |books| && BadKey(books[i])
    ensures MappedBooks(books).Err? ==> MappedBooks(books) == Err(KeyNotText)
  {
    if books != [] {
      var init := books[..|books| - 1];
      MappedErr(init);
      if exists i :: 0 <= i < |init| && BadKey(init[i]) {
        var i :| 0 <= i < |init| && BadKey(init[i]);
        assert books[i] == init[i];
      }
      if exists i :: 0 <= i < |books| && BadKey(books[i]) {
        var i :| 0 <= i < |books| && BadKey(books[i]);
        if i < |init| {
          assert init[i] == books[i];
        }
      }
    }
  }

  /** The last entry keyed as `k`, the one a later assignment leaves. */
  function LastKeyed(books: seq<Json>, k: string): Option<Json>
  {
    if books == [] then None
    else if KeyedAs(books[|books| - 1], k) then Some(books[|books| - 1])
    else LastKeyed(books[..|books| - 1], k)
  }

  /** The mapped object has distinct keys, and each key holds the last entry
      keyed so; keys no entry has are absent. */
  lemma {:induction false} MappedContents(books: seq<Json>, k: string)
    requires MappedBooks(books).Ok?
    ensures JsMap.DistinctKeys(MappedBooks(books).value)
    ensures JsMap.Get(MappedBooks(books).value, k) == LastKeyed(books, k)
  {
    if books != [] {
      var init := books[..|books| - 1];
      var e := books[|books| - 1];
      assert MappedBooks(init).Ok?;
      MappedContents(init, k);
      var m := MappedBooks(init).value;
      if Truthy(e) && IsObject(e) && KeyOf(e).Some? {
        var key := StripOwner(KeyOf(e).value.s);
        JsMap.SetDistinct(m, key, e);
        if key == k {
          JsMap.GetSetSame(m, key, e);
        } else {
          JsMap.GetSetOther(m, key, e, k);
        }
      }
    }
  }

  /** Normalizing a normalized registry changes nothing. */
  lemma NormalizeIdempotent(registry: Json)
    requires NormalizeRegistry(registry).Ok?
    ensures NormalizeRegistry(NormalizeRegistry(registry).value) == NormalizeRegistry(registry)
  {
    var n := NormalizeRegistry(registry).value;
    var books := TruthyProp(registry, "books").value;
    if books.JArr? {
      var m := MappedBooks(books.items).value;
      JsMap.GetSetSame(registry.members, "books", JObj(m));
    }
  }

  /** A normalized registry's books are an object when they were an array,
      and are left alone otherwise; every other member is kept. */
  lemma NormalizeShape(registry: Json, k: string)
    requires NormalizeRegistry(registry).Ok?
    ensures TruthyProp(NormalizeRegistry(registry).value, "books").Some?
    ensures TruthyProp(registry, "books").value.JArr? ==>
      TruthyProp(NormalizeRegistry(registry).value, "books").value.JObj?
    ensures !TruthyProp(registry, "books").value.JArr? ==> NormalizeRegistry(registry).value == registry
    ensures k != "books" ==> Prop(NormalizeRegistry(registry).value, k) == Prop(registry, k)
  {
    var books := TruthyProp(registry, "books").value;
    if books.JArr? {
      var m := MappedBooks(books.items).value;
      JsMap.GetSetSame(registry.members, "books", JObj(m));
      if k != "books" {
        JsMap.GetSetOther(registry.members, "books", JObj(m), k);
      }
    }
  }

  /** The errors `normalizeRegistry` throws, each exactly when it throws it. */
  lemma NormalizeErrors(registry: Json)
    ensures NormalizeRegistry(registry) == Err(InvalidRegistry) <==> !Truthy(registry) || !IsObject(registry)
    ensures NormalizeRegistry(registry) == Err(MissingBooks) <==>
      Truthy(registry) && IsObject(registry) && TruthyProp(registry, "books").None?
    ensures NormalizeRegistry(registry) == Err(KeyNotText) <==>
      Truthy(registry) && IsObject(registry) && TruthyProp(registry, "books").Some?
      && TruthyProp(registry, "books").value.JArr?
      && exists i :: 0 <= i < |TruthyProp(registry, "books").value.items| && BadKey(TruthyProp(registry, "books").value.items[i])
  {
    if Truthy(registry) && IsObject(registry) && TruthyProp(registry, "books").Some? && TruthyProp(registry, "books").value.JArr? {
      MappedErr(TruthyProp(registry, "books").value.items);
    }
  }

  // ---------------------------------------------------------------------
  // extractRepoName

  /** The end of the run of non-`/` characters from `i`. */
  function RunEnd(s: string, i: nat): (j: nat)
    requires i <= |s|
    ensures i <= j <= |s|
    ensures forall k :: i <= k < j ==> s[k] != '/'
    ensures j < |s| ==> s[j] == '/'
    decreases |s| - i
  {
    if i == |s| || s[i] == '/' then i else RunEnd(s, i + 1)
  }

  lemma {:induction false} RunEndAt(s: string, i: nat, j: nat)
    requires i <= j <= |s|
    requires forall k :: i <= k < j ==> s[k] != '/'
    requires j == |s| || s[j] == '/'
    ensures RunEnd(s, i) == j
    decreases j - i
  {
    if i < j {
      RunEndAt(s, i + 1, j);
    }
  }

  /** `/github\.com\/([^/]+)\/([^/]+)/` matched at `p`: its second group. */
  function RepoAt(s: string, p: nat): (r: Option<string>)
    requires p <= |s|
    ensures r.Some? ==> r.value != "" && '/' !in r.value
  {
    if !OccursAt(s, "github.com/", p) then None
    else
      var o := RunEnd(s, p + 11);
      if o == p + 11 || o == |s| then None
      else
        var e := RunEnd(s, o + 1);
        if e == o + 1 then None else Some(s[o + 1..e])
  }

  /** The leftmost match from `p` on. */
  function FirstRepo(s: string, p: nat): (r: Option<string>)
    requires p <= |s|
    ensures r.Some? ==> r.value != "" && '/' !in r.value
    decreases |s| - p
  {
    if RepoAt(s, p).Some? then RepoAt(s, p)
    else if p == |s| then None
    else FirstRepo(s, p + 1)
  }

  /** `name.replace(/\.git$/, '')`. */
  function StripGit(n: string): (r: string)
    ensures n == r || n == r + ".git"
  {
    if EndsWith(n, ".git") then n[..|n| - 4] else n
  }

  /** `extractRepoName(url)`, for a URL that may be missing. */
  function ExtractRepoName(url: Option<Json>): (r: Option<string>)
    ensures r.Some? ==> '/' !in r.value
  {
    if url.None? || !url.value.JStr? || url.value.s == "" then None
    else
      match FirstRepo(url.value.s, 0)
      case Some(n) => Some(StripGit(n))
      case None => None
  }

  lemma {:induction false} FirstRepoSkips(s: string, p: nat, q: nat)
    requires p <= q <= |s|
    requires forall j :: p <= j < q ==> RepoAt(s, j).None?
    ensures FirstRepo(s, p) == FirstRepo(s, q)
    decreases q - p
  {
    if p < q {
      FirstRepoSkips(s, p + 1, q);
    }
  }

  /** No match starts where the text has no `g`. */
  lemma NoRepoAt(s: string, j: nat)
    requires j < |s| && s[j] != 'g'
    ensures RepoAt(s, j).None?
  {
    if j + 11 <= |s| {
      assert s[j..j + 11][0] == s[j];
    }
  }

  lemma RepoAtShape(s: string, p: nat, o: nat)
    requires p + 11 < o < |s| - 1
    requires OccursAt(s, "github.com/", p)
    requires forall k :: p + 11 <= k < o ==> s[k] != '/'
    requires s[o] == '/'
    requires forall k :: o < k < |s| ==> s[k] != '/'
    ensures RepoAt(s, p) == Some(s[o + 1..])
  {
    RunEndAt(s, p + 11, o);
    RunEndAt(s, o + 1, |s|);
    assert OccursAt(s, "github.com/", p);
    assert RunEnd(s, p + 11) == o && o != p + 11 && o != |s|;
    assert RunEnd(s, o + 1) == |s| && |s| != o + 1;
    assert s[o + 1..|s|] == s[o + 1..];
  }

  /** A text whose first `github.com/`, at `p`, is followed by an owner, a
      slash and a slash-free rest matches with that rest. */
  lemma RepoOfShape(s: string, p: nat, o: nat)
    requires p + 11 < o < |s| - 1
    requires forall j :: 0 <= j < p ==> s[j] != 'g'
    requires OccursAt(s, "github.com/", p)
    requires forall k :: p + 11 <= k < o ==> s[k] != '/'
    requires s[o] == '/'
    requires forall k :: o < k < |s| ==> s[k] != '/'
    ensures FirstRepo(s, 0) == Some(s[o + 1..])
  {
    forall j | 0 <= j < p ensures RepoAt(s, j).None? {
      NoRepoAt(s, j);
    }
    FirstRepoSkips(s, 0, p);
    RepoAtShape(s, p, o);
  }

  /** The repository name of a GitHub URL is its second path segment, with
      one `.git` removed. */
  lemma RepoNameOfUrl(pre: string, owner: string, name: string)
    requires 'g' !in pre
    requires owner != "" && '/' !in owner && name != "" && '/' !in name
    ensures ExtractRepoName(Some(JStr(pre + "github.com/" + owner + "/" + name))) == Some(StripGit(name))
  {
    var s := pre + "github.com/" + owner + "/" + name;
    var p := |pre|;
    var o := p + 11 + |owner|;
    assert forall j :: 0 <= j < p ==> s[j] == pre[j];
    assert s[p..p + 11] == "github.com/";
    assert forall k :: p + 11 <= k < o ==> s[k] == owner[k - p - 11];
    assert s[o] == '/';
    assert forall k :: o < k < |s| ==> s[k] == name[k - o - 1];
    assert s[o + 1..] == name;
    RepoOfShape(s, p, o);
  }

  // ---------------------------------------------------------------------
  // resolveRegistryEntry

  /** `registry.books || {}`. */
  function BooksOf(registry: Json): Json
  {
    match TruthyProp(registry, "books")
    case Some(b) => b
    case None => JObj([])
  }

  /** `config?.repository?.url`. */
  function RepoUrl(config: Option<Json>): Option<Json>
  {
    match config
    case None => None
    case Some(c) =>
      match Prop(c, "repository")
      case None => None
      case Some(r) => Prop(r, "url")
  }

  /** The search loop accepts the entry: an object whose `repo`, stripped,
      is the book name or the repository name. */
  predicate RepoMatches(entry: Json, bookName: string, repoName: Option<string>)
  {
    Truthy(entry) && IsObject(entry)
    && match Prop(entry, "repo")
       case Some(JStr(r)) => r != "" && (StripOwner(r) == bookName || Some(StripOwner(r)) == repoName)
       case _ => false
  }

  function Members(books: Json): seq<(string, Json)>
  {
    if books.JObj? then books.members else []
  }

  /** The first matching entry from position `k` on. */
  function FirstMatching(ms: seq<(string, Json)>, bookName: string, repoName: Option<string>, k: nat): (r: Option<nat>)
    requires k <= |ms|
    ensures r.Some? ==> k <= r.value < |ms| && RepoMatches(ms[r.value].1, bookName, repoName)
    ensures r.Some? ==> forall j :: k <= j < r.value ==> !RepoMatches(ms[j].1, bookName, repoName)
    ensures r.None? ==> forall j :: k <= j < |ms| ==> !RepoMatches(ms[j].1, bookName, repoName)
    decreases |ms| - k
  {
    if k == |ms| then None
    else if RepoMatches(ms[k].1, bookName, repoName) then Some(k)
    else FirstMatching(ms, bookName, repoName, k + 1)
  }

  /** The key and entry `resolveRegistryEntry` returns. */
  function ResolveOf(bookPath: string, config: Option<Json>, registry: Json): (r: Option<(string, Json)>)
    ensures r.Some? ==> Truthy(r.value.1)
  {
    var books := BooksOf(registry);
    var bookName := Basename(bookPath);
    if TruthyProp(books, bookName).Some? then Some((bookName, TruthyProp(books, bookName).value))
    else
      var repoName := ExtractRepoName(RepoUrl(config));
      if repoName.Some? && repoName.value != "" && TruthyProp(books, repoName.value).Some? then
        Some((repoName.value, TruthyProp(books, repoName.value).value))
      else
        var ms := Members(books);
        match FirstMatching(ms, bookName, repoName, 0)
        case Some(k) => Some(ms[k])
        case None => None
  }

  /** `resolveRegistryEntry`: by directory name, then by repository name, then
      by searching the entries' `repo`. */
  method ResolveRegistryEntry(bookPath: string, config: Option<Json>, registry: Json) returns (r: Option<(string, Json)>)
    ensures r == ResolveOf(bookPath, config, registry)
  {
    var books := BooksOf(registry);
    var bookName := Basename(bookPath);
    var byName := TruthyProp(books, bookName);
    if byName.Some? {
      return Some((bookName, byName.value));
    }
    var repoName := ExtractRepoName(RepoUrl(config));
    if repoName.Some? && repoName.value != "" {
      var byRepo := TruthyProp(books, repoName.value);
      if byRepo.Some? {
        return Some((repoName.value, byRepo.value));
      }
    }
    var entries := Members(books);
    for i := 0 to |entries|
      invariant FirstMatching(entries, bookName, repoName, 0) == FirstMatching(entries, bookName, repoName, i)
    {
      var (key, entry) := entries[i];
      if Truthy(entry) && IsObject(entry) {
        var repo := Prop(entry, "repo");
        if repo.Some? && repo.value.JStr? && repo.value.s != "" {
          var normalized := StripOwner(repo.value.s);
          if normalized == bookName || Some(normalized) == repoName {
            return Some((key, entry));
          }
        }
      }
    }
    r := None;
  }

  /** A book whose directory name is a key with a truthy entry resolves to it. */
  lemma ResolveByName(bookPath: string, config: Option<Json>, registry: Json)
    requires TruthyProp(BooksOf(registry), Basename(bookPath)).Some?
    ensures ResolveOf(bookPath, config, registry)
      == Some((Basename(bookPath), TruthyProp(BooksOf(registry), Basename(bookPath)).value))
  {
  }

  /** Nothing resolves when no key is the book or repository name and no
      entry's `repo` names either. */
  lemma ResolveNone(bookPath: string, config: Option<Json>, registry: Json)
    ensures ResolveOf(bookPath, config, registry).None? <==>
      && TruthyProp(BooksOf(registry), Basename(bookPath)).None?
      && (ExtractRepoName(RepoUrl(config)).Some? && ExtractRepoName(RepoUrl(config)).value != "" ==>
            TruthyProp(BooksOf(registry), ExtractRepoName(RepoUrl(config)).value).None?)
      && forall j :: 0 <= j < |Members(BooksOf(registry))| ==>
           !RepoMatches(Members(BooksOf(registry))[j].1, Basename(bookPath), ExtractRepoName(RepoUrl(config)))
  {
  }

  // ---------------------------------------------------------------------
  // updateBookConfig

  datatype UpdateResult = UpdateResult(updated: bool, skipped: bool)

  /** What `updateBookConfig` does: its result, whether it backs the file up,
      and the configuration it writes, if any. */
  datatype UpdatePlan = UpdatePlan(result: UpdateResult, backup: bool, write: Option<Json>)

  /** `{profile: entry.profile, modules: entry.modules}`, whose `undefined`
      members JSON leaves out. */
  function NextUx(entry: Json): Json
  {
    var profile := match Prop(entry, "profile") case Some(v) => [("profile", v)] case None => [];
    var modules := match Prop(entry, "modules") case Some(v) => [("modules", v)] case None => [];
    JObj(profile + modules)
  }

  /** The members `{...config}` copies: an object's own members; an array's
      elements, or a string's characters, under the keys "0", "1", …; and
      nothing for a boolean or a number. */
  function Spread(config: Json): seq<(string, Json)>
  {
    match config
    case JObj(ms) => ms
    case JArr(items) => seq(|items|, i requires 0 <= i < |items| => (NatToString(i), items[i]))
    case JStr(s) => seq(|s|, i requires 0 <= i < |s| => (NatToString(i), JStr([s[i]])))
    case _ => []
  }

  /** `{...config, ux}`. */
  function WithUx(config: Json, ux: Json): Json
  {
    JObj(JsMap.Set(Spread(config), "ux", ux))
  }

  /** An array's elements are copied under their indexes, and a string's
      characters likewise, each as a one-character string. */
  lemma SpreadIndexes(config: Json, i: nat)
    ensures config.JArr? && i < |config.items| ==> JsMap.Get(Spread(config), NatToString(i)) == Some(config.items[i])
    ensures config.JStr? && i < |config.s| ==> JsMap.Get(Spread(config), NatToString(i)) == Some(JStr([config.s[i]]))
  {
    var m := Spread(config);
    if (config.JArr? && i < |config.items|) || (config.JStr? && i < |config.s|) {
      forall j | 0 <= j < i ensures m[j].0 != NatToString(i) {
        if m[j].0 == NatToString(i) {
          NatToStringInjective(j, i);
        }
      }
      assert m[i].0 == NatToString(i);
      assert JsMap.IndexOf(m, NatToString(i)) == i;
    }
  }

  /** `config.ux || null` has the same JSON text as the next `ux`;
      equal texts are taken as equal values. */
  predicate SameUx(config: Json, entry: Json)
  {
    TruthyProp(config, "ux") == Some(NextUx(entry))
  }

  /** The decision of `updateBookConfig` for a book whose `book-config.json`
      holds `config` (`None` when it does not exist); a file holding `null`
      makes `config.ux` throw. */
  function PlanUpdate(config: Option<Json>, entry: Json, dryRun: bool, backup: bool): Result<UpdatePlan, RolloutError>
  {
    match config
    case None => Ok(UpdatePlan(UpdateResult(false, true), false, None))
    case Some(c) =>
      if c.JNull? then Err(UxOfNull)
      else if SameUx(c, entry) then Ok(UpdatePlan(UpdateResult(false, true), false, None))
      else if dryRun then Ok(UpdatePlan(UpdateResult(false, false), false, None))
      else Ok(UpdatePlan(UpdateResult(true, false), backup, Some(WithUx(c, NextUx(entry)))))
  }

  /** It throws exactly on a `null` file, and then on reading `ux`. Otherwise
      a write happens exactly when the book is updated; it is never both
      updated and skipped; it is skipped exactly when the file is missing or
      already up to date; a dry run writes nothing. */
  lemma PlanOutcomes(config: Option<Json>, entry: Json, dryRun: bool, backup: bool)
    ensures PlanUpdate(config, entry, dryRun, backup).Err? <==> config == Some(JNull)
    ensures PlanUpdate(config, entry, dryRun, backup).Err? ==> PlanUpdate(config, entry, dryRun, backup).error == UxOfNull
    ensures PlanUpdate(config, entry, dryRun, backup).Ok? ==>
      (PlanUpdate(config, entry, dryRun, backup).value.write.Some? <==> PlanUpdate(config, entry, dryRun, backup).value.result.updated)
    ensures PlanUpdate(config, entry, dryRun, backup).Ok? ==>
      !(PlanUpdate(config, entry, dryRun, backup).value.result.updated && PlanUpdate(config, entry, dryRun, backup).value.result.skipped)
    ensures PlanUpdate(config, entry, dryRun, backup).Ok? ==>
      (PlanUpdate(config, entry, dryRun, backup).value.result.skipped <==> config.None? || SameUx(config.value, entry))
    ensures PlanUpdate(config, entry, dryRun, backup).Ok? && dryRun ==> PlanUpdate(config, entry, dryRun, backup).value.write.None?
    ensures PlanUpdate(config, entry, dryRun, backup).Ok? && PlanUpdate(config, entry, dryRun, backup).value.backup ==>
      backup && PlanUpdate(config, entry, dryRun, backup).value.write.Some?
  {
  }

  /** The written configuration holds the next `ux`, and every other key has
      the value `{...config}` gives it: an object keeps its other members. */
  lemma PlanWrites(c: Json, entry: Json, backup: bool, k: string)
    requires PlanUpdate(Some(c), entry, false, backup).Ok?
    requires PlanUpdate(Some(c), entry, false, backup).value.write.Some?
    ensures Prop(PlanUpdate(Some(c), entry, false, backup).value.write.value, "ux") == Some(NextUx(entry))
    ensures k != "ux" ==> Prop(PlanUpdate(Some(c), entry, false, backup).value.write.value, k) == JsMap.Get(Spread(c), k)
    ensures c.JObj? && k != "ux" ==> Prop(PlanUpdate(Some(c), entry, false, backup).value.write.value, k) == Prop(c, k)
  {
    var ux := NextUx(entry);
    JsMap.GetSetSame(Spread(c), "ux", ux);
    if k != "ux" {
      JsMap.GetSetOther(Spread(c), "ux", ux, k);
    }
  }

  /** Running the update again on what it wrote skips the book. */
  lemma PlanIdempotent(c: Json, entry: Json, backup: bool, dryRun: bool)
    requires PlanUpdate(Some(c), entry, false, backup).Ok?
    requires PlanUpdate(Some(c), entry, false, backup).value.write.Some?
    ensures PlanUpdate(PlanUpdate(Some(c), entry, false, backup).value.write, entry, dryRun, backup) == Ok(UpdatePlan(UpdateResult(false, true), false, None))
  {
    PlanWrites(c, entry, backup, "ux");
  }

  // ---------------------------------------------------------------------
  // rollout

  /** The options `rollout` reads; an empty `registryPath` is no registry. */
  datatype Options = Options(registryPath: string, applyUxCore: bool, applyUxProfile: bool, dryRun: bool, backup: bool)

  datatype RolloutError =
    | NoAction               // neither --apply-ux-core nor --apply-ux-profile
    | RegistryRequired       // --apply-ux-profile without --registry
    | LoadFailed(message: string)
    | BadRegistry(error: RegistryError)
    | UxOfNull               // `config.ux` on a `book-config.json` holding `null`

  /** A book directory found by the listing and its `book-config.json`,
      `None` when that file does not exist. */
  datatype Book = Book(path: string, config: Option<Json>)

  datatype Counts = Counts(updated: nat, skipped: nat, missingRegistry: nat)

  /** One iteration of the loop over books, given whether there is a
      registry and what `resolveRegistryEntry` gave. */
  function StepOf(opts: Options, hasRegistry: bool, resolved: Option<(string, Json)>, config: Option<Json>, c: Counts)
    : Result<Counts, RolloutError>
  {
    if hasRegistry && resolved.None? then
      Ok(Counts(c.updated, c.skipped + 1, c.missingRegistry + 1))
    else if opts.applyUxProfile && hasRegistry then
      match PlanUpdate(config, resolved.value.1, opts.dryRun, opts.backup)
      case Err(e) => Err(e)
      case Ok(plan) =>
        Ok(Counts(c.updated + (if plan.result.updated then 1 else 0),
                  c.skipped + (if plan.result.skipped then 1 else 0), c.missingRegistry))
    else Ok(c)
  }

  /** The entry found for a book, when there is a registry. */
  function ResolvedFor(registry: Option<Json>, b: Book): Option<(string, Json)>
  {
    if registry.Some? then ResolveOf(b.path, b.config, registry.value) else None
  }

  /** One iteration of the loop over books. */
  function BookStep(opts: Options, registry: Option<Json>, b: Book, c: Counts): Result<Counts, RolloutError>
  {
    StepOf(opts, registry.Some?, ResolvedFor(registry, b), b.config, c)
  }

  /** The counters after the loop over `books`, or the error that stops it. */
  function CountBooks(opts: Options, registry: Option<Json>, books: seq<Book>): Result<Counts, RolloutError>
  {
    if books == [] then Ok(Counts(0, 0, 0))
    else
      match CountBooks(opts, registry, books[..|books| - 1])
      case Err(e) => Err(e)
      case Ok(c) => BookStep(opts, registry, books[|books| - 1], c)
  }

  /** The registry `rollout` works with, or the error that stops it. */
  function RegistryOf(opts: Options, loaded: Result<Json, string>): Result<Option<Json>, RolloutError>
  {
    if opts.registryPath == "" then Ok(None)
    else
      match loaded
      case Err(m) => Err(LoadFailed(m))
      case Ok(j) =>
        match NormalizeRegistry(j)
        case Err(e) => Err(BadRegistry(e))
        case Ok(n) => Ok(Some(n))
  }

  /** The counters a rollout ends with, or the error it throws; `loaded` is
      what reading the registry file gives. */
  function RolloutOf(opts: Options, loaded: Result<Json, string>, books: seq<Book>): Result<Counts, RolloutError>
  {
    if !opts.applyUxCore && !opts.applyUxProfile then Err(NoAction)
    else if opts.registryPath == "" && opts.applyUxProfile then Err(RegistryRequired)
    else
      match RegistryOf(opts, loaded)
      case Err(e) => Err(e)
      case Ok(registry) => CountBooks(opts, registry, books)
  }

  /** Once a book has thrown, the books after it do not matter. */
  lemma {:induction false} CountBooksErrSticks(opts: Options, registry: Option<Json>, books: seq<Book>, i: nat)
    requires i <= |books|
    requires CountBooks(opts, registry, books[..i]).Err?
    ensures CountBooks(opts, registry, books) == CountBooks(opts, registry, books[..i])
    decreases |books|
  {
    if i < |books| {
      var init := books[..|books| - 1];
      assert init[..i] == books[..i];
      CountBooksErrSticks(opts, registry, init, i);
    } else {
      assert books[..i] == books;
    }
  }

  /** One pass of the loop over books after the registry lookup: an
      unresolved book is counted as missing and skipped; otherwise, with the
      profile step, the book's `ux` is updated and counted, which throws on a
      `null` configuration. */
  method CountBook(opts: Options, hasRegistry: bool, resolved: Option<(string, Json)>, config: Option<Json>,
                   updated: nat, skipped: nat, missing: nat)
    returns (r: Result<Counts, RolloutError>)
    ensures r == StepOf(opts, hasRegistry, resolved, config, Counts(updated, skipped, missing))
  {
    var updatedCount, skippedCount, missingRegistry := updated, skipped, missing;
    var registryEntry: Option<Json> := None;
    if hasRegistry {
      if resolved.None? {
        missingRegistry := missingRegistry + 1;
        skippedCount := skippedCount + 1;
        return Ok(Counts(updatedCount, skippedCount, missingRegistry));
      }
      registryEntry := Some(resolved.value.1);
    }
    if opts.applyUxProfile && registryEntry.Some? {
      var plan := PlanUpdate(config, registryEntry.value, opts.dryRun, opts.backup);
      if plan.Err? {
        return Err(plan.error);
      }
      if plan.value.result.updated {
        updatedCount := updatedCount + 1;
      }
      if plan.value.result.skipped {
        skippedCount := skippedCount + 1;
      }
    }
    r := Ok(Counts(updatedCount, skippedCount, missingRegistry));
  }

  /** The loop over one more book is one more step. */
  lemma CountBooksAt(opts: Options, registry: Option<Json>, books: seq<Book>, i: nat, c: Counts)
    requires i < |books|
    requires CountBooks(opts, registry, books[..i]) == Ok(c)
    ensures CountBooks(opts, registry, books[..i + 1]) == BookStep(opts, registry, books[i], c)
  {
    assert books[..i + 1][..i] == books[..i];
  }

  /** `rollout` without the component synchronisation and the console. */
  method Rollout(opts: Options, loaded: Result<Json, string>, books: seq<Book>) returns (r: Result<Counts, RolloutError>)
    ensures r == RolloutOf(opts, loaded, books)
  {
    if !opts.applyUxCore && !opts.applyUxProfile {
      return Err(NoAction);
    }
    var registry: Option<Json> := None;
    if opts.registryPath != "" {
      if loaded.Err? {
        return Err(LoadFailed(loaded.error));
      }
      var normalized := NormalizeRegistry(loaded.value);
      if normalized.Err? {
        return Err(BadRegistry(normalized.error));
      }
      registry := Some(normalized.value);
    } else if opts.applyUxProfile {
      return Err(RegistryRequired);
    }
    var updatedCount, skippedCount, missingRegistry := 0, 0, 0;
    for i := 0 to |books|
      invariant CountBooks(opts, registry, books[..i]) == Ok(Counts(updatedCount, skippedCount, missingRegistry))
    {
      CountBooksAt(opts, registry, books, i, Counts(updatedCount, skippedCount, missingRegistry));
      var book := books[i];
      var resolved: Option<(string, Json)> := None;
      if registry.Some? {
        resolved := ResolveRegistryEntry(book.path, book.config, registry.value);
      }
      var step := CountBook(opts, registry.Some?, resolved, book.config, updatedCount, skippedCount, missingRegistry);
      if step.Err? {
        CountBooksErrSticks(opts, registry, books, i + 1);
        return Err(step.error);
      }
      updatedCount, skippedCount, missingRegistry := step.value.updated, step.value.skipped, step.value.missingRegistry;
    }
    assert books[..|books|] == books;
    r := Ok(Counts(updatedCount, skippedCount, missingRegistry));
  }

  /** The two option checks, each exactly when it fires. */
  lemma RolloutRejects(opts: Options, loaded: Result<Json, string>, books: seq<Book>)
    ensures RolloutOf(opts, loaded, books) == Err(NoAction) <==> !opts.applyUxCore && !opts.applyUxProfile
    ensures RolloutOf(opts, loaded, books) == Err(RegistryRequired) <==> opts.applyUxProfile && opts.registryPath == ""
  {
    match RegistryOf(opts, loaded)
    case Ok(registry) => CountBooksThrows(opts, registry, books);
    case Err(_) =>
  }

  predicate Unresolved(registry: Json, b: Book)
  {
    ResolveOf(b.path, b.config, registry).None?
  }

  function UnresolvedIn(registry: Json): Book -> bool
  {
    (b: Book) => Unresolved(registry, b)
  }

  /** A book whose `ux` is updated: it has a registry entry, the profile step
      is asked for, and its `book-config.json` holds `null`. */
  predicate ThrowsOn(opts: Options, registry: Option<Json>, b: Book)
  {
    registry.Some? && opts.applyUxProfile && !Unresolved(registry.value, b) && b.config == Some(JNull)
  }

  /** One step throws exactly on a book it would update that holds `null`. */
  lemma BookStepThrows(opts: Options, registry: Option<Json>, b: Book, c: Counts)
    ensures BookStep(opts, registry, b, c).Err? <==> ThrowsOn(opts, registry, b)
    ensures BookStep(opts, registry, b, c).Err? ==> BookStep(opts, registry, b, c).error == UxOfNull
  {
    if registry.Some? && !Unresolved(registry.value, b) && opts.applyUxProfile {
      PlanOutcomes(b.config, ResolveOf(b.path, b.config, registry.value).value.1, opts.dryRun, opts.backup);
    }
  }

  function ThrowsIn(opts: Options, registry: Option<Json>): Book -> bool
  {
    (b: Book) => ThrowsOn(opts, registry, b)
  }

  /** The loop throws exactly when it meets a book it would update that
      holds `null`, and then with the error of reading `ux`. */
  lemma {:induction false} CountBooksThrows(opts: Options, registry: Option<Json>, books: seq<Book>)
    ensures CountBooks(opts, registry, books).Err? <==> CountWhere(ThrowsIn(opts, registry), books) > 0
    ensures CountBooks(opts, registry, books).Err? ==> CountBooks(opts, registry, books).error == UxOfNull
  {
    if books != [] {
      var init := books[..|books| - 1];
      var b := books[|books| - 1];
      CountBooksThrows(opts, registry, init);
      if CountBooks(opts, registry, init).Ok? {
        BookStepThrows(opts, registry, b, CountBooks(opts, registry, init).value);
      }
    }
  }

  /** The same, stated over the books themselves. */
  lemma NullConfigThrows(opts: Options, registry: Option<Json>, books: seq<Book>)
    ensures CountBooks(opts, registry, books).Err? <==> exists j :: 0 <= j < |books| && ThrowsOn(opts, registry, books[j])
    ensures CountBooks(opts, registry, books).Err? ==> CountBooks(opts, registry, books).error == UxOfNull
  {
    CountBooksThrows(opts, registry, books);
    CountWhereExists(ThrowsIn(opts, registry), books);
  }

  /** When no book throws: every book is updated, skipped, or neither, never
      both; every book without a registry entry is counted as missing and as
      skipped; without a registry nothing is missing; a dry run updates
      nothing; without `applyUxProfile` only missing books are skipped. */
  lemma {:induction false} CountFacts(opts: Options, registry: Option<Json>, books: seq<Book>)
    ensures CountBooks(opts, registry, books).Ok? ==>
      CountBooks(opts, registry, books).value.updated + CountBooks(opts, registry, books).value.skipped <= |books|
    ensures CountBooks(opts, registry, books).Ok? ==>
      CountBooks(opts, registry, books).value.missingRegistry <= CountBooks(opts, registry, books).value.skipped
    ensures CountBooks(opts, registry, books).Ok? && registry.Some? ==>
      CountBooks(opts, registry, books).value.missingRegistry == CountWhere(UnresolvedIn(registry.value), books)
    ensures CountBooks(opts, registry, books).Ok? && registry.None? ==> CountBooks(opts, registry, books).value.missingRegistry == 0
    ensures CountBooks(opts, registry, books).Ok? && opts.dryRun ==> CountBooks(opts, registry, books).value.updated == 0
    ensures CountBooks(opts, registry, books).Ok? && !opts.applyUxProfile ==>
      CountBooks(opts, registry, books).value.updated == 0
      && CountBooks(opts, registry, books).value.skipped == CountBooks(opts, registry, books).value.missingRegistry
  {
    if books != [] {
      var init := books[..|books| - 1];
      CountFacts(opts, registry, init);
      var b := books[|books| - 1];
      if CountBooks(opts, registry, init).Ok? && registry.Some? && !Unresolved(registry.value, b) && opts.applyUxProfile {
        PlanOutcomes(b.config, ResolveOf(b.path, b.config, registry.value).value.1, opts.dryRun, opts.backup);
      }
    }
  }
}
