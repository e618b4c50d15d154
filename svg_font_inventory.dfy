/** The aggregation of the SVG font inventory: per normalised
    `font-family` value, how often it occurs and in which files, then the
    items in the report's order and the summary counters. */
module SvgFontInventory {
  import opened Wrappers
  import opened Seqs
  import opened FontValues
  import opened SvgFontExtract

  /** One file the glob found: its path relative to the base directory,
      with `/` separators, and its contents (`None` when reading failed). */
  datatype SvgFile = SvgFile(rel: string, content: Option<string>)

  /** One counted match: its normalised value and the file it occurs in. */
  datatype Use = Use(value: string, rel: string)

  /** A `fontMap` entry: the occurrence counter and the file set, in the
      insertion order a JavaScript `Set` keeps. */
  datatype Entry = Entry(occurrences: nat, files: seq<string>)

  /** `fontMap`: its keys in insertion order and its entries. */
  datatype FontMap = FontMap(keys: seq<string>, entries: map<string, Entry>)

  datatype Item = Item(value: string, occurrences: nat, fileCount: nat, files: seq<string>)

  datatype Summary = Summary(scannedSvgFiles: nat, totalFontFamilyMatches: nat, uniqueFontFamilyValues: nat, readErrors: nat)

  datatype Report = Report(summary: Summary, fonts: seq<Item>)

  /** `Math.max(1, Number(opts.limit) || 5)`, for an option that reads as
      an integer (`None` when `Number` gives `NaN`). */
  function EffectiveLimit(n: Option<int>): (r: nat)
    ensures r >= 1
    ensures n.Some? && n.value >= 1 ==> r == n.value
    ensures (n.None? || n.value == 0) ==> r == 5
    ensures n.Some? && n.value < 0 ==> r == 1
  {
    match n
    case None => 5
    case Some(k) => if k == 0 then 5 else if k < 1 then 1 else k
  }

  // ---------------------------------------------------------------------
  // What is counted

  /** The normalised values among raw captures that are not empty, in
      order. */
  function Kept(raw: seq<string>): (r: seq<string>)
    ensures |r| <= |raw|
    ensures forall i :: 0 <= i < |r| ==> r[i] != []
  {
    if raw == [] then []
    else
      var v := NormalizeFontValue(raw[|raw| - 1]);
      Kept(raw[..|raw| - 1]) + (if v == [] then [] else [v])
  }

  function Tagger(rel: string): string -> Use
  {
    (v: string) => Use(v, rel)
  }

  /** The matches of one file that are counted. */
  function FileUses(f: SvgFile): seq<Use>
  {
    match f.content
    case None => []
    case Some(c) => Map(Tagger(f.rel), Kept(Extracted(c)))
  }

  /** Every counted match, file by file. */
  function Uses(files: seq<SvgFile>): seq<Use>
  {
    FlatMap(FileUses, files)
  }

  function Unreadable(): SvgFile -> bool
  {
    (f: SvgFile) => f.content.None?
  }

  function ReadErrors(files: seq<SvgFile>): nat
  {
    CountWhere(Unreadable(), files)
  }

  // ---------------------------------------------------------------------
  // `fontMap`

  function EmptyMap(): FontMap
  {
    FontMap([], map[])
  }

  /** One iteration of the inner loop: bump the value's counter and add the
      file to its set, creating the entry at the end of the key order. */
  function Record(t: FontMap, u: Use): FontMap
  {
    if u.value in t.entries then
      var e := t.entries[u.value];
      var files := if u.rel in e.files then e.files else e.files + [u.rel];
      FontMap(t.keys, t.entries[u.value := Entry(e.occurrences + 1, files)])
    else
      FontMap(t.keys + [u.value], t.entries[u.value := Entry(1, [u.rel])])
  }

  /** The map after recording `us` onto `t`. */
  function TallyOnto(t: FontMap, us: seq<Use>): FontMap
  {
    if us == [] then t else Record(TallyOnto(t, us[..|us| - 1]), us[|us| - 1])
  }

  function Tally(us: seq<Use>): FontMap
  {
    TallyOnto(EmptyMap(), us)
  }

  /** How many of `us` have value `v`. */
  function Count(us: seq<Use>, v: string): nat
  {
    if us == [] then 0 else Count(us[..|us| - 1], v) + (if us[|us| - 1].value == v then 1 else 0)
  }

  function Values(us: seq<Use>): set<string>
  {
    set u | u in us :: u.value
  }

  /** The files that hold a match of value `v`. */
  function FilesWith(us: seq<Use>, v: string): set<string>
  {
    set u | u in us && u.value == v :: u.rel
  }

  // ---------------------------------------------------------------------
  // Items and their order

  /** `Array.from(data.files).slice(0, limit)`. */
  function Sample(files: seq<string>, limit: nat): (r: seq<string>)
    ensures |r| <= limit && |r| <= |files|
    ensures r == files[..|r|]
    ensures |files| <= limit ==> r == files
  {
    if |files| <= limit then files else files[..limit]
  }

  function Itemizer(t: FontMap, limit: nat): string -> Item
  {
    (k: string) =>
      var e := if k in t.entries then t.entries[k] else Entry(0, []);
      Item(k, e.occurrences, |e.files|, Sample(e.files, limit))
  }

  /** The items in `fontMap` order, before sorting. */
  function ItemsOf(t: FontMap, limit: nat): seq<Item>
  {
    Map(Itemizer(t, limit), t.keys)
  }

  /** `a.localeCompare(b) <= 0`, read as the order of code points. */
  predicate LexLeq(a: string, b: string)
  {
    |a| == 0 || (|b| > 0 && (a[0] < b[0] || (a[0] == b[0] && LexLeq(a[1..], b[1..]))))
  }

  /** The comparator of the sort is not positive for `a, b`: more
      occurrences first, then more files, then the value in order. */
  predicate Precedes(a: Item, b: Item)
  {
    || a.occurrences > b.occurrences
    || (a.occurrences == b.occurrences
        && (a.fileCount > b.fileCount || (a.fileCount == b.fileCount && LexLeq(a.value, b.value))))
  }

  predicate Sorted(xs: seq<Item>)
  {
    forall i, j :: 0 <= i < j < |xs| ==> Precedes(xs[i], xs[j])
  }

  function Insert(x: Item, xs: seq<Item>): seq<Item>
  {
    if xs == [] then [x]
    else if Precedes(x, xs[0]) then [x] + xs
    else [xs[0]] + Insert(x, xs[1..])
  }

  /** The order `Array.prototype.sort` leaves with that comparator. */
  function Sort(xs: seq<Item>): seq<Item>
  {
    if xs == [] then [] else Insert(xs[0], Sort(xs[1..]))
  }

  function SumOccurrences(xs: seq<Item>): nat
  {
    if xs == [] then 0 else xs[0].occurrences + SumOccurrences(xs[1..])
  }

  /** The JSON report of a run over `files`. */
  function ReportOf(files: seq<SvgFile>, limit: nat): Report
  {
    var us := Uses(files);
    var fonts := Sort(ItemsOf(Tally(us), limit));
    Report(Summary(|files|, |us|, |fonts|, ReadErrors(files)), fonts)
  }

  // ---------------------------------------------------------------------
  // The loops of `main`

  /** `for (const fontRaw of fonts)`: returns the map and the match counter
      after one file's captures. */
  method CountFonts(t0: FontMap, total0: nat, rel: string, fonts: seq<string>) returns (t: FontMap, total: nat)
    ensures t == TallyOnto(t0, Map(Tagger(rel), Kept(fonts)))
    ensures total == total0 + |Kept(fonts)|
  {
    t, total := t0, total0;
    for j := 0 to |fonts|
      invariant t == TallyOnto(t0, Map(Tagger(rel), Kept(fonts[..j])))
      invariant total == total0 + |Kept(fonts[..j])|
    {
      var value := NormalizeFontValue(fonts[j]);
      CountStep(t0, rel, fonts, j);
      if value != [] {
        total := total + 1;
        t := Record(t, Use(value, rel));
      }
    }
    assert fonts[..|fonts|] == fonts;
  }

  /** One iteration of the inner loop, on the map and on the counter. */
  lemma CountStep(t0: FontMap, rel: string, fonts: seq<string>, j: nat)
    requires j < |fonts|
    ensures NormalizeFontValue(fonts[j]) == [] ==>
      Kept(fonts[..j + 1]) == Kept(fonts[..j])
    ensures NormalizeFontValue(fonts[j]) != [] ==>
      && |Kept(fonts[..j + 1])| == |Kept(fonts[..j])| + 1
      && TallyOnto(t0, Map(Tagger(rel), Kept(fonts[..j + 1])))
         == Record(TallyOnto(t0, Map(Tagger(rel), Kept(fonts[..j]))), Use(NormalizeFontValue(fonts[j]), rel))
  {
    assert fonts[..j + 1][..j] == fonts[..j];
    var kept := Kept(fonts[..j]);
    var value := NormalizeFontValue(fonts[j]);
    if value != [] {
      assert Kept(fonts[..j + 1]) == kept + [value];
      MapSnoc(Tagger(rel), kept, value);
      var us := Map(Tagger(rel), kept);
      assert (us + [Use(value, rel)])[..|us|] == us;
    }
  }

  /** One more file: its uses follow the earlier files' uses. */
  lemma UsesStep(files: seq<SvgFile>, i: nat)
    requires i < |files|
    ensures Uses(files[..i + 1]) == Uses(files[..i]) + FileUses(files[i])
  {
    var f := files[i];
    assert files[..i + 1] == files[..i] + [f];
    FlatMapAppend(FileUses, files[..i], [f]);
    assert FlatMap(FileUses, [f]) == FileUses(f) by {
      assert [f][..0] == [];
    }
  }

  /** One more file: its uses are tallied onto the map, and an unreadable
      one is a read error. */
  lemma InventoryStep(files: seq<SvgFile>, i: nat)
    requires i < |files|
    ensures |Uses(files[..i + 1])| == |Uses(files[..i])| + |FileUses(files[i])|
    ensures Tally(Uses(files[..i + 1])) == TallyOnto(Tally(Uses(files[..i])), FileUses(files[i]))
    ensures ReadErrors(files[..i + 1]) == ReadErrors(files[..i]) + (if files[i].content.None? then 1 else 0)
  {
    UsesStep(files, i);
    TallyOntoAppend(EmptyMap(), Uses(files[..i]), FileUses(files[i]));
    assert files[..i + 1][..i] == files[..i];
  }

  method Inventory(files: seq<SvgFile>, limitOption: Option<int>) returns (report: Report)
    ensures report == ReportOf(files, EffectiveLimit(limitOption))
  {
    var limit := EffectiveLimit(limitOption);
    var fontMap := EmptyMap();
    var totalMatches := 0;
    var readErrors := 0;
    for i := 0 to |files|
      invariant fontMap == Tally(Uses(files[..i]))
      invariant totalMatches == |Uses(files[..i])|
      invariant readErrors == ReadErrors(files[..i])
    {
      var f := files[i];
      InventoryStep(files, i);
      match f.content {
        case None =>
          readErrors := readErrors + 1;
        case Some(content) =>
          var fonts := ExtractFontFamilies(content);
          if |fonts| > 0 {
            fontMap, totalMatches := CountFonts(fontMap, totalMatches, f.rel, fonts);
          }
      }
    }
    assert files[..|files|] == files;
    var items := Sort(ItemsOf(fontMap, limit));
    report := Report(Summary(|files|, totalMatches, |items|, readErrors), items);
  }

  lemma {:induction false} TallyOntoAppend(t: FontMap, a: seq<Use>, b: seq<Use>)
    ensures TallyOnto(t, a + b) == TallyOnto(TallyOnto(t, a), b)
    decreases |b|
  {
    if b == [] {
      assert a + b == a;
    } else {
      var init := b[..|b| - 1];
      TallyOntoAppend(t, a, init);
      assert (a + b)[..|a + b| - 1] == a + init;
      assert (a + b)[|a + b| - 1] == b[|b| - 1];
    }
  }

  // ---------------------------------------------------------------------
  // What `fontMap` holds

  /** The keys are distinct, are the entries' domain, and are exactly the
      counted values. */
  lemma {:induction false} TallyKeys(us: seq<Use>)
    ensures Distinct(Tally(us).keys)
    ensures forall v :: v in Tally(us).entries <==> v in Tally(us).keys
    ensures forall v :: v in Tally(us).keys <==> v in Values(us)
  {
    if us != [] {
      var init := us[..|us| - 1];
      var u := us[|us| - 1];
      TallyKeys(init);
      assert us == init + [u];
      assert Values(us) == Values(init) + {u.value};
      if u.value !in Tally(init).entries {
        DistinctSnoc(Tally(init).keys, u.value);
      }
    }
  }

  /** Each entry counts exactly the matches of its value. */
  lemma {:induction false} TallyCounts(us: seq<Use>)
    ensures forall v :: v in Tally(us).entries ==> Tally(us).entries[v].occurrences == Count(us, v)
    ensures forall v :: v !in Tally(us).entries ==> Count(us, v) == 0
  {
    if us != [] {
      TallyCounts(us[..|us| - 1]);
    }
  }

  /** Each entry's files are distinct and are exactly the files holding a
      match of its value. */
  lemma {:induction false} TallyFiles(us: seq<Use>)
    ensures forall v :: v in Tally(us).entries ==>
      Distinct(Tally(us).entries[v].files) && (set r | r in Tally(us).entries[v].files) == FilesWith(us, v)
  {
    if us != [] {
      var init := us[..|us| - 1];
      var u := us[|us| - 1];
      TallyFiles(init);
      TallyKeys(init);
      assert us == init + [u];
      forall v | v in Tally(us).entries
        ensures Distinct(Tally(us).entries[v].files) && (set r | r in Tally(us).entries[v].files) == FilesWith(us, v)
      {
        if v == u.value {
          assert FilesWith(us, v) == FilesWith(init, v) + {u.rel};
          if v in Tally(init).entries {
            var files := Tally(init).entries[v].files;
            if u.rel !in files {
              DistinctSnoc(files, u.rel);
            }
          } else {
            assert v !in Values(init);
            assert FilesWith(init, v) == {};
          }
        } else {
          assert FilesWith(us, v) == FilesWith(init, v);
        }
      }
    }
  }

  /** The occurrences of the keys after `keys`, as entries hold them. */
  function KeySum(keys: seq<string>, m: map<string, Entry>): nat
  {
    if keys == [] then 0
    else KeySum(keys[..|keys| - 1], m) + (if keys[|keys| - 1] in m then m[keys[|keys| - 1]].occurrences else 0)
  }

  lemma {:induction false} KeySumFresh(keys: seq<string>, m: map<string, Entry>, v: string, e: Entry)
    requires v !in keys
    ensures KeySum(keys, m[v := e]) == KeySum(keys, m)
  {
    if keys != [] {
      KeySumFresh(keys[..|keys| - 1], m, v, e);
    }
  }

  lemma {:induction false} KeySumBump(keys: seq<string>, m: map<string, Entry>, v: string, e: Entry)
    requires Distinct(keys) && v in keys && v in m
    ensures KeySum(keys, m[v := e]) + m[v].occurrences == KeySum(keys, m) + e.occurrences
  {
    var init := keys[..|keys| - 1];
    var last := keys[|keys| - 1];
    if last == v {
      assert v !in init;
      KeySumFresh(init, m, v, e);
    } else {
      assert v in init;
      KeySumBump(init, m, v, e);
    }
  }

  /** The counters add up to the number of counted matches. */
  lemma {:induction false} TallyTotal(us: seq<Use>)
    ensures KeySum(Tally(us).keys, Tally(us).entries) == |us|
  {
    if us != [] {
      var init := us[..|us| - 1];
      var u := us[|us| - 1];
      TallyTotal(init);
      TallyKeys(init);
      var t := Tally(init);
      if u.value in t.entries {
        var e := t.entries[u.value];
        var files := if u.rel in e.files then e.files else e.files + [u.rel];
        KeySumBump(t.keys, t.entries, u.value, Entry(e.occurrences + 1, files));
      } else {
        var m := t.entries[u.value := Entry(1, [u.rel])];
        KeySumFresh(t.keys, t.entries, u.value, Entry(1, [u.rel]));
        assert (t.keys + [u.value])[..|t.keys|] == t.keys;
      }
    }
  }

  // ---------------------------------------------------------------------
  // The order

  lemma {:induction false} LexTotal(a: string, b: string)
    ensures LexLeq(a, b) || LexLeq(b, a)
    decreases |a|
  {
    if |a| > 0 && |b| > 0 && a[0] == b[0] {
      LexTotal(a[1..], b[1..]);
    }
  }

  lemma {:induction false} LexTrans(a: string, b: string, c: string)
    requires LexLeq(a, b) && LexLeq(b, c)
    ensures LexLeq(a, c)
    decreases |a|
  {
    if |a| > 0 && a[0] == b[0] && b[0] == c[0] {
      LexTrans(a[1..], b[1..], c[1..]);
    }
  }

  lemma {:induction false} LexAntisymmetric(a: string, b: string)
    requires LexLeq(a, b) && LexLeq(b, a)
    ensures a == b
    decreases |a|
  {
    if |a| > 0 {
      LexAntisymmetric(a[1..], b[1..]);
      assert a == [a[0]] + a[1..] && b == [b[0]] + b[1..];
    }
  }

  lemma PrecedesTotal(a: Item, b: Item)
    ensures Precedes(a, b) || Precedes(b, a)
  {
    LexTotal(a.value, b.value);
  }

  lemma PrecedesTrans(a: Item, b: Item, c: Item)
    requires Precedes(a, b) && Precedes(b, c)
    ensures Precedes(a, c)
  {
    if a.occurrences == b.occurrences == c.occurrences && a.fileCount == b.fileCount == c.fileCount {
      LexTrans(a.value, b.value, c.value);
    }
  }

  /** Two items each of which may precede the other agree on everything the
      comparator looks at, so the comparator orders items with distinct
      values strictly. */
  lemma PrecedesBoth(a: Item, b: Item)
    requires Precedes(a, b) && Precedes(b, a)
    ensures a.occurrences == b.occurrences && a.fileCount == b.fileCount && a.value == b.value
  {
    LexAntisymmetric(a.value, b.value);
  }

  lemma {:induction false} InsertPerm(x: Item, xs: seq<Item>)
    ensures multiset(Insert(x, xs)) == multiset(xs) + multiset{x}
    decreases |xs|
  {
    if xs != [] && !Precedes(x, xs[0]) {
      InsertPerm(x, xs[1..]);
      assert xs == [xs[0]] + xs[1..];
    }
  }

  lemma {:induction false} InsertSorted(x: Item, xs: seq<Item>)
    requires Sorted(xs)
    ensures Sorted(Insert(x, xs))
    decreases |xs|
  {
    if xs == [] {
    } else if Precedes(x, xs[0]) {
      forall j | 0 < j < |xs| ensures Precedes(x, xs[j]) {
        PrecedesTrans(x, xs[0], xs[j]);
      }
    } else {
      PrecedesTotal(x, xs[0]);
      InsertSorted(x, xs[1..]);
      InsertPerm(x, xs[1..]);
      var r := Insert(x, xs[1..]);
      forall k | 0 <= k < |r| ensures Precedes(xs[0], r[k]) {
        assert r[k] in multiset(xs[1..]) + multiset{x};
        if r[k] != x {
          var m :| 0 <= m < |xs[1..]| && xs[1..][m] == r[k];
        }
      }
    }
  }

  /** The sort only reorders the items. */
  lemma {:induction false} SortPerm(xs: seq<Item>)
    ensures multiset(Sort(xs)) == multiset(xs)
    decreases |xs|
  {
    if xs != [] {
      SortPerm(xs[1..]);
      InsertPerm(xs[0], Sort(xs[1..]));
      assert xs == [xs[0]] + xs[1..];
    }
  }

  /** The sort leaves the items in the comparator's order. */
  lemma {:induction false} SortSorted(xs: seq<Item>)
    ensures Sorted(Sort(xs))
    decreases |xs|
  {
    if xs != [] {
      SortSorted(xs[1..]);
      InsertSorted(xs[0], Sort(xs[1..]));
    }
  }

  lemma {:induction false} InsertSum(x: Item, xs: seq<Item>)
    ensures SumOccurrences(Insert(x, xs)) == x.occurrences + SumOccurrences(xs)
    decreases |xs|
  {
    if xs != [] && !Precedes(x, xs[0]) {
      InsertSum(x, xs[1..]);
    }
  }

  lemma {:induction false} SortSum(xs: seq<Item>)
    ensures SumOccurrences(Sort(xs)) == SumOccurrences(xs)
    decreases |xs|
  {
    if xs != [] {
      SortSum(xs[1..]);
      InsertSum(xs[0], Sort(xs[1..]));
    }
  }

  // ---------------------------------------------------------------------
  // The report

  lemma {:induction false} ItemsSum(t: FontMap, limit: nat, keys: seq<string>)
    ensures SumOccurrences(Map(Itemizer(t, limit), keys)) == KeySum(keys, t.entries)
    decreases |keys|
  {
    if keys != [] {
      var init := keys[..|keys| - 1];
      var last := keys[|keys| - 1];
      ItemsSum(t, limit, init);
      SumSnoc(Map(Itemizer(t, limit), init), Itemizer(t, limit)(last));
    }
  }

  lemma {:induction false} SumSnoc(xs: seq<Item>, x: Item)
    ensures SumOccurrences(xs + [x]) == SumOccurrences(xs) + x.occurrences
    decreases |xs|
  {
    if xs != [] {
      SumSnoc(xs[1..], x);
      assert (xs + [x])[1..] == xs[1..] + [x];
    }
  }

  lemma {:induction false} DistinctCard<T>(xs: seq<T>)
    requires Distinct(xs)
    ensures |set x | x in xs| == |xs|
    decreases |xs|
  {
    if xs != [] {
      var init := xs[..|xs| - 1];
      var last := xs[|xs| - 1];
      DistinctCard(init);
      assert xs == init + [last];
      assert (set x | x in xs) == (set x | x in init) + {last};
    }
  }

  /** `totalFontFamilyMatches` is the sum of the items' occurrences. */
  lemma ReportTotal(files: seq<SvgFile>, limit: nat)
    ensures ReportOf(files, limit).summary.totalFontFamilyMatches == SumOccurrences(ReportOf(files, limit).fonts)
  {
    var us := Uses(files);
    TallyTotal(us);
    ItemsSum(Tally(us), limit, Tally(us).keys);
    SortSum(ItemsOf(Tally(us), limit));
  }

  /** `uniqueFontFamilyValues` is the number of distinct counted values. */
  lemma ReportUnique(files: seq<SvgFile>, limit: nat)
    ensures ReportOf(files, limit).summary.uniqueFontFamilyValues == |Values(Uses(files))|
  {
    var us := Uses(files);
    var t := Tally(us);
    TallyKeys(us);
    SortPerm(ItemsOf(t, limit));
    assert |Sort(ItemsOf(t, limit))| == |ItemsOf(t, limit)| by {
      assert |multiset(Sort(ItemsOf(t, limit)))| == |multiset(ItemsOf(t, limit))|;
    }
    DistinctCard(t.keys);
    assert (set x | x in t.keys) == Values(us);
  }

  /** The report's items are in the comparator's order and are the map's
      items, each once. */
  lemma ReportSorted(files: seq<SvgFile>, limit: nat)
    ensures Sorted(ReportOf(files, limit).fonts)
    ensures multiset(ReportOf(files, limit).fonts) == multiset(ItemsOf(Tally(Uses(files)), limit))
  {
    SortSorted(ItemsOf(Tally(Uses(files)), limit));
    SortPerm(ItemsOf(Tally(Uses(files)), limit));
  }

  /** What one item of the report says: a counted value, the number of its
      matches, the number of distinct files holding one, and at most
      `limit` of those files. */
  predicate ItemTells(us: seq<Use>, limit: nat, it: Item)
  {
    && it.value in Values(us) && it.value != []
    && it.occurrences == Count(us, it.value)
    && it.fileCount == |FilesWith(us, it.value)|
    && |it.files| <= limit && |it.files| <= it.fileCount
    && (forall r :: r in it.files ==> r in FilesWith(us, it.value))
  }

  lemma KeptInUses(files: seq<SvgFile>, v: string)
    requires v in Values(Uses(files))
    ensures v != []
  {
    var u :| u in Uses(files) && u.value == v;
    FlatMapMember(files, u);
  }

  lemma {:induction false} FlatMapMember(files: seq<SvgFile>, u: Use)
    requires u in Uses(files)
    ensures u.value != []
    decreases |files|
  {
    var init := files[..|files| - 1];
    var f := files[|files| - 1];
    if u in Uses(init) {
      FlatMapMember(init, u);
    } else {
      assert u in FileUses(f);
      var c := f.content.value;
      var k :| 0 <= k < |FileUses(f)| && FileUses(f)[k] == u;
      MapAt(Tagger(f.rel), Kept(Extracted(c)), k);
    }
  }

  lemma ItemOfKey(files: seq<SvgFile>, limit: nat, i: nat)
    requires i < |ItemsOf(Tally(Uses(files)), limit)|
    ensures ItemTells(Uses(files), limit, ItemsOf(Tally(Uses(files)), limit)[i])
  {
    var us := Uses(files);
    var t := Tally(us);
    TallyKeys(us);
    TallyCounts(us);
    TallyFiles(us);
    var k := t.keys[i];
    MapAt(Itemizer(t, limit), t.keys, i);
    KeptInUses(files, k);
    var e := t.entries[k];
    DistinctCard(e.files);
    var sample := Sample(e.files, limit);
    forall r | r in sample ensures r in FilesWith(us, k) {
      assert r in e.files;
    }
  }

  /** Every item of the report tells the truth about its value, and every
      counted value has an item. */
  lemma ReportItems(files: seq<SvgFile>, limit: nat)
    ensures forall it :: it in ReportOf(files, limit).fonts ==> ItemTells(Uses(files), limit, it)
    ensures forall v :: v in Values(Uses(files)) ==>
      exists it :: it in ReportOf(files, limit).fonts && it.value == v
  {
    var us := Uses(files);
    var t := Tally(us);
    var items := ItemsOf(t, limit);
    SortPerm(items);
    TallyKeys(us);
    forall it | it in ReportOf(files, limit).fonts ensures ItemTells(us, limit, it) {
      assert it in multiset(items);
      var i :| 0 <= i < |items| && items[i] == it;
      ItemOfKey(files, limit, i);
    }
    forall v | v in Values(us) ensures exists it :: it in ReportOf(files, limit).fonts && it.value == v {
      var i :| 0 <= i < |t.keys| && t.keys[i] == v;
      MapAt(Itemizer(t, limit), t.keys, i);
      assert items[i] in multiset(Sort(items));
    }
  }
}
