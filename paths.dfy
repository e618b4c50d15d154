/** POSIX path operations (`path.join`, `path.resolve`, `path.dirname`,
    `path.basename`, `path.extname`, `path.relative`) on absolute paths, and the
    file system the tools observe: which paths exist, which are directories, and
    what reading or stat-ing a file gives. */
module Paths {
  import opened Wrappers
  import opened Text

  type Path = string

  /** The non-empty, non-`.` pieces of a path. */
  function Segments(p: string): seq<string>
  {
    KeepNamed(Split(p, '/'))
  }

  function KeepNamed(parts: seq<string>): (r: seq<string>)
    ensures forall x :: x in r ==> x != "" && x != "."
  {
    if parts == [] then []
    else if parts[0] == "" || parts[0] == "." then KeepNamed(parts[1..])
    else [parts[0]] + KeepNamed(parts[1..])
  }

  /** Apply `..` segments; at the root `..` stays at the root. */
  function Climb(segs: seq<string>, acc: seq<string>): seq<string>
    decreases |segs|
  {
    if segs == [] then acc
    else if segs[0] == ".." then Climb(segs[1..], if acc == [] then [] else acc[..|acc| - 1])
    else Climb(segs[1..], acc + [segs[0]])
  }

  function Render(segs: seq<string>): Path
  {
    "/" + JoinWith(segs, "/")
  }

  /** The normalised absolute form of a path, without a trailing slash. */
  function Canon(p: string): Path
  {
    Render(Climb(Segments(p), []))
  }

  predicate IsAbsolute(p: string)
  {
    StartsWith(p, "/")
  }

  /** `path.resolve(base, p)` for an absolute `base`. */
  function Resolve(base: Path, p: string): Path
  {
    if IsAbsolute(p) then Canon(p) else Canon(base + "/" + p)
  }

  /** `path.join(base, p)` for an absolute `base`: normalised, and a trailing
      slash of the joined text is kept. */
  function Join(base: Path, p: string): Path
  {
    var joined := if p == "" then base else base + "/" + p;
    var c := Canon(joined);
    if EndsWith(joined, "/") && c != "/" then c + "/" else c
  }

  /** `path.dirname` of a normalised absolute path. */
  function Dirname(p: Path): Path
  {
    var segs := Segments(p);
    if segs == [] then "/" else Render(segs[..|segs| - 1])
  }

  /** `path.basename` of a normalised absolute path (a trailing slash is ignored). */
  function Basename(p: Path): string
  {
    var segs := Segments(p);
    if segs == [] then "" else segs[|segs| - 1]
  }

  /** Index of the last `.` of a name, or |name|. */
  function LastDot(name: string): (k: nat)
    ensures k <= |name|
    ensures k < |name| ==> name[k] == '.' && '.' !in name[k + 1..]
    ensures k == |name| ==> '.' !in name
  {
    if name == [] then 0
    else if name[|name| - 1] == '.' then |name| - 1
    else
      var k := LastDot(name[..|name| - 1]);
      if k == |name| - 1 then
        assert name == name[..|name| - 1] + [name[|name| - 1]];
        |name|
      else
        assert name[k + 1..] == name[..|name| - 1][k + 1..] + [name[|name| - 1]];
        k
  }

  /** `path.extname`: from the last `.` of the base name, unless that dot starts
      the name or the name is `..`. */
  function Extname(p: Path): (e: string)
    ensures e == "" || e[0] == '.'
  {
    var name := Basename(p);
    var k := LastDot(name);
    if k == |name| || k == 0 || name == ".." then "" else name[k..]
  }

  function CommonPrefix(a: seq<string>, b: seq<string>): (k: nat)
    ensures k <= |a| && k <= |b|
  {
    if a == [] || b == [] || a[0] != b[0] then 0 else 1 + CommonPrefix(a[1..], b[1..])
  }

  /** `path.relative(from, to)` for normalised absolute paths. */
  function Relative(from: Path, to: Path): string
  {
    var f := Segments(from);
    var t := Segments(to);
    var k := CommonPrefix(f, t);
    JoinWith(seq(|f| - k, _ => "..") + t[k..], "/")
  }

  /** `path.relative(baseDir, file).replace(/\\/g, '/')`: the name a file is
      reported under, with every backslash written as `/`. */
  function RelativeName(baseDir: Path, file: Path): (r: string)
    ensures '\\' !in r
  {
    ReplaceChar(Relative(baseDir, file), '\\', '/')
  }

  // ---------------------------------------------------------------------------
  // Algebra of normalised paths

  /** A path segment that survives normalisation unchanged. */
  predicate IsName(x: string)
  {
    x != "" && x != "." && x != ".." && '/' !in x
  }

  predicate AllNames(xs: seq<string>)
  {
    forall i :: 0 <= i < |xs| ==> IsName(xs[i])
  }

  lemma {:induction false} KeepNamedAppend(x: seq<string>, y: seq<string>)
    ensures KeepNamed(x + y) == KeepNamed(x) + KeepNamed(y)
  {
    if x != [] {
      assert (x + y)[1..] == x[1..] + y;
      KeepNamedAppend(x[1..], y);
    } else {
      assert x + y == y;
    }
  }

  lemma SplitName(name: string)
    requires '/' !in name
    ensures Split(name, '/') == [name]
  {
    SplitWhole(name, '/');
  }

  /** Appending a name appends one segment. */
  lemma SegmentsAppendName(base: string, name: string)
    requires IsName(name)
    ensures Segments(base + "/" + name) == Segments(base) + [name]
  {
    SplitAppend(base, name, '/');
    SplitName(name);
    KeepNamedAppend(Split(base, '/'), [name]);
  }

  lemma {:induction false} ClimbAppendName(segs: seq<string>, acc: seq<string>, name: string)
    requires IsName(name)
    ensures Climb(segs + [name], acc) == Climb(segs, acc) + [name]
    decreases |segs|
  {
    if segs == [] {
      assert Climb([name], acc) == Climb([], acc + [name]);
    } else {
      assert (segs + [name])[1..] == segs[1..] + [name];
      ClimbAppendName(segs[1..], if segs[0] == ".." then (if acc == [] then [] else acc[..|acc| - 1]) else acc + [segs[0]], name);
    }
  }

  lemma {:induction false} ClimbOfNames(xs: seq<string>, acc: seq<string>)
    requires AllNames(xs)
    ensures Climb(xs, acc) == acc + xs
    decreases |xs|
  {
    if xs == [] {
      assert acc + xs == acc;
    } else {
      assert IsName(xs[0]);
      ClimbOfNames(xs[1..], acc + [xs[0]]);
      assert acc + [xs[0]] + xs[1..] == acc + xs;
    }
  }

  lemma {:induction false} ClimbGivesNames(segs: seq<string>, acc: seq<string>)
    requires AllNames(acc)
    requires forall x :: x in segs ==> x != "" && x != "." && '/' !in x
    ensures AllNames(Climb(segs, acc))
    decreases |segs|
  {
    if segs != [] {
      assert segs[0] in segs;
      ClimbGivesNames(segs[1..], if segs[0] == ".." then (if acc == [] then [] else acc[..|acc| - 1]) else acc + [segs[0]]);
    }
  }

  lemma SegmentsAreSegments(p: string)
    ensures forall x :: x in Segments(p) ==> x != "" && x != "." && '/' !in x
  {
    SplitPartsFree(p, '/');
    forall x | x in Segments(p) ensures '/' !in x {
      KeepNamedKeeps(Split(p, '/'), x);
    }
  }

  lemma {:induction false} KeepNamedKeeps(parts: seq<string>, x: string)
    requires x in KeepNamed(parts)
    ensures x in parts
  {
    if parts != [] && !(x == parts[0]) {
      KeepNamedKeeps(parts[1..], x);
    }
  }

  lemma {:induction false} KeepNamedOfNames(xs: seq<string>)
    requires AllNames(xs)
    ensures KeepNamed(xs) == xs
  {
    if xs != [] {
      assert IsName(xs[0]);
      KeepNamedOfNames(xs[1..]);
      assert xs == [xs[0]] + xs[1..];
    }
  }

  /** Rendering names and cutting the result back into segments is lossless. */
  lemma SegmentsRender(xs: seq<string>)
    requires AllNames(xs)
    ensures Segments(Render(xs)) == xs
  {
    if xs == [] {
      SegmentsRoot();
    } else {
      assert Render(xs) == [] + ['/'] + JoinWith(xs, "/");
      SplitAppend([], JoinWith(xs, "/"), '/');
      SplitJoin(xs, '/');
      assert Split([], '/') == [[]];
      KeepNamedAppend([[]], xs);
      KeepNamedOfNames(xs);
    }
  }

  lemma SegmentsRoot()
    ensures Segments("/") == []
  {
    assert "/" == [] + ['/'] + [];
    SplitAppend([], [], '/');
    assert Split([], '/') == [[]];
  }

  /** The segments of a normalised path are names. */
  lemma CanonNames(p: string)
    ensures AllNames(Climb(Segments(p), []))
    ensures Segments(Canon(p)) == Climb(Segments(p), [])
  {
    SegmentsAreSegments(p);
    ClimbGivesNames(Segments(p), []);
    SegmentsRender(Climb(Segments(p), []));
  }

  /** Normalising twice is normalising once. */
  lemma CanonIdempotent(p: string)
    ensures Canon(Canon(p)) == Canon(p)
  {
    CanonNames(p);
    var c := Climb(Segments(p), []);
    ClimbOfNames(c, []);
    assert [] + c == c;
  }

  /** `path.join(base, name)` for one plain name: the name becomes the last
      segment, and the directory part is the normalised base. */
  lemma JoinName(base: Path, name: string)
    requires IsName(name)
    ensures Join(base, name) == Render(Climb(Segments(base), []) + [name])
    ensures Basename(Join(base, name)) == name
    ensures Dirname(Join(base, name)) == Canon(base)
  {
    SegmentsAppendName(base, name);
    ClimbAppendName(Segments(base), [], name);
    var j := base + "/" + name;
    assert j[|j| - 1] == name[|name| - 1];
    assert !EndsWith(j, "/");
    CanonNames(base);
    var c := Climb(Segments(base), []);
    assert AllNames(c + [name]);
    SegmentsRender(c + [name]);
    assert (c + [name])[..|c|] == c;
  }

  /** A regular file: its text, its size in bytes, and the error reading it
      raises if it cannot be read. */
  datatype FileEntry = FileEntry(content: string, size: nat, readError: Option<string>)

  /** The file system as the tools see it, keyed by normalised absolute paths. */
  datatype FileSystem = FileSystem(files: map<Path, FileEntry>, dirs: set<Path>)

  /** `fs.pathExists`: a path written with a trailing slash names a directory only. */
  predicate Exists(fs: FileSystem, p: string)
  {
    var c := Canon(p);
    if EndsWith(p, "/") then c in fs.dirs else c in fs.files || c in fs.dirs
  }

  /** `stat(p).isDirectory()` for an existing path. */
  predicate IsDirectory(fs: FileSystem, p: string)
  {
    Canon(p) in fs.dirs
  }

  /** `fs.readFile(p, 'utf8')`. */
  function ReadFile(fs: FileSystem, p: string): (r: Result<string, string>)
    ensures r.Ok? ==> Canon(p) in fs.files && r.value == fs.files[Canon(p)].content
  {
    var c := Canon(p);
    if c in fs.files && !EndsWith(p, "/") then
      match fs.files[c].readError
      case Some(message) => Err(message)
      case None => Ok(fs.files[c].content)
    else if c in fs.files then Err("ENOTDIR: not a directory, open '" + p + "'")
    else if c in fs.dirs then Err("EISDIR: illegal operation on a directory, read")
    else Err("ENOENT: no such file or directory, open '" + p + "'")
  }

  datatype StatInfo = RegularFile(size: nat) | Directory

  /** `fs.stat(p)`: `None` when it throws. */
  function Stat(fs: FileSystem, p: string): (r: Option<StatInfo>)
    ensures r.Some? <==> Exists(fs, p)
  {
    var c := Canon(p);
    if !Exists(fs, p) then None
    else if c in fs.dirs then Some(Directory)
    else Some(RegularFile(fs.files[c].size))
  }
}
