/** The engine's in-memory filesystem as the helper sees it: a map from
    absolute path to file contents plus the set of directories, with the four
    calls the helper makes (`mkdir`, `writeFile`, `readFile`, `unlink`) and
    their error codes. A relative path is looked up from the working
    directory, the root; `.`, `..`, repeated and trailing "/" are not
    normalised. */
module VirtualFs {
  import opened Prelude
  import opened Text

  /** `EEXIST`, `EISDIR`, `ENOENT` and `ENOTDIR`. */
  datatype FsError = AlreadyExists | IsADirectory | NoSuchEntry | NotADirectory

  /** The files by absolute path, and the directories other than the root. */
  datatype FileSystem = FileSystem(files: map<string, seq<Byte>>, dirs: set<string>)

  const Root := "/"

  /** A freshly started engine: the root and nothing else. */
  const EmptyFs := FileSystem(map[], {})

  predicate IsAbsolute(p: string) {
    |p| > 0 && p[0] == '/'
  }

  /** The absolute path a path names, looked up from the root. */
  function Resolve(path: string): (p: string)
    ensures IsAbsolute(p)
    ensures IsAbsolute(path) ==> p == path
  {
    if IsAbsolute(path) then path else Root + path
  }

  /** The index of the last "/" among the first `n` characters of `p`, or -1
      when there is none. */
  function LastSlashBefore(p: string, n: nat): (k: int)
    requires n <= |p|
    ensures -1 <= k < n
    ensures k >= 0 ==> p[k] == '/'
    ensures forall j :: k < j < n ==> p[j] != '/'
    decreases n
  {
    if n == 0 then -1
    else if p[n - 1] == '/' then n - 1
    else LastSlashBefore(p, n - 1)
  }

  function LastSlash(p: string): int {
    LastSlashBefore(p, |p|)
  }

  /** The directory that holds `p`: what comes before its last "/", or the root. */
  function Parent(p: string): string {
    var k := LastSlash(p);
    if k <= 0 then Root else p[..k]
  }

  predicate IsDir(fs: FileSystem, p: string) {
    p == Root || p in fs.dirs
  }

  predicate Exists(fs: FileSystem, p: string) {
    IsDir(fs, p) || p in fs.files
  }

  /** Some file lies on the way from the root to `p`. */
  predicate UnderFile(fs: FileSystem, p: string) {
    exists f :: f in fs.files && StartsWith(p, f + "/")
  }

  /** The error of a lookup that does not reach `p`: a file on the way gives
      `ENOTDIR`, a missing directory `ENOENT`. */
  function MissingError(fs: FileSystem, p: string): FsError {
    if UnderFile(fs, p) then NotADirectory else NoSuchEntry
  }

  /** `mkdir`: the parent has to be a directory and the path has to be free. */
  function Mkdir(fs: FileSystem, path: string): (r: Result<FileSystem, FsError>)
    ensures var p := Resolve(path);
      (r.Ok? <==> path != [] && IsDir(fs, Parent(p)) && !Exists(fs, p)) &&
      (r.Ok? ==> r.value == FileSystem(fs.files, fs.dirs + {p})) &&
      (r.Err? && path != [] && IsDir(fs, Parent(p)) ==> r.error == AlreadyExists) &&
      (r.Err? && path != [] && !IsDir(fs, Parent(p)) ==> r.error == MissingError(fs, p))
  {
    var p := Resolve(path);
    if path == [] then Err(NoSuchEntry)
    else if !IsDir(fs, Parent(p)) then Err(MissingError(fs, p))
    else if Exists(fs, p) then Err(AlreadyExists)
    else Ok(fs.(dirs := fs.dirs + {p}))
  }

  /** `writeFile` creates or truncates a file: a directory cannot be written,
      and a new file needs its parent directory. */
  function WriteData(fs: FileSystem, path: string, data: seq<Byte>): (r: Result<FileSystem, FsError>)
    ensures var p := Resolve(path);
      (r.Ok? <==> path != [] && !IsDir(fs, p) && (p in fs.files || IsDir(fs, Parent(p)))) &&
      (r.Ok? ==> r.value == FileSystem(fs.files[p := data], fs.dirs)) &&
      (r.Err? && path != [] && IsDir(fs, p) ==> r.error == IsADirectory) &&
      (r.Err? && path != [] && !IsDir(fs, p) ==> r.error == MissingError(fs, p))
  {
    var p := Resolve(path);
    if path == [] then Err(NoSuchEntry)
    else if IsDir(fs, p) then Err(IsADirectory)
    else if p !in fs.files && !IsDir(fs, Parent(p)) then Err(MissingError(fs, p))
    else Ok(fs.(files := fs.files[p := data]))
  }

  function ReadData(fs: FileSystem, path: string): (r: Result<seq<Byte>, FsError>)
    ensures var p := Resolve(path);
      (r.Ok? <==> path != [] && !IsDir(fs, p) && p in fs.files) &&
      (r.Ok? ==> r.value == fs.files[p]) &&
      (r.Err? && path != [] && IsDir(fs, p) ==> r.error == IsADirectory) &&
      (r.Err? && path != [] && !IsDir(fs, p) ==> r.error == MissingError(fs, p))
  {
    var p := Resolve(path);
    if path == [] then Err(NoSuchEntry)
    else if IsDir(fs, p) then Err(IsADirectory)
    else if p !in fs.files then Err(MissingError(fs, p))
    else Ok(fs.files[p])
  }

  /** `unlink` removes a file; it refuses directories and missing paths. */
  function Unlink(fs: FileSystem, path: string): (r: Result<FileSystem, FsError>)
    ensures var p := Resolve(path);
      (r.Ok? <==> path != [] && !IsDir(fs, p) && p in fs.files) &&
      (r.Ok? ==> r.value == FileSystem(fs.files - {p}, fs.dirs)) &&
      (r.Err? && path != [] && IsDir(fs, p) ==> r.error == IsADirectory) &&
      (r.Err? && path != [] && !IsDir(fs, p) ==> r.error == MissingError(fs, p))
  {
    var p := Resolve(path);
    if path == [] then Err(NoSuchEntry)
    else if IsDir(fs, p) then Err(IsADirectory)
    else if p !in fs.files then Err(MissingError(fs, p))
    else Ok(fs.(files := fs.files - {p}))
  }

  /** Every directory but the root and every file sits in a directory, and no
      path is both a file and a directory. */
  predicate Tree(fs: FileSystem) {
    (forall d :: d in fs.dirs ==> IsAbsolute(d) && d != Root && d !in fs.files && IsDir(fs, Parent(d))) &&
    (forall f :: f in fs.files ==> IsAbsolute(f) && f != Root && IsDir(fs, Parent(f)))
  }

  lemma EmptyIsTree()
    ensures Tree(EmptyFs)
  {
  }

  /** The parent of a path below `f` is `f` itself or again below `f`. */
  lemma ParentBelow(p: string, f: string)
    requires |f| > 0 && StartsWith(p, f + "/")
    ensures var d := Parent(p);
      |f| <= |d| < |p| && (|d| == |f| ==> d == f) && (|d| > |f| ==> StartsWith(d, f + "/"))
  {
    assert p[|f|] == (f + "/")[|f|];
    var k := LastSlash(p);
    assert k >= |f|;
    var d := p[..k];
    assert d[..|f|] == p[..|f|] == f;
    if k > |f| {
      assert d[..|f| + 1] == p[..|f| + 1];
    }
  }

  /** In a tree no directory and no file lies below a file. */
  lemma {:induction false} NotBelowFile(fs: FileSystem, p: string, f: string)
    requires Tree(fs) && (p in fs.dirs || p in fs.files) && f in fs.files
    ensures !StartsWith(p, f + "/")
    decreases |p|
  {
    if StartsWith(p, f + "/") {
      ParentBelow(p, f);
      var d := Parent(p);
      assert IsDir(fs, d);
      if |d| > |f| {
        NotBelowFile(fs, d, f);
      }
    }
  }

  lemma NothingBelowFile(fs: FileSystem, p: string)
    requires Tree(fs) && (p in fs.dirs || p in fs.files)
    ensures !UnderFile(fs, p)
  {
    forall f | f in fs.files
      ensures !StartsWith(p, f + "/")
    {
      NotBelowFile(fs, p, f);
    }
  }

  /** A successful `mkdir` keeps the tree. */
  lemma MkdirKeepsTree(fs: FileSystem, path: string)
    requires Tree(fs) && Mkdir(fs, path).Ok?
    ensures Tree(Mkdir(fs, path).value)
  {
    var after := Mkdir(fs, path).value;
    forall d | d in after.dirs
      ensures IsAbsolute(d) && d != Root && d !in after.files && IsDir(after, Parent(d))
    {
      assert IsDir(fs, Parent(d));
    }
    forall f | f in after.files
      ensures IsAbsolute(f) && f != Root && IsDir(after, Parent(f))
    {
      assert IsDir(fs, Parent(f));
    }
  }

  /** A successful write keeps the tree. */
  lemma WriteKeepsTree(fs: FileSystem, path: string, data: seq<Byte>)
    requires Tree(fs) && WriteData(fs, path, data).Ok?
    ensures Tree(WriteData(fs, path, data).value)
  {
    var after := WriteData(fs, path, data).value;
    forall d | d in after.dirs
      ensures IsAbsolute(d) && d != Root && d !in after.files && IsDir(after, Parent(d))
    {
      assert IsDir(fs, Parent(d));
    }
    forall f | f in after.files
      ensures IsAbsolute(f) && f != Root && IsDir(after, Parent(f))
    {
      if f != Resolve(path) {
        assert f in fs.files;
      }
    }
  }

  /** A successful unlink keeps the tree. */
  lemma UnlinkKeepsTree(fs: FileSystem, path: string)
    requires Tree(fs) && Unlink(fs, path).Ok?
    ensures Tree(Unlink(fs, path).value)
  {
    var after := Unlink(fs, path).value;
    forall d | d in after.dirs
      ensures IsAbsolute(d) && d != Root && d !in after.files && IsDir(after, Parent(d))
    {
      assert IsDir(fs, Parent(d));
    }
    forall f | f in after.files
      ensures IsAbsolute(f) && f != Root && IsDir(after, Parent(f))
    {
      assert f in fs.files;
    }
  }

  /** A successful write is read back unchanged; every other path keeps its
      contents and whether it can be read. */
  lemma WriteThenRead(fs: FileSystem, path: string, data: seq<Byte>, other: string)
    requires WriteData(fs, path, data).Ok?
    ensures ReadData(WriteData(fs, path, data).value, path) == Ok(data)
    ensures Resolve(other) != Resolve(path) ==>
      var after := WriteData(fs, path, data).value;
      (ReadData(after, other).Ok? <==> ReadData(fs, other).Ok?) &&
      (ReadData(fs, other).Ok? ==> ReadData(after, other) == ReadData(fs, other))
  {
  }

  /** After a successful unlink the path is missing, not merely unreadable. */
  lemma UnlinkThenRead(fs: FileSystem, path: string)
    requires Tree(fs) && Unlink(fs, path).Ok?
    ensures ReadData(Unlink(fs, path).value, path) == Err(NoSuchEntry)
  {
    NothingBelowFile(fs, Resolve(path));
  }

  /** The effect of `mkdir` on each path in turn, with each failure ignored, as the
      `try { fs.mkdir(...) } catch {}` in the loop of `writeFile` does. */
  function MkdirAll(fs: FileSystem, paths: seq<string>): FileSystem
    decreases |paths|
  {
    if paths == [] then fs
    else
      var before := MkdirAll(fs, paths[..|paths| - 1]);
      match Mkdir(before, paths[|paths| - 1])
      case Ok(after) => after
      case Err(_) => before
  }

  /** One more attempt is one more `mkdir` on the result so far. */
  lemma MkdirAllOneMore(fs: FileSystem, paths: seq<string>, path: string)
    ensures MkdirAll(fs, paths + [path]) ==
      match Mkdir(MkdirAll(fs, paths), path)
      case Ok(after) => after
      case Err(_) => MkdirAll(fs, paths)
  {
    assert (paths + [path])[..|paths|] == paths;
  }

  /** The `mkdir` loop touches no file, keeps every directory and keeps the
      tree. */
  lemma {:induction false} MkdirAllEffect(fs: FileSystem, paths: seq<string>)
    ensures MkdirAll(fs, paths).files == fs.files
    ensures fs.dirs <= MkdirAll(fs, paths).dirs
    ensures Tree(fs) ==> Tree(MkdirAll(fs, paths))
    decreases |paths|
  {
    if paths != [] {
      var init := paths[..|paths| - 1];
      MkdirAllEffect(fs, init);
      if Tree(fs) && Mkdir(MkdirAll(fs, init), paths[|paths| - 1]).Ok? {
        MkdirKeepsTree(MkdirAll(fs, init), paths[|paths| - 1]);
      }
    }
  }

  /** The loop creates no directory it was not asked for. */
  lemma {:induction false} MkdirAllOnlyAsked(fs: FileSystem, paths: seq<string>, d: string)
    requires d !in fs.dirs && forall k :: 0 <= k < |paths| ==> Resolve(paths[k]) != d
    ensures d !in MkdirAll(fs, paths).dirs
    decreases |paths|
  {
    if paths != [] {
      MkdirAllOnlyAsked(fs, paths[..|paths| - 1], d);
    }
  }

  /** The directory components of a path: every `/`-separated piece but the
      last (`path.split('/').slice(0, -1)`). */
  function DirectoryComponents(path: string): (dirs: seq<string>)
    ensures forall k :: 0 <= k < |dirs| ==> '/' !in dirs[k]
  {
    var parts := Split(path, '/');
    parts[..|parts| - 1]
  }

  /** The `mkdir` targets of the loop in `writeFile`: empty components are
      skipped and every other one extends the current path by `/` and itself. */
  function Chain(current: string, dirs: seq<string>): seq<string>
    decreases |dirs|
  {
    if dirs == [] then []
    else if dirs[0] == "" then Chain(current, dirs[1..])
    else [current + "/" + dirs[0]] + Chain(current + "/" + dirs[0], dirs[1..])
  }

  /** One more component taken by the loop of `writeFile`. */
  lemma ChainAdvance(dirs: seq<string>, i: nat, attempts: seq<string>, current: string)
    requires i < |dirs| && Chain("", dirs) == attempts + Chain(current, dirs[i..])
    ensures dirs[i] == "" ==> Chain("", dirs) == attempts + Chain(current, dirs[i + 1..])
    ensures dirs[i] != "" ==>
      var next := current + "/" + dirs[i];
      Chain("", dirs) == attempts + [next] + Chain(next, dirs[i + 1..])
  {
    assert dirs[i..][1..] == dirs[i + 1..];
  }

  function MkdirTargets(path: string): seq<string> {
    Chain("", DirectoryComponents(path))
  }

  /** The non-empty pieces, in order. */
  function NonEmpty(dirs: seq<string>): (r: seq<string>)
    ensures forall k :: 0 <= k < |r| ==> r[k] != ""
    decreases |dirs|
  {
    if dirs == [] then [] else (if dirs[0] == "" then [] else [dirs[0]]) + NonEmpty(dirs[1..])
  }

  /** `/p1/p2/.../pn` for the pieces `p1 .. pn`. */
  function Rooted(pieces: seq<string>): string
    decreases |pieces|
  {
    if pieces == [] then "" else Rooted(pieces[..|pieces| - 1]) + "/" + pieces[|pieces| - 1]
  }

  /** Reference for the `mkdir` targets: the k-th is the current path followed by
      the first k+1 pieces, each introduced by `/`. */
  function RootedPrefixes(current: string, pieces: seq<string>): (r: seq<string>)
    ensures |r| == |pieces|
  {
    seq(|pieces|, k requires 0 <= k < |pieces| => current + Rooted(pieces[..k + 1]))
  }

  /** The loop's targets are the rooted prefixes of the non-empty components. */
  lemma {:induction false} ChainIsRootedPrefixes(current: string, dirs: seq<string>)
    ensures Chain(current, dirs) == RootedPrefixes(current, NonEmpty(dirs))
    decreases |dirs|
  {
    if dirs != [] {
      var rest := dirs[1..];
      if dirs[0] == "" {
        ChainIsRootedPrefixes(current, rest);
        assert NonEmpty(dirs) == NonEmpty(rest);
      } else {
        var next := current + "/" + dirs[0];
        ChainIsRootedPrefixes(next, rest);
        assert NonEmpty(dirs) == [dirs[0]] + NonEmpty(rest);
        RootedPrefixesCons(current, dirs[0], NonEmpty(rest));
      }
    }
  }

  lemma RootedPrefixesCons(current: string, head: string, pieces: seq<string>)
    ensures RootedPrefixes(current, [head] + pieces)
         == [current + "/" + head] + RootedPrefixes(current + "/" + head, pieces)
  {
    var lhs := RootedPrefixes(current, [head] + pieces);
    var rhs := [current + "/" + head] + RootedPrefixes(current + "/" + head, pieces);
    forall k | 0 <= k < |lhs| ensures lhs[k] == rhs[k] {
      RootedPrefixAt(current, head, pieces, k);
    }
  }

  lemma RootedPrefixAt(current: string, head: string, pieces: seq<string>, k: nat)
    requires k <= |pieces|
    ensures current + Rooted(([head] + pieces)[..k + 1])
         == if k == 0 then current + "/" + head
            else current + "/" + head + Rooted(pieces[..k])
  {
    var all := [head] + pieces;
    if k == 0 {
      assert all[..1] == [head];
      assert Rooted([head]) == Rooted([]) + "/" + head;
    } else {
      var r := Rooted(pieces[..k]);
      assert all[..k + 1] == [head] + pieces[..k];
      RootedCons(head, pieces[..k]);
      ConcatAssoc(current + "/", head, r);
      ConcatAssoc(current, "/", head + r);
      ConcatAssoc("/", head, r);
    }
  }

  lemma {:induction false} RootedCons(head: string, pieces: seq<string>)
    ensures Rooted([head] + pieces) == "/" + head + Rooted(pieces)
    decreases |pieces|
  {
    if pieces != [] {
      var init := pieces[..|pieces| - 1];
      RootedCons(head, init);
      assert ([head] + pieces)[..|pieces|] == [head] + init;
    }
  }

  /** Each target names the directory that holds the next one. */
  lemma ChainNests(current: string, dirs: seq<string>, k: nat)
    requires k + 1 < |NonEmpty(dirs)|
    ensures var c := Chain(current, dirs);
      k + 1 < |c| && c[k + 1] == c[k] + "/" + NonEmpty(dirs)[k + 1]
  {
    ChainIsRootedPrefixes(current, dirs);
    var ne := NonEmpty(dirs);
    assert ne[..k + 2] == ne[..k + 1] + [ne[k + 1]];
  }

  lemma ThreeComponents(a: string, b: string, c: string, f: string)
    requires '/' !in a && '/' !in b && '/' !in c && '/' !in f
    ensures DirectoryComponents(a + "/" + b + "/" + c + "/" + f) == [a, b, c]
  {
    var path := a + "/" + b + "/" + c + "/" + f;
    assert path == a + ['/'] + (b + ['/'] + (c + ['/'] + f));
    SplitWithoutSeparator(f, '/');
    SplitAtFirst(c, f, '/');
    SplitAtFirst(b, c + ['/'] + f, '/');
    SplitAtFirst(a, b + ['/'] + (c + ['/'] + f), '/');
  }

  lemma ChainOfThree(a: string, b: string, c: string)
    requires a != "" && b != "" && c != ""
    ensures Chain("", [a, b, c]) == ["/" + a, "/" + a + "/" + b, "/" + a + "/" + b + "/" + c]
  {
    var pa := "/" + a;
    var pb := pa + "/" + b;
    var pc := pb + "/" + c;
    assert [c][1..] == [];
    assert Chain(pb, [c]) == [pc];
    assert [b, c][1..] == [c];
    assert Chain(pa, [b, c]) == [pb] + Chain(pb, [c]);
    assert "" + "/" + a == pa;
    assert [a, b, c][1..] == [b, c];
    assert Chain("", [a, b, c]) == [pa] + Chain(pa, [b, c]);
  }

  /** `writeFile("a/b/c/f", ...)` with three non-empty directory components asks
      for `/a`, `/a/b` and `/a/b/c`, in that order. */
  lemma ThreeLevelTargets(a: string, b: string, c: string, f: string)
    requires '/' !in a && '/' !in b && '/' !in c && '/' !in f
    requires a != "" && b != "" && c != ""
    ensures MkdirTargets(a + "/" + b + "/" + c + "/" + f) == ["/" + a, "/" + a + "/" + b, "/" + a + "/" + b + "/" + c]
  {
    ThreeComponents(a, b, c, f);
    ChainOfThree(a, b, c);
  }

  /** A leading `/` contributes only an empty component, which is skipped. */
  lemma LeadingSlashTargets(rest: string)
    ensures MkdirTargets("/" + rest) == MkdirTargets(rest)
  {
    SplitAtFirst("", rest, '/');
    assert "/" + rest == "" + ['/'] + rest;
    var parts := Split(rest, '/');
    assert DirectoryComponents("/" + rest) == [""] + parts[..|parts| - 1];
  }

  lemma MkdirTargetsExample(path: string)
    requires path == "a/b/c/f"
    ensures MkdirTargets(path) == ["/a", "/a/b", "/a/b/c"]
  {
    ThreeLevelTargets("a", "b", "c", "f");
    assert "a" + "/" + "b" + "/" + "c" + "/" + "f" == path;
    assert "/" + "a" == "/a";
    assert "/a" + "/" + "b" == "/a/b";
    assert "/a/b" + "/" + "c" == "/a/b/c";
  }

  /** The last "/" is the one with no "/" after it. */
  lemma LastSlashIs(p: string, m: nat)
    requires m < |p| && p[m] == '/'
    requires forall j :: m < j < |p| ==> p[j] != '/'
    ensures LastSlash(p) == m
  {
  }

  /** Joining a name without "/" to `d` puts the last "/" right after `d`. */
  lemma LastSlashOfJoin(d: string, x: string)
    requires '/' !in x
    ensures LastSlash(d + "/" + x) == |d|
  {
    var p := d + "/" + x;
    NoSlashAfter(d, x, p);
    LastSlashIs(p, |d|);
  }

  lemma NoSlashAfter(d: string, x: string, p: string)
    requires '/' !in x && p == d + "/" + x
    ensures p[|d|] == '/' && forall j :: |d| < j < |p| ==> p[j] != '/'
  {
    forall j | |d| < j < |p|
      ensures p[j] != '/'
    {
      assert p[j] == x[j - |d| - 1];
    }
  }

  /** The parent of `d/x`, for a name `x` without "/", is `d` (the root for `/x`). */
  lemma ParentOfJoin(d: string, x: string)
    requires '/' !in x
    ensures Parent(d + "/" + x) == if d == [] then Root else d
  {
    LastSlashOfJoin(d, x);
    assert (d + "/" + x)[..|d|] == d;
  }

  /** A path whose parent is not the root starts with its parent and "/". */
  lemma BelowParent(p: string)
    requires Parent(p) != Root
    ensures StartsWith(p, Parent(p) + "/")
  {
    var k := LastSlash(p);
    assert p[..k + 1] == p[..k] + [p[k]];
  }

  /** Each target is an absolute path whose parent is the target before it;
      the first one's parent is the root. */
  predicate Chained(ts: seq<string>) {
    forall k :: 0 <= k < |ts| ==>
      IsAbsolute(ts[k]) && ts[k] != Root && Parent(ts[k]) == (if k == 0 then Root else ts[k - 1])
  }

  /** The targets step by step: the first is `/` and the first piece, each
      further one extends the one before by `/` and the next piece. */
  lemma ChainStep(dirs: seq<string>, k: nat)
    requires k < |NonEmpty(dirs)|
    ensures var c := Chain("", dirs); var ne := NonEmpty(dirs);
      |c| == |ne| && c[k] == (if k == 0 then "" else c[k - 1]) + "/" + ne[k]
  {
    var ne := NonEmpty(dirs);
    ChainIsRootedPrefixes("", dirs);
    if k == 0 {
      assert ne[..1] == [ne[0]];
      assert Rooted([ne[0]]) == Rooted([]) + "/" + ne[0];
    } else {
      ChainNests("", dirs, k - 1);
    }
  }

  lemma ChainLength(dirs: seq<string>)
    ensures |Chain("", dirs)| == |NonEmpty(dirs)|
  {
    ChainIsRootedPrefixes("", dirs);
  }

  /** Dropping the empty pieces brings in no "/". */
  lemma {:induction false} PiecesHaveNoSlash(dirs: seq<string>)
    requires forall i :: 0 <= i < |dirs| ==> '/' !in dirs[i]
    ensures forall k :: 0 <= k < |NonEmpty(dirs)| ==> '/' !in NonEmpty(dirs)[k]
    decreases |dirs|
  {
    if dirs != [] {
      PiecesHaveNoSlash(dirs[1..]);
    }
  }

  lemma {:induction false} TargetAt(dirs: seq<string>, k: nat)
    requires forall i :: 0 <= i < |dirs| ==> '/' !in dirs[i]
    requires k < |Chain("", dirs)|
    ensures var c := Chain("", dirs);
      IsAbsolute(c[k]) && |c[k]| >= 2 && Parent(c[k]) == (if k == 0 then Root else c[k - 1])
    decreases k
  {
    var c := Chain("", dirs);
    ChainLength(dirs);
    ChainStep(dirs, k);
    PiecesHaveNoSlash(dirs);
    var before := if k == 0 then "" else c[k - 1];
    if k > 0 {
      TargetAt(dirs, k - 1);
    }
    ParentOfJoin(before, NonEmpty(dirs)[k]);
  }

  lemma ChainedAt(ts: seq<string>, k: nat)
    requires Chained(ts) && k < |ts|
    ensures IsAbsolute(ts[k]) && ts[k] != Root
    ensures Parent(ts[k]) == if k == 0 then Root else ts[k - 1]
  {
  }

  /** The loop's targets form a chain from the root down. */
  lemma TargetsChained(path: string)
    ensures Chained(MkdirTargets(path))
  {
    var dirs := DirectoryComponents(path);
    var ts := MkdirTargets(path);
    assert ts == Chain("", dirs);
    forall k | 0 <= k < |ts|
      ensures IsAbsolute(ts[k]) && ts[k] != Root && Parent(ts[k]) == (if k == 0 then Root else ts[k - 1])
    {
      TargetAt(dirs, k);
      assert |ts[k]| >= 2;
    }
    assert Chained(ts);
  }

  /** Along a chain every later target lies below every earlier one. */
  lemma {:induction false} Descends(ts: seq<string>, j: nat, k: nat)
    requires Chained(ts) && j < k < |ts|
    ensures StartsWith(ts[k], ts[j] + "/")
    decreases k
  {
    ChainedAt(ts, k);
    ChainedAt(ts, k - 1);
    BelowParent(ts[k]);
    if j < k - 1 {
      Descends(ts, j, k - 1);
      assert ts[k][..|ts[j]| + 1] == ts[k - 1][..|ts[j]| + 1];
    }
  }

  /** A prefix of a chain is a chain. */
  lemma ChainedPrefix(ts: seq<string>, n: nat)
    requires Chained(ts) && n <= |ts|
    ensures Chained(ts[..n])
  {
    forall k | 0 <= k < n
      ensures IsAbsolute(ts[..n][k]) && ts[..n][k] != Root &&
        Parent(ts[..n][k]) == (if k == 0 then Root else ts[..n][k - 1])
    {
      ChainedAt(ts, k);
    }
  }

  /** The `mkdir` loop over a chain none of whose targets is a file leaves
      every target a directory: each `mkdir` finds its parent. */
  lemma {:induction false} ChainCreatesAll(fs: FileSystem, ts: seq<string>)
    requires Tree(fs) && Chained(ts)
    requires forall k :: 0 <= k < |ts| ==> ts[k] !in fs.files
    ensures forall k :: 0 <= k < |ts| ==> ts[k] in MkdirAll(fs, ts).dirs
    decreases |ts|
  {
    if ts != [] {
      var n := |ts| - 1;
      var init := ts[..n];
      var last := ts[n];
      ChainedPrefix(ts, n);
      assert forall k :: 0 <= k < n ==> init[k] == ts[k];
      ChainCreatesAll(fs, init);
      MkdirAllEffect(fs, init);
      var before := MkdirAll(fs, init);
      assert ts == init + [last];
      MkdirAllOneMore(fs, init, last);
      ChainedAt(ts, n);
      assert IsDir(before, Parent(last));
      var after := MkdirAll(fs, ts);
      assert before.dirs <= after.dirs;
      assert last in after.dirs;
    }
  }

  /** In a tree neither a file nor anything below it is a directory. */
  lemma NoDirectoryAtOrBelowFile(fs: FileSystem, p: string, f: string)
    requires Tree(fs) && f in fs.files && (p == f || StartsWith(p, f + "/"))
    ensures p !in fs.dirs
  {
    if p != f && p in fs.dirs {
      NotBelowFile(fs, p, f);
    }
  }

  /** A file among the targets keeps the last one from becoming a directory. */
  lemma ChainBlockedByFile(fs: FileSystem, ts: seq<string>, j: nat)
    requires Tree(fs) && Chained(ts) && j < |ts| && ts[j] in fs.files
    ensures ts[|ts| - 1] !in MkdirAll(fs, ts).dirs
  {
    MkdirAllEffect(fs, ts);
    if j < |ts| - 1 {
      Descends(ts, j, |ts| - 1);
    }
    NoDirectoryAtOrBelowFile(MkdirAll(fs, ts), ts[|ts| - 1], ts[j]);
  }

  /** No target of a chain is a path whose parent is the chain's last target. */
  lemma TargetIsNotChild(ts: seq<string>, k: nat, r: string)
    requires Chained(ts) && k < |ts| && Parent(r) == ts[|ts| - 1]
    ensures ts[k] != r
  {
    ChainedAt(ts, k);
    ChainedAt(ts, |ts| - 1);
    if k > 0 {
      Descends(ts, k - 1, |ts| - 1);
    }
  }

  /** The `mkdir` loop followed by the write, on a tree: the write succeeds
      exactly when no target is a file and the path is not a directory, given
      that the last target (or the root, when there is none) is the path's
      parent. */
  lemma WriteAfterTargets(fs: FileSystem, path: string, data: seq<Byte>)
    requires Tree(fs)
    requires var ts := MkdirTargets(path);
      Parent(Resolve(path)) == if ts == [] then Root else ts[|ts| - 1]
    ensures var ts := MkdirTargets(path);
      WriteData(MkdirAll(fs, ts), path, data).Ok? <==>
        (forall k :: 0 <= k < |ts| ==> ts[k] !in fs.files) && !IsDir(fs, Resolve(path))
  {
    TargetsChained(path);
    WriteAfterChain(fs, MkdirTargets(path), path, data);
  }

  lemma WriteAfterChain(fs: FileSystem, ts: seq<string>, path: string, data: seq<Byte>)
    requires Tree(fs) && Chained(ts)
    requires Parent(Resolve(path)) == if ts == [] then Root else ts[|ts| - 1]
    ensures WriteData(MkdirAll(fs, ts), path, data).Ok? <==>
      (forall k :: 0 <= k < |ts| ==> ts[k] !in fs.files) && !IsDir(fs, Resolve(path))
  {
    var after := MkdirAll(fs, ts);
    var r := Resolve(path);
    MkdirAllEffect(fs, ts);
    if ts != [] {
      forall k | 0 <= k < |ts|
        ensures Resolve(ts[k]) != r
      {
        ChainedAt(ts, k);
        TargetIsNotChild(ts, k, r);
      }
      LastIsDirectory(fs, ts);
    }
    if r !in fs.dirs {
      MkdirAllOnlyAsked(fs, ts, r);
    }
    WriteBelow(fs, after, path, data, Parent(r));
  }

  /** The last target of a chain ends up a directory exactly when no target
      is a file. */
  lemma LastIsDirectory(fs: FileSystem, ts: seq<string>)
    requires Tree(fs) && Chained(ts) && ts != []
    ensures ts[|ts| - 1] in MkdirAll(fs, ts).dirs <==> forall k :: 0 <= k < |ts| ==> ts[k] !in fs.files
  {
    if forall k :: 0 <= k < |ts| ==> ts[k] !in fs.files {
      ChainCreatesAll(fs, ts);
    } else {
      var j :| 0 <= j < |ts| && ts[j] in fs.files;
      ChainBlockedByFile(fs, ts, j);
    }
  }

  /** A write into a tree that has only gained directories, the path itself
      not among them, succeeds exactly when the path was no directory and
      its parent now is one. */
  lemma WriteBelow(fs: FileSystem, after: FileSystem, path: string, data: seq<Byte>, parent: string)
    requires Tree(fs) && after.files == fs.files && fs.dirs <= after.dirs
    requires Resolve(path) in after.dirs ==> Resolve(path) in fs.dirs
    requires Parent(Resolve(path)) == parent
    ensures WriteData(after, path, data).Ok? <==> !IsDir(fs, Resolve(path)) && IsDir(after, parent)
  {
    var r := Resolve(path);
    if r in fs.files {
      assert IsDir(fs, Parent(r));
    }
  }

  /** On a fresh engine the write alone fails for `a/b/c/f`: `/a/b/c` is missing. */
  lemma NestedWriteAloneFails(data: seq<Byte>)
    ensures WriteData(EmptyFs, "a/b/c/f", data) == Err(NoSuchEntry)
  {
    NestedPathParent();
  }

  /** After the `mkdir` loop of `writeFile` the same write succeeds. */
  lemma NestedWriteAfterLoop(data: seq<Byte>)
    ensures WriteData(MkdirAll(EmptyFs, MkdirTargets("a/b/c/f")), "a/b/c/f", data).Ok?
  {
    NestedPathParent();
    MkdirTargetsExample("a/b/c/f");
    EmptyIsTree();
    WriteAfterTargets(EmptyFs, "a/b/c/f", data);
  }

  lemma NestedPathParent()
    ensures Resolve("a/b/c/f") == "/a/b/c/f" && Parent("/a/b/c/f") == "/a/b/c"
  {
    assert Resolve("a/b/c/f") == "/a/b/c" + "/" + "f";
    ParentOfJoin("/a/b/c", "f");
  }

  /** A file where a directory is wanted: with a file `/x`, `writeFile("x/f")`
      asks for `/x`, which fails, and the write then fails with `ENOTDIR`. */
  lemma FileInTheWay(existing: seq<Byte>, data: seq<Byte>)
    ensures var fs := FileSystem(map["/x" := existing], {});
      Tree(fs) && MkdirTargets("x/f") == ["/x"] &&
      WriteData(MkdirAll(fs, MkdirTargets("x/f")), "x/f", data) == Err(NotADirectory)
  {
    var fs := FileSystem(map["/x" := existing], {});
    ParentOfJoin("", "x");
    assert "" + "/" + "x" == "/x";
    assert Tree(fs);
    SingleDirectoryTargets();
    assert MkdirAll(fs, ["/x"]) == fs;
    BlockedWrite(fs, data);
  }

  lemma SingleDirectoryTargets()
    ensures MkdirTargets("x/f") == ["/x"]
  {
    assert "x/f" == "x" + ['/'] + "f";
    SplitWithoutSeparator("f", '/');
    SplitAtFirst("x", "f", '/');
    assert DirectoryComponents("x/f") == ["x"];
    assert "" + "/" + "x" == "/x";
    assert ["x"][1..] == [];
    assert Chain("", ["x"]) == ["/x"] + Chain("/x", []);
  }

  lemma BlockedWrite(fs: FileSystem, data: seq<Byte>)
    requires "/x" in fs.files && "/x/f" !in fs.files && fs.dirs == {}
    ensures WriteData(fs, "x/f", data) == Err(NotADirectory)
  {
    var p := Resolve("x/f");
    assert p == "/x" + "/" + "f" == "/x/f";
    ParentOfJoin("/x", "f");
    assert p[..3] == "/x" + "/";
    assert UnderFile(fs, p);
    assert |Parent(p)| == 2;
    assert !IsDir(fs, p) && !IsDir(fs, Parent(p));
    assert MissingError(fs, p) == NotADirectory;
  }
}
