/** The directory helpers: an existence guard, shallow and recursive listings of
    a directory, and bulk moves of a directory's files or whole content into
    another directory, over the abstract host filesystem of module `HostFs`. */
module DirectoryHelpers {
  import opened HostFs
  import opened Relocation

  /** `NotADirectory` is the guard's `NotADirectoryError`; `IoError` is an error
      raised by the host filesystem itself (here: by `mkdir`). */
  datatype Error = NotADirectory(path: Path) | IoError(path: Path)

  datatype Outcome = Pass | Fail(error: Error)

  datatype Result<T> = Ok(value: T) | Err(error: Error)

  // ---------------------------------------------------------------------------
  // Existence guard

  /** `is_existing_directory`. */
  predicate IsExistingDirectory(fs: seq<Entry>, d: Path)
  {
    Exists(fs, d) && IsDir(fs, d)
  }

  /** The guard holds exactly for existing paths that are not files. */
  lemma ExistingDirectoryExactly(fs: seq<Entry>, p: Path)
    requires WellFormed(fs)
    ensures IsExistingDirectory(fs, p) <==> Exists(fs, p) && !IsFile(fs, p)
  {
    KindIsUnique(fs, p);
  }

  /** `ensure_is_existing_directory`: raises `NotADirectoryError` carrying the path. */
  function EnsureIsExistingDirectory(fs: seq<Entry>, d: Path): (r: Outcome)
    ensures r.Pass? <==> IsExistingDirectory(fs, d)
    ensures r.Fail? ==> r.error == NotADirectory(d)
  {
    if !IsExistingDirectory(fs, d) then Fail(NotADirectory(d)) else Pass
  }

  /** The guard fails exactly for missing paths and for files. */
  lemma GuardFailsExactly(fs: seq<Entry>, p: Path)
    requires WellFormed(fs)
    ensures EnsureIsExistingDirectory(fs, p) == Fail(NotADirectory(p)) <==> !Exists(fs, p) || IsFile(fs, p)
    ensures EnsureIsExistingDirectory(fs, p) == Pass <==> Entry(p, Dir) in fs || p == []
  {
    KindIsUnique(fs, p);
  }

  // ---------------------------------------------------------------------------
  // Shallow listings

  /** The items that are directories (`dirs`) or that are not (`!dirs`), in order. */
  function Select(fs: seq<Entry>, items: seq<Path>, dirs: bool): (r: seq<Path>)
    ensures forall p :: p in r <==> p in items && IsDir(fs, p) == dirs
    ensures NoDuplicates(items) ==> NoDuplicates(r)
  {
    if items == [] then []
    else
      var rest := Select(fs, items[1..], dirs);
      assert forall p :: p in items <==> p == items[0] || p in items[1..];
      assert NoDuplicates(items) ==> NoDuplicates(items[1..]) && items[0] !in items[1..] by {
        if NoDuplicates(items) {
          forall i, j | 0 <= i < j < |items[1..]| ensures items[1..][i] != items[1..][j] {
            assert items[1..][i] == items[i + 1] && items[1..][j] == items[j + 1];
          }
        }
      }
      if IsDir(fs, items[0]) == dirs then [items[0]] + rest else rest
  }

  /** Selecting directories and non-directories splits the items. */
  lemma {:induction false} SelectSplits(fs: seq<Entry>, items: seq<Path>)
    ensures multiset(Select(fs, items, true)) + multiset(Select(fs, items, false)) == multiset(items)
  {
    if items != [] {
      SelectSplits(fs, items[1..]);
      assert items == [items[0]] + items[1..];
    }
  }

  /** Every child of an existing directory is reported by `iterdir` as a
      directory or as a file, never both. */
  lemma ChildKinds(fs: seq<Entry>, d: Path)
    requires WellFormed(fs)
    ensures forall p :: p in IterDir(fs, d) ==> (IsDir(fs, p) <==> Entry(p, Dir) in fs)
    ensures forall p :: p in IterDir(fs, d) ==> (!IsDir(fs, p) <==> Entry(p, File) in fs)
  {
    forall p | p in IterDir(fs, d) ensures !IsDir(fs, p) <==> Entry(p, File) in fs {
      KindIsUnique(fs, p);
    }
  }

  /** `list_only_dirs`: the immediate children that are directories. */
  function ListOnlyDirs(fs: seq<Entry>, d: Path): (r: Result<seq<Path>>)
    requires WellFormed(fs)
    ensures r.Ok? <==> IsExistingDirectory(fs, d)
    ensures r.Err? ==> r.error == NotADirectory(d)
    ensures r.Ok? ==> NoDuplicates(r.value)
    ensures r.Ok? ==> forall p :: p in r.value <==> IsChildOf(p, d) && Entry(p, Dir) in fs
  {
    match EnsureIsExistingDirectory(fs, d)
    case Fail(e) => Err(e)
    case Pass => ChildKinds(fs, d); Ok(Select(fs, IterDir(fs, d), true))
  }

  /** `list_only_files`: the immediate children that are not directories. */
  function ListOnlyFiles(fs: seq<Entry>, d: Path): (r: Result<seq<Path>>)
    requires WellFormed(fs)
    ensures r.Ok? <==> IsExistingDirectory(fs, d)
    ensures r.Err? ==> r.error == NotADirectory(d)
    ensures r.Ok? ==> NoDuplicates(r.value)
    ensures r.Ok? ==> forall p :: p in r.value <==> IsChildOf(p, d) && Entry(p, File) in fs
  {
    match EnsureIsExistingDirectory(fs, d)
    case Fail(e) => Err(e)
    case Pass => ChildKinds(fs, d); Ok(Select(fs, IterDir(fs, d), false))
  }

  /** `list_content`: the directories, then the files, among the immediate children. */
  function ListContent(fs: seq<Entry>, d: Path): (r: Result<seq<Path>>)
    requires WellFormed(fs)
    ensures r.Ok? <==> IsExistingDirectory(fs, d)
    ensures r.Err? ==> r.error == NotADirectory(d)
    ensures r.Ok? ==> NoDuplicates(r.value)
    ensures r.Ok? ==> forall p :: p in r.value <==> IsChildOf(p, d) && Exists(fs, p)
  {
    match EnsureIsExistingDirectory(fs, d)
    case Fail(e) => Err(e)
    case Pass =>
      var dirs, files := ListOnlyDirs(fs, d).value, ListOnlyFiles(fs, d).value;
      assert forall p :: p in dirs ==> p !in files by {
        forall p | p in dirs ensures p !in files { KindIsUnique(fs, p); }
      }
      DisjointConcat(dirs, files);
      Ok(dirs + files)
  }

  /** Concatenating two duplicate-free, disjoint sequences leaves no duplicates. */
  lemma DisjointConcat<T>(a: seq<T>, b: seq<T>)
    requires NoDuplicates(a) && NoDuplicates(b)
    requires forall x :: x in a ==> x !in b
    ensures NoDuplicates(a + b)
  {
    forall i, j | 0 <= i < j < |a + b| ensures (a + b)[i] != (a + b)[j] {
      if i < |a| && j >= |a| {
        assert (a + b)[i] == a[i] && (a + b)[j] == b[j - |a|];
        assert a[i] in a && b[j - |a|] in b;
      }
    }
  }

  /** The shallow listings partition a directory's children: directories and
      files are disjoint and together are exactly what `iterdir` reports. */
  lemma ShallowListingsPartition(fs: seq<Entry>, d: Path)
    requires WellFormed(fs) && IsExistingDirectory(fs, d)
    ensures forall p :: !(p in ListOnlyDirs(fs, d).value && p in ListOnlyFiles(fs, d).value)
    ensures multiset(ListContent(fs, d).value) == multiset(IterDir(fs, d))
    ensures |ListContent(fs, d).value| == |ListOnlyDirs(fs, d).value| + |ListOnlyFiles(fs, d).value|
    ensures |ListContent(fs, d).value| == |IterDir(fs, d)|
  {
    forall p | p in ListOnlyDirs(fs, d).value ensures p !in ListOnlyFiles(fs, d).value {
      KindIsUnique(fs, p);
    }
    SelectSplits(fs, IterDir(fs, d));
    assert |multiset(ListContent(fs, d).value)| == |multiset(IterDir(fs, d))|;
  }

  /** A directory without children lists nothing, shallowly or recursively. */
  lemma LeafDirectoryListsNothing(fs: seq<Entry>, d: Path)
    requires WellFormed(fs) && IsExistingDirectory(fs, d)
    requires forall p :: IsChildOf(p, d) ==> !Exists(fs, p)
    ensures ListOnlyDirs(fs, d) == Ok([]) && ListOnlyFiles(fs, d) == Ok([])
    ensures ListContent(fs, d) == Ok([])
    ensures Descendants(fs, d) == {}
  {
    forall p | p in Descendants(fs, d) ensures false {
      ChildOnTheWay(fs, d, p);
    }
  }

  // ---------------------------------------------------------------------------
  // What the recursive listings are about

  /** The entries of kind `k` strictly inside `d`. */
  ghost function Below(fs: seq<Entry>, d: Path, k: Kind): (r: set<Path>)
    ensures forall p :: p in r <==> d < p && Entry(p, k) in fs
  {
    var r := set e | e in fs && e.kind == k && d < e.path :: e.path;
    assert forall p :: d < p && Entry(p, k) in fs ==> p in r by {
      forall p | d < p && Entry(p, k) in fs ensures p in r {
        var e := Entry(p, k);
        assert e in fs && e.kind == k && d < e.path;
      }
    }
    r
  }

  /** Every entry strictly inside `d`: its subtree without `d` itself. */
  ghost function Descendants(fs: seq<Entry>, d: Path): (r: set<Path>)
    ensures forall p :: p in r <==> d < p && Exists(fs, p)
  {
    Below(fs, d, Dir) + Below(fs, d, File)
  }

  /** A directory whose children are all files has no directory anywhere below
      it, so `list_dirs_recursively` reports nothing for it. */
  lemma NoSubdirectoriesNoDirs(fs: seq<Entry>, d: Path)
    requires WellFormed(fs) && IsExistingDirectory(fs, d)
    requires forall p :: IsChildOf(p, d) ==> Entry(p, Dir) !in fs
    ensures Below(fs, d, Dir) == {}
  {
    forall p | d < p && Entry(p, Dir) in fs
      ensures IsChildOf(p[..|d| + 1], d) && Entry(p[..|d| + 1], Dir) in fs
    {
      ChildOnTheWay(fs, d, p);
    }
  }

  /** A strict descendant of `d` hangs below (or is) an existing child of `d`,
      and that child is a directory unless it is the descendant itself. */
  lemma ChildOnTheWay(fs: seq<Entry>, d: Path, p: Path)
    requires WellFormed(fs) && d < p && Exists(fs, p)
    ensures IsChildOf(p[..|d| + 1], d) && p[..|d| + 1] <= p
    ensures p[..|d| + 1] == p || Entry(p[..|d| + 1], Dir) in fs
    ensures p[..|d| + 1] in IterDir(fs, d)
  {
    var c := p[..|d| + 1];
    if c != p {
      PrefixIsDir(fs, p, c);
    }
  }

  /** A duplicate-free sequence has as many elements as the set of its elements. */
  lemma {:induction false} DistinctCount(s: seq<Path>)
    requires NoDuplicates(s)
    ensures |set p | p in s| == |s|
  {
    if s != [] {
      var rest := s[1..];
      assert NoDuplicates(rest) by {
        forall i, j | 0 <= i < j < |rest| ensures rest[i] != rest[j] {
          assert rest[i] == s[i + 1] && rest[j] == s[j + 1];
        }
      }
      DistinctCount(rest);
      assert s[0] !in rest;
      assert (set p | p in s) == (set p | p in rest) + {s[0]};
    }
  }

  // ---------------------------------------------------------------------------
  // Recursive listings

  /** `list_dirs_recursively`: depth first, each subdirectory followed by what
      the recursive call finds inside it. */
  method ListDirsRecursively(fs: seq<Entry>, d: Path) returns (r: Result<seq<Path>>)
    requires WellFormed(fs)
    ensures r.Ok? <==> IsExistingDirectory(fs, d)
    ensures r.Err? ==> r.error == NotADirectory(d)
    ensures r.Ok? ==> NoDuplicates(r.value)
    ensures r.Ok? ==> forall p :: p in r.value <==> p in Below(fs, d, Dir)
    ensures r.Ok? ==> |r.value| == |Below(fs, d, Dir)|
    decreases MaxDepth(fs) - |d|
  {
    var guard := EnsureIsExistingDirectory(fs, d);
    if guard.Fail? {
      return Err(guard.error);
    }
    var foundDirs: seq<Path> := [];
    var items := IterDir(fs, d);
    for i := 0 to |items|
      invariant NoDuplicates(foundDirs)
      invariant forall p :: p in foundDirs <==> p in Below(fs, d, Dir) && p[..|d| + 1] in items[..i]
    {
      var item := items[i];
      assert items[..i + 1] == items[..i] + [item];
      assert item !in items[..i];
      if IsDir(fs, item) {
        var k :| 0 <= k < |fs| && fs[k] == Entry(item, Dir);
        assert |item| <= MaxDepth(fs);
        var sub := ListDirsRecursively(fs, item);
        DirsStep(fs, d, item, items[..i], foundDirs, sub.value);
        foundDirs := foundDirs + [item];
        foundDirs := foundDirs + sub.value;
      } else {
        forall p | p in Below(fs, d, Dir) && p[..|d| + 1] == item ensures false {
          ChildOnTheWay(fs, d, p);
        }
      }
    }
    assert items[..|items|] == items;
    forall p | p in Below(fs, d, Dir) ensures p[..|d| + 1] in items {
      ChildOnTheWay(fs, d, p);
    }
    DistinctCount(foundDirs);
    assert (set p | p in foundDirs) == Below(fs, d, Dir);
    return Ok(foundDirs);
  }

  /** One iteration of `ListDirsRecursively`'s loop on a subdirectory `item`. */
  lemma DirsStep(fs: seq<Entry>, d: Path, item: Path, before: seq<Path>, found: seq<Path>, sub: seq<Path>)
    requires IsChildOf(item, d) && Entry(item, Dir) in fs && item !in before
    requires NoDuplicates(found) && NoDuplicates(sub)
    requires forall p :: p in found <==> p in Below(fs, d, Dir) && p[..|d| + 1] in before
    requires forall p :: p in sub <==> p in Below(fs, item, Dir)
    ensures NoDuplicates(found + [item] + sub)
    ensures forall p :: p in found + [item] + sub <==>
              p in Below(fs, d, Dir) && p[..|d| + 1] in before + [item]
  {
    assert item[..|d| + 1] == item;
    forall p | p in sub ensures p in Below(fs, d, Dir) && p[..|d| + 1] == item {
      assert item < p;
      assert p[..|d| + 1] == p[..|item|][..|d| + 1];
    }
    DisjointConcat(found, [item]);
    DisjointConcat(found + [item], sub);
    forall p | p in Below(fs, d, Dir) && p[..|d| + 1] == item
      ensures p == item || p in Below(fs, item, Dir)
    {
      assert item <= p;
    }
  }

  /** `list_files_recursively`: the directory's own files, then, for every
      subdirectory, what the recursive call finds there. */
  method ListFilesRecursively(fs: seq<Entry>, d: Path) returns (r: Result<seq<Path>>)
    requires WellFormed(fs)
    ensures r.Ok? <==> IsExistingDirectory(fs, d)
    ensures r.Err? ==> r.error == NotADirectory(d)
    ensures r.Ok? ==> NoDuplicates(r.value)
    ensures r.Ok? ==> forall p :: p in r.value <==> p in Below(fs, d, File)
    ensures r.Ok? ==> |r.value| == |Below(fs, d, File)|
    decreases MaxDepth(fs) - |d|
  {
    var guard := EnsureIsExistingDirectory(fs, d);
    if guard.Fail? {
      return Err(guard.error);
    }
    var foundFiles := ListOnlyFiles(fs, d).value;
    var foundDirs := ListOnlyDirs(fs, d).value;
    for i := 0 to |foundDirs|
      invariant NoDuplicates(foundFiles)
      invariant forall p :: p in foundFiles <==>
                  p in Below(fs, d, File) && (IsChildOf(p, d) || p[..|d| + 1] in foundDirs[..i])
    {
      var dir := foundDirs[i];
      assert foundDirs[..i + 1] == foundDirs[..i] + [dir];
      assert dir !in foundDirs[..i];
      var k :| 0 <= k < |fs| && fs[k] == Entry(dir, Dir);
      assert |dir| <= MaxDepth(fs);
      var sub := ListFilesRecursively(fs, dir);
      FilesStep(fs, d, dir, foundDirs[..i], foundFiles, sub.value);
      foundFiles := foundFiles + sub.value;
    }
    assert foundDirs[..|foundDirs|] == foundDirs;
    forall p | p in Below(fs, d, File) && !IsChildOf(p, d) ensures p[..|d| + 1] in foundDirs {
      ChildOnTheWay(fs, d, p);
    }
    DistinctCount(foundFiles);
    assert (set p | p in foundFiles) == Below(fs, d, File);
    return Ok(foundFiles);
  }

  /** One iteration of `ListFilesRecursively`'s loop on a subdirectory `dir`. */
  lemma FilesStep(fs: seq<Entry>, d: Path, dir: Path, before: seq<Path>, found: seq<Path>, sub: seq<Path>)
    requires WellFormed(fs)
    requires IsChildOf(dir, d) && Entry(dir, Dir) in fs && dir !in before
    requires NoDuplicates(found) && NoDuplicates(sub)
    requires forall p :: p in found <==> p in Below(fs, d, File) && (IsChildOf(p, d) || p[..|d| + 1] in before)
    requires forall p :: p in sub <==> p in Below(fs, dir, File)
    ensures NoDuplicates(found + sub)
    ensures forall p :: p in found + sub <==>
              p in Below(fs, d, File) && (IsChildOf(p, d) || p[..|d| + 1] in before + [dir])
  {
    assert forall p :: p in sub ==> dir < p && p[..|d| + 1] == dir && !IsChildOf(p, d);
    DisjointConcat(found, sub);
    forall p | p in Below(fs, d, File) && p[..|d| + 1] == dir
      ensures p in Below(fs, dir, File)
    {
      assert dir <= p;
      KindIsUnique(fs, dir);
      assert Entry(p, File) in fs && p != dir;
    }
  }

  /** `list_all_dir_content_recursively`: the recursive files, then the
      recursive directories: every entry strictly inside `d`. */
  method ListAllDirContentRecursively(fs: seq<Entry>, d: Path) returns (r: Result<seq<Path>>)
    requires WellFormed(fs)
    ensures r.Ok? <==> IsExistingDirectory(fs, d)
    ensures r.Err? ==> r.error == NotADirectory(d)
    ensures r.Ok? ==> NoDuplicates(r.value) && d !in r.value
    ensures r.Ok? ==> forall p :: p in r.value <==> p in Descendants(fs, d)
    ensures r.Ok? ==> |r.value| == |Below(fs, d, File)| + |Below(fs, d, Dir)| == |Descendants(fs, d)|
  {
    var guard := EnsureIsExistingDirectory(fs, d);
    if guard.Fail? {
      return Err(guard.error);
    }
    var files := ListFilesRecursively(fs, d);
    var dirs := ListDirsRecursively(fs, d);
    assert forall p :: p in files.value ==> p !in dirs.value by {
      forall p | p in files.value ensures p !in dirs.value { KindIsUnique(fs, p); }
    }
    DisjointConcat(files.value, dirs.value);
    assert Below(fs, d, File) !! Below(fs, d, Dir) by {
      forall p | p in Below(fs, d, File) ensures p !in Below(fs, d, Dir) { KindIsUnique(fs, p); }
    }
    return Ok(files.value + dirs.value);
  }

  // ---------------------------------------------------------------------------
  // Bulk moves: what they compute

  /** The filesystem once the target is an existing directory: unchanged when it
      already is one, otherwise `mkdir(parents=True)` creates it. */
  function PrepareTarget(fs: seq<Entry>, t: Path): (r: Option<seq<Entry>>)
    requires WellFormed(fs)
    ensures r.Some? <==> IsExistingDirectory(fs, t) || (!Exists(fs, t) && NoFileOnPath(fs, t))
    ensures r.Some? ==> WellFormed(r.value) && IsExistingDirectory(r.value, t)
    ensures r.Some? ==> forall q, k :: Entry(q, k) in r.value <==>
              Entry(q, k) in fs || (k == Dir && q != [] && q <= t && !Exists(fs, q))
  {
    if IsExistingDirectory(fs, t) then
      assert forall q :: q <= t ==> Exists(fs, q) by {
        forall q | q <= t ensures Exists(fs, q) { PrefixExists(fs, t, q); }
      }
      Some(fs)
    else MakeDirs(fs, t)
  }

  /** `move_all_files(s, t)`: the guard on `s`, the target made an existing
      directory, then every file that `list_only_files(s)` reports renamed to
      the same name under `t`. */
  function MoveAllFilesResult(fs: seq<Entry>, s: Path, t: Path): (r: Result<seq<Entry>>)
    requires WellFormed(fs)
    ensures r.Err? ==> r.error == NotADirectory(s) || r.error == IoError(t)
    ensures r == Err(NotADirectory(s)) <==> !IsExistingDirectory(fs, s)
    ensures r == Err(IoError(t)) <==>
              IsExistingDirectory(fs, s) && !IsExistingDirectory(fs, t) && (Exists(fs, t) || !NoFileOnPath(fs, t))
  {
    match EnsureIsExistingDirectory(fs, s)
    case Fail(e) => Err(e)
    case Pass =>
      match PrepareTarget(fs, t)
      case None => Err(IoError(t))
      case Some(prepared) => Ok(MoveChildren(prepared, s, t, ListOnlyFiles(prepared, s).value))
  }

  /** `move_all_content(s, t)`: as `move_all_files`, for everything that
      `list_content(s)` reports; each directory moves with its subtree. */
  function MoveAllContentResult(fs: seq<Entry>, s: Path, t: Path): (r: Result<seq<Entry>>)
    requires WellFormed(fs)
    ensures r.Err? ==> r.error == NotADirectory(s) || r.error == IoError(t)
    ensures r == Err(NotADirectory(s)) <==> !IsExistingDirectory(fs, s)
    ensures r == Err(IoError(t)) <==>
              IsExistingDirectory(fs, s) && !IsExistingDirectory(fs, t) && (Exists(fs, t) || !NoFileOnPath(fs, t))
  {
    match EnsureIsExistingDirectory(fs, s)
    case Fail(e) => Err(e)
    case Pass =>
      match PrepareTarget(fs, t)
      case None => Err(IoError(t))
      case Some(prepared) => Ok(MoveChildren(prepared, s, t, ListContent(prepared, s).value))
  }

  /** Each `shutil.move` of `move_all_files` is a plain rename: no destination
      `t/name` of a file of `s` exists yet. */
  ghost predicate FilesCanMove(fs: seq<Entry>, s: Path, t: Path)
  {
    IsExistingDirectory(fs, s) && s != t ==>
      forall c :: c in IterDir(fs, s) && IsFile(fs, c) ==> !Exists(fs, t + c[|s|..])
  }

  /** Each `shutil.move` of `move_all_content` is a plain rename: `t` is not
      inside `s`, and no destination `t/name` of a child of `s` exists yet. */
  ghost predicate ContentCanMove(fs: seq<Entry>, s: Path, t: Path)
  {
    IsExistingDirectory(fs, s) && s != t ==>
      !(s < t) && forall c :: c in IterDir(fs, s) ==> !Exists(fs, t + c[|s|..])
  }

  /** Where `move_all_files(s, t)` puts an entry. */
  function FileDestination(e: Entry, s: Path, t: Path): Entry
  {
    if e.kind == File && IsChildOf(e.path, s) then Entry(t + e.path[|s|..], File) else e
  }

  /** Where `move_all_content(s, t)` puts an entry. */
  function ContentDestination(e: Entry, s: Path, t: Path): Entry
  {
    if s < e.path then Entry(t + e.path[|s|..], e.kind) else e
  }

  /** The index of an entry. */
  lemma EntryIndex(fs: seq<Entry>, e: Entry) returns (j: int)
    requires e in fs
    ensures 0 <= j < |fs| && fs[j] == e
  {
    j :| 0 <= j < |fs| && fs[j] == e;
  }

  /** An entry exists under its own path. */
  lemma EntryExists(fs: seq<Entry>, k: int)
    requires 0 <= k < |fs|
    ensures Exists(fs, fs[k].path)
    ensures fs[k] == Entry(fs[k].path, fs[k].kind)
  {
    assert fs[k].kind == Dir ==> fs[k] == Entry(fs[k].path, Dir);
    assert fs[k].kind == File ==> fs[k] == Entry(fs[k].path, File);
  }

  /** Moving the listed files of `s` sends every entry to its `FileDestination`. */
  lemma FilesRelocation(c: seq<Entry>, s: Path, t: Path)
    requires WellFormed(c) && IsExistingDirectory(c, s)
    ensures forall k :: 0 <= k < |c| ==>
              MoveChildren(c, s, t, ListOnlyFiles(c, s).value)[k] == FileDestination(c[k], s, t)
  {
    var files := ListOnlyFiles(c, s).value;
    forall k | 0 <= k < |c|
      ensures Entry(Relocate(c[k].path, s, t, files), c[k].kind) == FileDestination(c[k], s, t)
    {
      var p := c[k].path;
      EntryExists(c, k);
      if c[k].kind == File && IsChildOf(p, s) {
        assert p[..|s| + 1] == p;
      } else if s < p {
        var f := p[..|s| + 1];
        if f == p {
          assert IsDir(c, p);
        } else {
          PrefixIsDir(c, p, f);
        }
        KindIsUnique(c, f);
      }
    }
  }

  /** Moving the listed content of `s` sends every entry to its `ContentDestination`. */
  lemma ContentRelocation(c: seq<Entry>, s: Path, t: Path)
    requires WellFormed(c) && IsExistingDirectory(c, s)
    ensures forall k :: 0 <= k < |c| ==>
              MoveChildren(c, s, t, ListContent(c, s).value)[k] == ContentDestination(c[k], s, t)
  {
    forall k | 0 <= k < |c| && s < c[k].path
      ensures c[k].path[..|s| + 1] in ListContent(c, s).value
    {
      EntryExists(c, k);
      ChildOnTheWay(c, s, c[k].path);
    }
  }

  /** Under `FilesCanMove`, the files snapshot is safe to move one by one. */
  lemma FilesSnapshotSafe(fs: seq<Entry>, s: Path, t: Path)
    requires WellFormed(fs) && IsExistingDirectory(fs, s) && FilesCanMove(fs, s, t) && s != t
    requires PrepareTarget(fs, t).Some?
    ensures var c := PrepareTarget(fs, t).value; SafeSnapshot(c, s, t, ListOnlyFiles(c, s).value)
  {
    var c := PrepareTarget(fs, t).value;
    forall f | f in ListOnlyFiles(c, s).value
      ensures IsChildOf(f, s) && Exists(c, f) && !Exists(c, t + f[|s|..]) && !(f <= t)
    {
      assert Entry(f, File) in fs;
      assert f in IterDir(fs, s);
      assert !(t + f[|s|..] <= t);
      KindIsUnique(c, f);
      NothingBelowFile(c, f, t);
      assert IsFile(c, f) && f != t;
    }
  }

  /** Under `ContentCanMove`, the content snapshot is safe to move one by one. */
  lemma ContentSnapshotSafe(fs: seq<Entry>, s: Path, t: Path)
    requires WellFormed(fs) && IsExistingDirectory(fs, s) && ContentCanMove(fs, s, t) && s != t
    requires PrepareTarget(fs, t).Some?
    ensures var c := PrepareTarget(fs, t).value; SafeSnapshot(c, s, t, ListContent(c, s).value)
  {
  }

  /** Moving onto the source itself renames nothing. */
  lemma MoveOntoItself(fs: seq<Entry>, s: Path)
    requires WellFormed(fs) && IsExistingDirectory(fs, s)
    ensures MoveAllFilesResult(fs, s, s) == Ok(fs)
    ensures MoveAllContentResult(fs, s, s) == Ok(fs)
  {
    OntoItselfChangesNothing(fs, s, ListOnlyFiles(fs, s).value);
    OntoItselfChangesNothing(fs, s, ListContent(fs, s).value);
  }

  lemma OntoItselfChangesNothing(fs: seq<Entry>, s: Path, moved: seq<Path>)
    ensures MoveChildren(fs, s, s, moved) == fs
  {
    forall k | 0 <= k < |fs| ensures MoveChildren(fs, s, s, moved)[k] == fs[k] {
      RelocateOntoSelf(fs[k].path, s, moved);
    }
  }

  // ---------------------------------------------------------------------------
  // Bulk moves: what they achieve

  /** With a safe snapshot, moving the files keeps the filesystem well formed
      and leaves `t` an existing directory. */
  lemma FilesMoveWellFormed(fs: seq<Entry>, s: Path, t: Path)
    requires WellFormed(fs) && IsExistingDirectory(fs, s) && FilesCanMove(fs, s, t) && PrepareTarget(fs, t).Some?
    ensures MoveAllFilesResult(fs, s, t).Ok?
    ensures WellFormed(MoveAllFilesResult(fs, s, t).value)
    ensures IsExistingDirectory(MoveAllFilesResult(fs, s, t).value, t)
  {
    var c := PrepareTarget(fs, t).value;
    if s == t {
      OntoItselfChangesNothing(c, s, ListOnlyFiles(c, s).value);
    } else {
      FilesSnapshotSafe(fs, s, t);
      MoveChildrenWellFormed(c, s, t, ListOnlyFiles(c, s).value);
    }
    if t != [] {
      FilesRelocation(c, s, t);
      var k := EntryIndex(c, Entry(t, Dir));
    }
  }

  /** Each original entry is found at its `FileDestination` after `move_all_files`. */
  lemma FileArrives(fs: seq<Entry>, s: Path, t: Path, e: Entry)
    requires WellFormed(fs) && IsExistingDirectory(fs, s) && PrepareTarget(fs, t).Some? && e in fs
    ensures MoveAllFilesResult(fs, s, t).Ok?
    ensures FileDestination(e, s, t) in MoveAllFilesResult(fs, s, t).value
  {
    var c := PrepareTarget(fs, t).value;
    FilesRelocation(c, s, t);
    var k := EntryIndex(c, e);
    assert MoveAllFilesResult(fs, s, t).value[k] == FileDestination(e, s, t);
  }

  /** Each entry after `move_all_files` is an original entry at its
      `FileDestination`, or a directory `mkdir` created on the way to `t`. */
  lemma FileOrigin(fs: seq<Entry>, s: Path, t: Path, e: Entry) returns (e0: Entry)
    requires WellFormed(fs) && IsExistingDirectory(fs, s) && PrepareTarget(fs, t).Some?
    requires MoveAllFilesResult(fs, s, t).Ok? && e in MoveAllFilesResult(fs, s, t).value
    ensures e == FileDestination(e0, s, t)
    ensures e0 in fs || (e0 == e && e.kind == Dir && e.path != [] && e.path <= t && !Exists(fs, e.path))
  {
    var c := PrepareTarget(fs, t).value;
    FilesRelocation(c, s, t);
    var k := EntryIndex(MoveAllFilesResult(fs, s, t).value, e);
    e0 := c[k];
    EntryExists(c, k);
  }

  /** With a safe snapshot, moving the content keeps the filesystem well formed
      and leaves `t` an existing directory. */
  lemma ContentMoveWellFormed(fs: seq<Entry>, s: Path, t: Path)
    requires WellFormed(fs) && IsExistingDirectory(fs, s) && ContentCanMove(fs, s, t) && PrepareTarget(fs, t).Some?
    ensures MoveAllContentResult(fs, s, t).Ok?
    ensures WellFormed(MoveAllContentResult(fs, s, t).value)
    ensures IsExistingDirectory(MoveAllContentResult(fs, s, t).value, t)
  {
    var c := PrepareTarget(fs, t).value;
    if s == t {
      OntoItselfChangesNothing(c, s, ListContent(c, s).value);
    } else {
      ContentSnapshotSafe(fs, s, t);
      MoveChildrenWellFormed(c, s, t, ListContent(c, s).value);
    }
    if t != [] {
      ContentRelocation(c, s, t);
      var k := EntryIndex(c, Entry(t, Dir));
      assert !(s < t);
    }
  }

  /** Each original entry is found at its `ContentDestination` after `move_all_content`. */
  lemma ContentArrives(fs: seq<Entry>, s: Path, t: Path, e: Entry)
    requires WellFormed(fs) && IsExistingDirectory(fs, s) && PrepareTarget(fs, t).Some? && e in fs
    ensures MoveAllContentResult(fs, s, t).Ok?
    ensures ContentDestination(e, s, t) in MoveAllContentResult(fs, s, t).value
  {
    var c := PrepareTarget(fs, t).value;
    ContentRelocation(c, s, t);
    var k := EntryIndex(c, e);
    assert MoveAllContentResult(fs, s, t).value[k] == ContentDestination(e, s, t);
  }

  /** Each entry after `move_all_content` is an original entry at its
      `ContentDestination`, or a directory `mkdir` created on the way to `t`. */
  lemma ContentOrigin(fs: seq<Entry>, s: Path, t: Path, e: Entry) returns (e0: Entry)
    requires WellFormed(fs) && IsExistingDirectory(fs, s) && ContentCanMove(fs, s, t) && PrepareTarget(fs, t).Some?
    requires MoveAllContentResult(fs, s, t).Ok? && e in MoveAllContentResult(fs, s, t).value
    ensures e == ContentDestination(e0, s, t)
    ensures e0 in fs || (e0 == e && e.kind == Dir && e.path != [] && e.path <= t && !Exists(fs, e.path))
  {
    var c := PrepareTarget(fs, t).value;
    ContentRelocation(c, s, t);
    var k := EntryIndex(MoveAllContentResult(fs, s, t).value, e);
    e0 := c[k];
    EntryExists(c, k);
    assert c[k].kind == Dir && c[k].path <= t ==> !(s < c[k].path);
  }

  /** What `move_all_files(s, t)` turns `fs` into: every original entry is
      found at its `FileDestination`, and the only other entries are
      directories `mkdir` created on the way to `t`. */
  ghost predicate FilesMoved(fs: seq<Entry>, s: Path, t: Path, after: seq<Entry>)
  {
    && (forall e :: e in fs ==> FileDestination(e, s, t) in after)
    && (forall e :: e in after ==>
          (exists e0 :: e0 in fs && e == FileDestination(e0, s, t)) ||
          (e.kind == Dir && e.path <= t && !Exists(fs, e.path)))
  }

  /** What `move_all_content(s, t)` turns `fs` into: every original entry is
      found at its `ContentDestination`, and the only other entries are
      directories `mkdir` created on the way to `t`. */
  ghost predicate ContentMoved(fs: seq<Entry>, s: Path, t: Path, after: seq<Entry>)
  {
    && (forall e :: e in fs ==> ContentDestination(e, s, t) in after)
    && (forall e :: e in after ==>
          (exists e0 :: e0 in fs && e == ContentDestination(e0, s, t)) ||
          (e.kind == Dir && e.path <= t && !Exists(fs, e.path)))
  }

  /** `move_all_files(s, t)` succeeds whenever the target is or can be made an
      existing directory, and its result is well formed, has `t` as an
      existing directory, and is `fs` with the files of `s` moved under `t`. */
  lemma MoveAllFilesEffect(fs: seq<Entry>, s: Path, t: Path)
    requires WellFormed(fs) && IsExistingDirectory(fs, s) && FilesCanMove(fs, s, t)
    requires IsExistingDirectory(fs, t) || (!Exists(fs, t) && NoFileOnPath(fs, t))
    ensures MoveAllFilesResult(fs, s, t).Ok?
    ensures WellFormed(MoveAllFilesResult(fs, s, t).value)
    ensures IsExistingDirectory(MoveAllFilesResult(fs, s, t).value, t)
    ensures FilesMoved(fs, s, t, MoveAllFilesResult(fs, s, t).value)
  {
    FilesMoveWellFormed(fs, s, t);
    forall e | e in fs ensures FileDestination(e, s, t) in MoveAllFilesResult(fs, s, t).value {
      FileArrives(fs, s, t, e);
    }
    forall e | e in MoveAllFilesResult(fs, s, t).value
      ensures (exists e0 :: e0 in fs && e == FileDestination(e0, s, t)) ||
              (e.kind == Dir && e.path <= t && !Exists(fs, e.path))
    {
      var e0 := FileOrigin(fs, s, t, e);
    }
  }

  /** `move_all_content(s, t)` succeeds whenever the target is or can be made
      an existing directory, and its result is well formed, has `t` as an
      existing directory, and is `fs` with the content of `s` moved under `t`. */
  lemma MoveAllContentEffect(fs: seq<Entry>, s: Path, t: Path)
    requires WellFormed(fs) && IsExistingDirectory(fs, s) && ContentCanMove(fs, s, t)
    requires IsExistingDirectory(fs, t) || (!Exists(fs, t) && NoFileOnPath(fs, t))
    ensures MoveAllContentResult(fs, s, t).Ok?
    ensures WellFormed(MoveAllContentResult(fs, s, t).value)
    ensures IsExistingDirectory(MoveAllContentResult(fs, s, t).value, t)
    ensures ContentMoved(fs, s, t, MoveAllContentResult(fs, s, t).value)
  {
    ContentMoveWellFormed(fs, s, t);
    forall e | e in fs ensures ContentDestination(e, s, t) in MoveAllContentResult(fs, s, t).value {
      ContentArrives(fs, s, t, e);
    }
    forall e | e in MoveAllContentResult(fs, s, t).value
      ensures (exists e0 :: e0 in fs && e == ContentDestination(e0, s, t)) ||
              (e.kind == Dir && e.path <= t && !Exists(fs, e.path))
    {
      var e0 := ContentOrigin(fs, s, t, e);
    }
  }

  /** The immediate children of `d` of kind `k`. */
  ghost function Children(fs: seq<Entry>, d: Path, k: Kind): (r: set<Path>)
    ensures forall p :: p in r <==> IsChildOf(p, d) && Entry(p, k) in fs
  {
    set p | p in Below(fs, d, k) && IsChildOf(p, d)
  }

  /** The shallow listings report each child of their kind exactly once. */
  lemma ListingCount(fs: seq<Entry>, d: Path)
    requires WellFormed(fs) && IsExistingDirectory(fs, d)
    ensures |ListOnlyFiles(fs, d).value| == |Children(fs, d, File)|
    ensures |ListOnlyDirs(fs, d).value| == |Children(fs, d, Dir)|
  {
    DistinctCount(ListOnlyFiles(fs, d).value);
    assert (set p | p in ListOnlyFiles(fs, d).value) == Children(fs, d, File);
    DistinctCount(ListOnlyDirs(fs, d).value);
    assert (set p | p in ListOnlyDirs(fs, d).value) == Children(fs, d, Dir);
  }

  /** The paths of `S`, all inside `s`, re-rooted under `t`. */
  ghost function ReRoot(S: set<Path>, s: Path, t: Path): set<Path>
    requires forall p :: p in S ==> s <= p
  {
    set p | p in S :: t + p[|s|..]
  }

  /** Re-rooting loses no path. */
  lemma {:induction false} ReRootCount(S: set<Path>, s: Path, t: Path)
    requires forall p :: p in S ==> s <= p
    ensures |ReRoot(S, s, t)| == |S|
    decreases |S|
  {
    if S != {} {
      var x :| x in S;
      var rest := S - {x};
      ReRootCount(rest, s, t);
      assert ReRoot(S, s, t) == ReRoot(rest, s, t) + {t + x[|s|..]};
      forall p | p in rest ensures t + p[|s|..] != t + x[|s|..] {
        assert p == s + p[|s|..] && x == s + x[|s|..];
        assert (t + p[|s|..])[|t|..] == p[|s|..] && (t + x[|s|..])[|t|..] == x[|s|..];
      }
    }
  }

  /** Adding re-rooted paths that are all new adds as many paths as were re-rooted. */
  lemma ReRootedUnionCount(before: set<Path>, src: set<Path>, s: Path, t: Path)
    requires forall x :: x in src ==> s <= x && t + x[|s|..] !in before
    ensures |before + ReRoot(src, s, t)| == |before| + |src|
  {
    ReRootCount(src, s, t);
    assert before * ReRoot(src, s, t) == {};
  }

  /** Two prefixes of one path are prefixes of each other. */
  lemma PrefixesCompare(a: Path, b: Path, p: Path)
    ensures a <= p && b <= p ==> a <= b || b <= a
  {
  }

  /** A path is the child of only one directory. */
  lemma SameParent(p: Path, a: Path, b: Path)
    ensures IsChildOf(p, a) && IsChildOf(p, b) ==> a == b
  {
  }

  /** A sequence without members is empty. */
  lemma NoMemberEmpty<T>(s: seq<T>)
    ensures (forall x :: x !in s) ==> s == []
  {
    if s != [] {
      assert s[0] in s;
    }
  }

  // Moving files: the source and the target afterwards

  /** A files move leaves `s` an existing directory without files. */
  lemma FilesLeaveSource(fs: seq<Entry>, s: Path, t: Path, after: seq<Entry>)
    requires IsExistingDirectory(fs, s) && s != t && FilesMoved(fs, s, t, after)
    ensures IsExistingDirectory(after, s) && Children(after, s, File) == {}
  {
  }

  /** A files move puts the re-rooted files of `s` next to the files of `t`. */
  lemma FilesReachTarget(fs: seq<Entry>, s: Path, t: Path, after: seq<Entry>)
    requires s != t && FilesMoved(fs, s, t, after)
    ensures Children(after, t, File) == Children(fs, t, File) + ReRoot(Children(fs, s, File), s, t)
  {
  }

  /** After `move_all_files(s, t)` with `t` different from `s`, `s` is still an
      existing directory and holds no files. */
  lemma MoveAllFilesEmptiesSource(fs: seq<Entry>, s: Path, t: Path)
    requires WellFormed(fs) && IsExistingDirectory(fs, s) && FilesCanMove(fs, s, t) && s != t
    requires IsExistingDirectory(fs, t) || (!Exists(fs, t) && NoFileOnPath(fs, t))
    ensures MoveAllFilesResult(fs, s, t).Ok?
    ensures var after := MoveAllFilesResult(fs, s, t).value;
              WellFormed(after) && IsExistingDirectory(after, s) && ListOnlyFiles(after, s) == Ok([])
  {
    MoveAllFilesEffect(fs, s, t);
    var after := MoveAllFilesResult(fs, s, t).value;
    FilesLeaveSource(fs, s, t, after);
    NoMemberEmpty(ListOnlyFiles(after, s).value);
  }

  /** After `move_all_files(s, t)` with `t` different from `s`, `t` holds its
      former files plus one per former file of `s`. */
  lemma MoveAllFilesCount(fs: seq<Entry>, s: Path, t: Path)
    requires WellFormed(fs) && IsExistingDirectory(fs, s) && FilesCanMove(fs, s, t) && s != t
    requires IsExistingDirectory(fs, t) || (!Exists(fs, t) && NoFileOnPath(fs, t))
    ensures MoveAllFilesResult(fs, s, t).Ok?
    ensures var after := MoveAllFilesResult(fs, s, t).value;
              && WellFormed(after) && IsExistingDirectory(after, t)
              && |ListOnlyFiles(after, t).value| == |Children(fs, t, File)| + |ListOnlyFiles(fs, s).value|
  {
    MoveAllFilesEffect(fs, s, t);
    var after := MoveAllFilesResult(fs, s, t).value;
    FilesReachTarget(fs, s, t, after);
    forall x | x in Children(fs, s, File) ensures t + x[|s|..] !in Children(fs, t, File) {
      assert x in IterDir(fs, s);
    }
    ReRootedUnionCount(Children(fs, t, File), Children(fs, s, File), s, t);
    ListingCount(after, t);
    ListingCount(fs, s);
  }

  /** After `move_all_files(s, t)`, each former file `s/name` is listed among
      the files of `t` as `t/name`. */
  lemma MovedFileListed(fs: seq<Entry>, s: Path, t: Path, n: Name)
    requires WellFormed(fs) && IsExistingDirectory(fs, s) && FilesCanMove(fs, s, t)
    requires IsExistingDirectory(fs, t) || (!Exists(fs, t) && NoFileOnPath(fs, t))
    requires IsFile(fs, s + [n])
    ensures MoveAllFilesResult(fs, s, t).Ok?
    ensures var after := MoveAllFilesResult(fs, s, t).value;
              WellFormed(after) && IsExistingDirectory(after, t) && t + [n] in ListOnlyFiles(after, t).value
  {
    FilesMoveWellFormed(fs, s, t);
    FileArrives(fs, s, t, Entry(s + [n], File));
    assert (s + [n])[|s|..] == [n];
    assert FileDestination(Entry(s + [n], File), s, t) == Entry(t + [n], File);
  }

  /** After `move_all_files(s, t)`, a file `d/name` outside `s` is still listed
      among the files of its directory `d`. */
  lemma UnmovedFileListed(fs: seq<Entry>, s: Path, t: Path, d: Path, n: Name)
    requires WellFormed(fs) && IsExistingDirectory(fs, s) && FilesCanMove(fs, s, t)
    requires IsExistingDirectory(fs, t) || (!Exists(fs, t) && NoFileOnPath(fs, t))
    requires IsFile(fs, d + [n]) && d != s
    ensures MoveAllFilesResult(fs, s, t).Ok?
    ensures var after := MoveAllFilesResult(fs, s, t).value;
              WellFormed(after) && IsExistingDirectory(after, d) && d + [n] in ListOnlyFiles(after, d).value
  {
    FilesMoveWellFormed(fs, s, t);
    var after := MoveAllFilesResult(fs, s, t).value;
    var f := Entry(d + [n], File);
    FileArrives(fs, s, t, f);
    assert Parent(d + [n]) == d;
    SameParent(d + [n], s, d);
    assert FileDestination(f, s, t) == f;
    var i := EntryIndex(after, f);
    EntryHasParent(after, i);
  }

  /** A files move whose target lies outside `s` takes exactly the immediate
      files of `s` out of its subtree. */
  lemma FilesLeaveSubtree(fs: seq<Entry>, s: Path, t: Path, after: seq<Entry>)
    requires !(s <= t) && FilesMoved(fs, s, t, after)
    ensures Below(after, s, File) == Below(fs, s, File) - Children(fs, s, File)
  {
  }

  /** After `move_all_files(s, t)` with `t` outside `s`, the files inside `s`
      are those that were there, less its immediate ones. */
  lemma MoveAllFilesSubtree(fs: seq<Entry>, s: Path, t: Path)
    requires WellFormed(fs) && IsExistingDirectory(fs, s) && FilesCanMove(fs, s, t) && !(s <= t)
    requires IsExistingDirectory(fs, t) || (!Exists(fs, t) && NoFileOnPath(fs, t))
    ensures MoveAllFilesResult(fs, s, t).Ok?
    ensures var after := MoveAllFilesResult(fs, s, t).value;
              WellFormed(after) && Below(after, s, File) == Below(fs, s, File) - Children(fs, s, File)
  {
    MoveAllFilesEffect(fs, s, t);
    FilesLeaveSubtree(fs, s, t, MoveAllFilesResult(fs, s, t).value);
  }

  /** After a files move, each file sits in the target or in a directory that
      existed before. */
  lemma FileParentExisted(fs: seq<Entry>, s: Path, t: Path, after: seq<Entry>, p: Path)
    requires WellFormed(fs) && FilesMoved(fs, s, t, after) && Entry(p, File) in after
    ensures p != [] && (Parent(p) == t || IsDir(fs, Parent(p)))
  {
    var e0 :| e0 in fs && Entry(p, File) == FileDestination(e0, s, t);
    var i := EntryIndex(fs, e0);
    EntryHasParent(fs, i);
    if e0.kind == File && IsChildOf(e0.path, s) {
      assert Parent(p) == t;
    }
  }

  /** A directory that did not exist and is not the target holds no file after
      a files move. */
  lemma CreatedDirectoryHoldsNoFiles(fs: seq<Entry>, s: Path, t: Path, after: seq<Entry>, d: Path)
    requires WellFormed(fs) && FilesMoved(fs, s, t, after) && !Exists(fs, d) && d != t
    ensures Children(after, d, File) == {}
  {
    forall p | Entry(p, File) in after ensures !IsChildOf(p, d) {
      FileParentExisted(fs, s, t, after, p);
      ParentOfChild(p, d);
    }
  }

  /** The directories `move_all_files(s, t)` creates on the way to a missing
      target `t` are existing directories without files afterwards. */
  lemma MoveAllFilesIntermediate(fs: seq<Entry>, s: Path, t: Path, d: Path)
    requires WellFormed(fs) && IsExistingDirectory(fs, s) && FilesCanMove(fs, s, t)
    requires !Exists(fs, t) && NoFileOnPath(fs, t)
    requires d < t && !Exists(fs, d)
    ensures MoveAllFilesResult(fs, s, t).Ok?
    ensures var after := MoveAllFilesResult(fs, s, t).value;
              WellFormed(after) && IsExistingDirectory(after, d) && ListOnlyFiles(after, d) == Ok([])
  {
    MoveAllFilesEffect(fs, s, t);
    var after := MoveAllFilesResult(fs, s, t).value;
    PrefixIsDir(after, t, d);
    CreatedDirectoryHoldsNoFiles(fs, s, t, after, d);
    NoMemberEmpty(ListOnlyFiles(after, d).value);
  }

  // Moving content: the source and the target afterwards

  /** No path inside `s` has its re-rooted counterpart under `t` already. */
  lemma ReRootedIsNew(fs: seq<Entry>, s: Path, t: Path, x: Path)
    requires WellFormed(fs) && IsExistingDirectory(fs, s) && ContentCanMove(fs, s, t) && s != t
    requires Exists(fs, x) && s < x
    ensures !Exists(fs, t + x[|s|..])
  {
    var m := x[..|s| + 1];
    ChildOnTheWay(fs, s, x);
    var dst := t + m[|s|..];
    assert !Exists(fs, dst);
    assert dst <= t + x[|s|..];
    if Exists(fs, t + x[|s|..]) {
      PrefixExists(fs, t + x[|s|..], dst);
    }
  }

  /** A path moved out of `s` does not land inside `s` again. */
  lemma MovedLeavesSource(fs: seq<Entry>, s: Path, t: Path, q: Path)
    requires WellFormed(fs) && IsExistingDirectory(fs, s) && ContentCanMove(fs, s, t) && s != t
    requires Exists(fs, q) && s < q
    ensures !(s < t + q[|s|..])
  {
    ChildOnTheWay(fs, s, q);
    var dst := t + q[..|s| + 1][|s|..];
    assert !Exists(fs, dst);
    LandsInside(s, t, q);
    if dst <= s {
      PrefixExists(fs, s, dst);
    }
  }

  /** Where a path re-rooted from `s` to `t` can land inside `s`. */
  lemma LandsInside(s: Path, t: Path, q: Path)
    requires s < q
    ensures s < t + q[|s|..] ==> s <= t || t + q[..|s| + 1][|s|..] <= s
  {
  }

  /** A content move leaves `s` an existing directory with nothing inside. */
  lemma ContentLeavesSource(fs: seq<Entry>, s: Path, t: Path, after: seq<Entry>)
    requires WellFormed(fs) && IsExistingDirectory(fs, s) && ContentCanMove(fs, s, t) && s != t
    requires ContentMoved(fs, s, t, after)
    ensures IsExistingDirectory(after, s) && Descendants(after, s) == {}
  {
    if s != [] {
      assert ContentDestination(Entry(s, Dir), s, t) == Entry(s, Dir);
    }
    forall p, k | Entry(p, k) in after ensures !(s < p) {
      if exists e0 :: e0 in fs && Entry(p, k) == ContentDestination(e0, s, t) {
        var e0 :| e0 in fs && Entry(p, k) == ContentDestination(e0, s, t);
        DestinationOutsideSource(fs, s, t, e0);
      }
    }
  }

  /** No entry of a content move lands strictly inside the source. */
  lemma DestinationOutsideSource(fs: seq<Entry>, s: Path, t: Path, e: Entry)
    requires WellFormed(fs) && IsExistingDirectory(fs, s) && ContentCanMove(fs, s, t) && s != t
    requires e in fs
    ensures !(s < ContentDestination(e, s, t).path)
  {
    if s < e.path {
      assert e.kind == Dir ==> e == Entry(e.path, Dir);
      assert e.kind == File ==> e == Entry(e.path, File);
      MovedLeavesSource(fs, s, t, e.path);
    }
  }

  /** A content move puts the re-rooted descendants of `s` inside `t`, next to
      what `t` held, for `s` and `t` not inside one another. */
  lemma ContentReachesTarget(fs: seq<Entry>, s: Path, t: Path, after: seq<Entry>)
    requires !(s <= t) && !(t <= s) && ContentMoved(fs, s, t, after)
    ensures Descendants(after, t) == Descendants(fs, t) + ReRoot(Descendants(fs, s), s, t)
  {
    forall p | p in Descendants(after, t)
      ensures p in Descendants(fs, t) + ReRoot(Descendants(fs, s), s, t)
    {
      assert Entry(p, Dir) in after || Entry(p, File) in after;
      var k :| Entry(p, k) in after;
      assert !(p <= t);
      var e0 :| e0 in fs && Entry(p, k) == ContentDestination(e0, s, t);
      assert e0 == Entry(e0.path, e0.kind) && Exists(fs, e0.path);
      if s < e0.path {
        assert e0.path in Descendants(fs, s);
      }
    }
    forall p | p in Descendants(fs, t) ensures p in Descendants(after, t) {
      assert Entry(p, Dir) in fs || Entry(p, File) in fs;
      var k :| Entry(p, k) in fs;
      PrefixesCompare(s, t, p);
      assert ContentDestination(Entry(p, k), s, t) in after;
    }
    forall p | p in ReRoot(Descendants(fs, s), s, t) ensures p in Descendants(after, t) {
      var x :| x in Descendants(fs, s) && p == t + x[|s|..];
      assert Entry(x, Dir) in fs || Entry(x, File) in fs;
      var k :| Entry(x, k) in fs;
      assert ContentDestination(Entry(x, k), s, t) in after;
    }
  }

  /** After `move_all_content(s, t)`, each former descendant `s/rest` of `s` is
      a descendant of `t` as `t/rest`. */
  lemma MovedContentListed(fs: seq<Entry>, s: Path, t: Path, x: Path)
    requires WellFormed(fs) && IsExistingDirectory(fs, s) && ContentCanMove(fs, s, t)
    requires IsExistingDirectory(fs, t) || (!Exists(fs, t) && NoFileOnPath(fs, t))
    requires x in Descendants(fs, s)
    ensures MoveAllContentResult(fs, s, t).Ok?
    ensures t + x[|s|..] in Descendants(MoveAllContentResult(fs, s, t).value, t)
  {
    MoveAllContentEffect(fs, s, t);
    var k := if Entry(x, Dir) in fs then Dir else File;
    assert ContentDestination(Entry(x, k), s, t) == Entry(t + x[|s|..], k);
    assert t < t + x[|s|..];
  }

  /** After `move_all_content(s, t)` with `s` and `t` not inside one another,
      each former descendant of `t` is still one. */
  lemma UnmovedContentListed(fs: seq<Entry>, s: Path, t: Path, x: Path)
    requires WellFormed(fs) && IsExistingDirectory(fs, s) && ContentCanMove(fs, s, t)
    requires !(s <= t) && !(t <= s)
    requires IsExistingDirectory(fs, t) || (!Exists(fs, t) && NoFileOnPath(fs, t))
    requires x in Descendants(fs, t)
    ensures MoveAllContentResult(fs, s, t).Ok?
    ensures x in Descendants(MoveAllContentResult(fs, s, t).value, t)
  {
    MoveAllContentEffect(fs, s, t);
    var k := if Entry(x, Dir) in fs then Dir else File;
    PrefixesCompare(s, t, x);
    assert ContentDestination(Entry(x, k), s, t) == Entry(x, k);
  }

  /** After `move_all_content(s, t)` with `t` different from `s`, `s` is still
      an existing directory and nothing is left inside it. */
  lemma MoveAllContentEmptiesSource(fs: seq<Entry>, s: Path, t: Path)
    requires WellFormed(fs) && IsExistingDirectory(fs, s) && ContentCanMove(fs, s, t) && s != t
    requires IsExistingDirectory(fs, t) || (!Exists(fs, t) && NoFileOnPath(fs, t))
    ensures MoveAllContentResult(fs, s, t).Ok?
    ensures var after := MoveAllContentResult(fs, s, t).value;
              WellFormed(after) && IsExistingDirectory(after, s) && Descendants(after, s) == {}
  {
    MoveAllContentEffect(fs, s, t);
    ContentLeavesSource(fs, s, t, MoveAllContentResult(fs, s, t).value);
  }

  /** For source and target that are not inside one another, `move_all_content`
      adds every former descendant of the source to the target's descendants. */
  lemma MoveAllContentCount(fs: seq<Entry>, s: Path, t: Path)
    requires WellFormed(fs) && IsExistingDirectory(fs, s) && ContentCanMove(fs, s, t)
    requires !(s <= t) && !(t <= s)
    requires IsExistingDirectory(fs, t) || (!Exists(fs, t) && NoFileOnPath(fs, t))
    ensures MoveAllContentResult(fs, s, t).Ok?
    ensures var after := MoveAllContentResult(fs, s, t).value;
              |Descendants(after, t)| == |Descendants(fs, t)| + |Descendants(fs, s)|
  {
    MoveAllContentEffect(fs, s, t);
    ContentReachesTarget(fs, s, t, MoveAllContentResult(fs, s, t).value);
    forall x | x in Descendants(fs, s) ensures t + x[|s|..] !in Descendants(fs, t) {
      ReRootedIsNew(fs, s, t, x);
    }
    ReRootedUnionCount(Descendants(fs, t), Descendants(fs, s), s, t);
  }

  // ---------------------------------------------------------------------------
  // Bulk moves on the mutable filesystem

  /** The host filesystem as state that the bulk moves change in place. */
  class Disk {
    var entries: seq<Entry>

    ghost predicate Valid()
      reads this
    {
      WellFormed(entries)
    }

    constructor (initial: seq<Entry>)
      requires WellFormed(initial)
      ensures Valid() && entries == initial
    {
      entries := initial;
    }

    /** The loop both bulk moves share: each snapshot item, taken relative to
        `source`, is moved by `shutil.move` to the same relative path under `target`. */
    method MoveEach(source: Path, target: Path, items: seq<Path>)
      requires forall c :: c in items ==>
                 IsChildOf(c, source) && (source == target || (!(c <= target) && !(target + c[|source|..] <= source)))
      modifies this
      ensures entries == MoveChildren(old(entries), source, target, items)
    {
      ghost var initial := entries;
      assert forall i :: 0 <= i < |items| ==> items[i] in items;
      var relative := seq(|items|, i requires 0 <= i < |items| => items[i][|source|..]);
      for i := 0 to |relative|
        invariant entries == MoveChildren(initial, source, target, items[..i])
      {
        assert source + relative[i] == items[i];
        assert items[..i + 1] == items[..i] + [items[i]];
        assert forall m :: m in items[..i] ==> m in items;
        MoveStep(initial, source, target, items[..i], items[i]);
        entries := Move(entries, source + relative[i], target + relative[i]);
      }
      assert items[..|items|] == items;
    }

    /** `move_all_files`: the guard, the target created when missing, then the
        files snapshot taken after that moved one by one. */
    method MoveAllFiles(source: Path, target: Path) returns (r: Outcome)
      requires Valid() && FilesCanMove(entries, source, target)
      modifies this
      ensures Valid()
      ensures match MoveAllFilesResult(old(entries), source, target)
                case Ok(after) => r == Pass && entries == after
                case Err(e) => r == Fail(e) && entries == old(entries)
    {
      var guard := EnsureIsExistingDirectory(entries, source);
      if guard.Fail? {
        return guard;
      }
      if !IsExistingDirectory(entries, target) {
        var made := MakeDirs(entries, target);
        if made.None? {
          return Fail(IoError(target));
        }
        entries := made.value;
      }
      assert PrepareTarget(old(entries), target) == Some(entries);
      var files := ListOnlyFiles(entries, source).value;
      if source != target {
        FilesSnapshotSafe(old(entries), source, target);
        SafeSnapshotSteps(entries, source, target, files);
      }
      MoveEach(source, target, files);
      FilesMoveWellFormed(old(entries), source, target);
      return Pass;
    }

    /** `move_all_content`: the guard, the target created when missing, then the
        content snapshot taken after that moved one by one; a directory moves
        with its subtree. */
    method MoveAllContent(source: Path, target: Path) returns (r: Outcome)
      requires Valid() && ContentCanMove(entries, source, target)
      modifies this
      ensures Valid()
      ensures match MoveAllContentResult(old(entries), source, target)
                case Ok(after) => r == Pass && entries == after
                case Err(e) => r == Fail(e) && entries == old(entries)
    {
      var guard := EnsureIsExistingDirectory(entries, source);
      if guard.Fail? {
        return guard;
      }
      if !IsExistingDirectory(entries, target) {
        var made := MakeDirs(entries, target);
        if made.None? {
          return Fail(IoError(target));
        }
        entries := made.value;
      }
      assert PrepareTarget(old(entries), target) == Some(entries);
      var content := ListContent(entries, source).value;
      if source != target {
        ContentSnapshotSafe(old(entries), source, target);
        SafeSnapshotSteps(entries, source, target, content);
      }
      MoveEach(source, target, content);
      ContentMoveWellFormed(old(entries), source, target);
      return Pass;
    }
  }
}
