/** The directory tree the unit tests build, and what the tests expect of the
    helpers on it, derived from the helpers' general contracts. The tests never
    depend on the order in which `iterdir` reports entries, so neither do these
    statements: they hold for every listing order of the tree. */
module SampleTree {
  import opened HostFs
  import opened Relocation
  import opened DirectoryHelpers

  const Root: Path := ["polygon"]
  const A: Path := Root + ["a"]
  const B: Path := Root + ["b"]
  const C: Path := A + ["c"]
  const D: Path := B + ["d"]
  const F1: Path := Root + ["1"]
  const F2: Path := Root + ["2"]
  const F3: Path := A + ["3"]
  const F4: Path := A + ["4"]
  const F5: Path := C + ["5"]
  const F6: Path := B + ["6"]
  /** The missing target of `test_move_all_files_3`. */
  const Asdf: Path := Root + ["asdf"]
  const Target: Path := Asdf + ["ghi"]
  const NotExisting: Path := ["thisDirectoryIsMostLikelyNotExistingHere"]

  /** `fs` is the tree `setUp` creates, listed in any order:
      polygon/{1, 2, a/{3, 4, c/{5}}, b/{6, d/}}. */
  ghost predicate IsPolygon(fs: seq<Entry>)
  {
    && WellFormed(fs)
    && (forall p :: Entry(p, Dir) in fs <==> p == Root || p == A || p == B || p == C || p == D)
    && (forall p :: Entry(p, File) in fs <==> p == F1 || p == F2 || p == F3 || p == F4 || p == F5 || p == F6)
  }

  /** The tree listed breadth-first, each level in name order. */
  function Polygon(): seq<Entry>
  {
    [Entry(Root, Dir),
     Entry(F1, File), Entry(F2, File), Entry(A, Dir), Entry(B, Dir),
     Entry(F3, File), Entry(F4, File), Entry(C, Dir), Entry(F6, File), Entry(D, Dir),
     Entry(F5, File)]
  }

  /** A number for a name, from its length and first character. */
  function NameCode(n: Name): int
  {
    if n == [] then 0 else |n| * 0x11_0000 + n[0] as int
  }

  /** A number for a path, component by component; it tells apart the paths
      used here. */
  function Code(p: Path): int
    decreases |p|
  {
    if p == [] then 0 else Code(Parent(p)) * 0x1_0000_0000 + NameCode(p[|p| - 1])
  }

  lemma CodeOfExtension(q: Path, n: Name)
    ensures Code(q + [n]) == Code(q) * 0x1_0000_0000 + NameCode(n)
  {
  }

  /** The codes of the paths used here; all of them differ. */
  lemma Codes()
    ensures Code(Root) == 7 * 0x11_0000 + 'p' as int
    ensures Code(NotExisting) == 40 * 0x11_0000 + 't' as int
    ensures Code(A) == Code(Root) * 0x1_0000_0000 + 0x11_0000 + 'a' as int
    ensures Code(B) == Code(Root) * 0x1_0000_0000 + 0x11_0000 + 'b' as int
    ensures Code(F1) == Code(Root) * 0x1_0000_0000 + 0x11_0000 + '1' as int
    ensures Code(F2) == Code(Root) * 0x1_0000_0000 + 0x11_0000 + '2' as int
    ensures Code(C) == Code(A) * 0x1_0000_0000 + 0x11_0000 + 'c' as int
    ensures Code(F3) == Code(A) * 0x1_0000_0000 + 0x11_0000 + '3' as int
    ensures Code(F4) == Code(A) * 0x1_0000_0000 + 0x11_0000 + '4' as int
    ensures Code(D) == Code(B) * 0x1_0000_0000 + 0x11_0000 + 'd' as int
    ensures Code(F6) == Code(B) * 0x1_0000_0000 + 0x11_0000 + '6' as int
    ensures Code(F5) == Code(C) * 0x1_0000_0000 + 0x11_0000 + '5' as int
  {
    assert Parent(Root) == [] && Parent(NotExisting) == [];
    CodeOfExtension(Root, "a");
    CodeOfExtension(Root, "b");
    CodeOfExtension(Root, "1");
    CodeOfExtension(Root, "2");
    CodeOfExtension(A, "c");
    CodeOfExtension(A, "3");
    CodeOfExtension(A, "4");
    CodeOfExtension(B, "d");
    CodeOfExtension(B, "6");
    CodeOfExtension(C, "5");
  }

  /** A path extended by one name is a child of its prefix alone. */
  lemma Extension()
    ensures forall q: Path, n: Name, d: Path :: IsChildOf(q + [n], d) <==> q == d
  {
  }

  lemma PolygonEntries()
    ensures forall p :: Entry(p, Dir) in Polygon() <==> p == Root || p == A || p == B || p == C || p == D
    ensures forall p :: Entry(p, File) in Polygon() <==> p == F1 || p == F2 || p == F3 || p == F4 || p == F5 || p == F6
  {
  }

  /** Entries whose codes ascend have distinct paths. */
  lemma AscendingCodesDistinct(fs: seq<Entry>)
    requires forall i :: 0 <= i < |fs| - 1 ==> Code(fs[i].path) < Code(fs[i + 1].path)
    ensures DistinctPaths(fs)
  {
    forall i, j | 0 <= i < j < |fs| ensures Code(fs[i].path) < Code(fs[j].path) {
      var k := i;
      while k < j
        invariant i <= k <= j && (k == i || Code(fs[i].path) < Code(fs[k].path))
      {
        k := k + 1;
      }
    }
    EntriesDistinct(fs);
  }

  lemma PolygonDistinct()
    ensures DistinctPaths(Polygon())
  {
    var P := Polygon();
    Codes();
    assert forall i :: 0 <= i < |P| - 1 ==> Code(P[i].path) < Code(P[i + 1].path);
    AscendingCodesDistinct(P);
  }

  lemma PolygonParents()
    ensures forall i :: 0 <= i < |Polygon()| ==> Polygon()[i].path != [] && IsDir(Polygon(), Parent(Polygon()[i].path))
  {
  }

  /** `setUp` builds a well-formed tree. */
  lemma PolygonIsPolygon()
    ensures IsPolygon(Polygon())
  {
    PolygonDistinct();
    PolygonParents();
    PolygonEntries();
  }

  // ---------------------------------------------------------------------------
  // Guard and shallow listings

  /** Which of the paths used here are existing directories. */
  lemma DirectoriesOfPolygon(fs: seq<Entry>)
    requires IsPolygon(fs)
    ensures IsExistingDirectory(fs, Root) && IsExistingDirectory(fs, A) && IsExistingDirectory(fs, B)
    ensures IsExistingDirectory(fs, C) && IsExistingDirectory(fs, D)
    ensures !IsExistingDirectory(fs, NotExisting)
    ensures !IsExistingDirectory(fs, F1) && !IsExistingDirectory(fs, F6)
  {
    Codes();
  }

  /** `test_is_existing_dir` and `test_ensure_is_existing_dir`. */
  lemma GuardOnPolygon(fs: seq<Entry>)
    requires IsPolygon(fs)
    ensures IsExistingDirectory(fs, Root) && EnsureIsExistingDirectory(fs, Root) == Pass
    ensures !IsExistingDirectory(fs, F1) && EnsureIsExistingDirectory(fs, F1) == Fail(NotADirectory(F1))
    ensures !IsExistingDirectory(fs, NotExisting)
    ensures EnsureIsExistingDirectory(fs, NotExisting) == Fail(NotADirectory(NotExisting))
  {
    DirectoriesOfPolygon(fs);
  }

  /** The immediate children of the tree's directories. */
  lemma ChildrenOfRoot(fs: seq<Entry>)
    requires IsPolygon(fs)
    ensures Children(fs, Root, Dir) == {A, B} && Children(fs, Root, File) == {F1, F2}
  {
    Extension();
    Codes();
  }

  lemma ChildrenOfA(fs: seq<Entry>)
    requires IsPolygon(fs)
    ensures Children(fs, A, Dir) == {C} && Children(fs, A, File) == {F3, F4}
  {
    Extension();
    Codes();
  }

  lemma ChildrenOfB(fs: seq<Entry>)
    requires IsPolygon(fs)
    ensures Children(fs, B, Dir) == {D} && Children(fs, B, File) == {F6}
  {
    Extension();
    Codes();
  }

  lemma ChildrenOfLeaves(fs: seq<Entry>)
    requires IsPolygon(fs)
    ensures Children(fs, C, Dir) == {} && Children(fs, C, File) == {F5}
    ensures Children(fs, D, Dir) == {} && Children(fs, D, File) == {}
  {
    Extension();
    Codes();
  }

  /** `test_list_only_dirs`. */
  lemma DirsOfRoot(fs: seq<Entry>)
    requires IsPolygon(fs)
    ensures IsExistingDirectory(fs, Root)
    ensures var r := ListOnlyDirs(fs, Root).value; |r| == 2 && A in r && B in r
  {
    ChildrenOfRoot(fs);
    ListingCount(fs, Root);
  }

  lemma DirsOfA(fs: seq<Entry>)
    requires IsPolygon(fs)
    ensures IsExistingDirectory(fs, A)
    ensures var r := ListOnlyDirs(fs, A).value; |r| == 1 && C in r
  {
    ChildrenOfA(fs);
    ListingCount(fs, A);
  }

  lemma DirsOfC(fs: seq<Entry>)
    requires IsPolygon(fs)
    ensures IsExistingDirectory(fs, C) && ListOnlyDirs(fs, C) == Ok([])
    ensures ListOnlyDirs(fs, F1) == Err(NotADirectory(F1))
  {
    DirectoriesOfPolygon(fs);
    ChildrenOfLeaves(fs);
    ListingCount(fs, C);
  }

  /** `test_list_only_files`. */
  lemma FilesOfRoot(fs: seq<Entry>)
    requires IsPolygon(fs)
    ensures IsExistingDirectory(fs, Root)
    ensures var r := ListOnlyFiles(fs, Root).value; |r| == 2 && F1 in r && F2 in r
  {
    ChildrenOfRoot(fs);
    ListingCount(fs, Root);
  }

  lemma FilesOfA(fs: seq<Entry>)
    requires IsPolygon(fs)
    ensures IsExistingDirectory(fs, A)
    ensures var r := ListOnlyFiles(fs, A).value; |r| == 2 && F3 in r && F4 in r
  {
    ChildrenOfA(fs);
    ListingCount(fs, A);
  }

  lemma FilesOfB(fs: seq<Entry>)
    requires IsPolygon(fs)
    ensures IsExistingDirectory(fs, B)
    ensures var r := ListOnlyFiles(fs, B).value; |r| == 1 && F6 in r
  {
    ChildrenOfB(fs);
    ListingCount(fs, B);
  }

  lemma FilesOfLeaves(fs: seq<Entry>)
    requires IsPolygon(fs)
    ensures IsExistingDirectory(fs, C) && IsExistingDirectory(fs, D)
    ensures var r := ListOnlyFiles(fs, C).value; |r| == 1 && F5 in r
    ensures ListOnlyFiles(fs, D) == Ok([])
  {
    ChildrenOfLeaves(fs);
    ListingCount(fs, C);
    ListingCount(fs, D);
  }

  lemma FilesOfNonDirectories(fs: seq<Entry>)
    requires IsPolygon(fs)
    ensures ListOnlyFiles(fs, NotExisting) == Err(NotADirectory(NotExisting))
    ensures ListOnlyFiles(fs, F1) == Err(NotADirectory(F1))
  {
    DirectoriesOfPolygon(fs);
  }

  /** `test_list_content`. */
  lemma ContentOfRoot(fs: seq<Entry>)
    requires IsPolygon(fs)
    ensures IsExistingDirectory(fs, Root)
    ensures var r := ListContent(fs, Root).value; |r| == 4 && F1 in r && F2 in r && A in r && B in r
  {
    DirsOfRoot(fs);
    FilesOfRoot(fs);
    ShallowListingsPartition(fs, Root);
  }

  lemma ContentOfA(fs: seq<Entry>)
    requires IsPolygon(fs)
    ensures IsExistingDirectory(fs, A)
    ensures var r := ListContent(fs, A).value; |r| == 3 && F3 in r && F4 in r && C in r
  {
    DirsOfA(fs);
    FilesOfA(fs);
    ShallowListingsPartition(fs, A);
  }

  lemma ContentOfLeaves(fs: seq<Entry>)
    requires IsPolygon(fs)
    ensures IsExistingDirectory(fs, C) && IsExistingDirectory(fs, D)
    ensures var r := ListContent(fs, C).value; |r| == 1 && F5 in r
    ensures ListContent(fs, D) == Ok([])
  {
    DirsOfC(fs);
    FilesOfLeaves(fs);
    ChildrenOfLeaves(fs);
    ListingCount(fs, D);
    ShallowListingsPartition(fs, C);
    ShallowListingsPartition(fs, D);
  }

  lemma ContentOfNonDirectories(fs: seq<Entry>)
    requires IsPolygon(fs)
    ensures ListContent(fs, NotExisting) == Err(NotADirectory(NotExisting))
    ensures ListContent(fs, F6) == Err(NotADirectory(F6))
  {
    DirectoriesOfPolygon(fs);
  }

  // ---------------------------------------------------------------------------
  // Recursive listings

  /** Which of the tree's paths lie inside which directory. */
  lemma Nesting()
    ensures Root < A && Root < B && Root < C && Root < D
    ensures Root < F1 && Root < F2 && Root < F3 && Root < F4 && Root < F5 && Root < F6
    ensures A < C && A < F3 && A < F4 && A < F5 && C < F5 && B < D && B < F6
  {
  }

  /** The directories and files inside the tree's root. */
  lemma BelowRoot(fs: seq<Entry>)
    requires IsPolygon(fs)
    ensures Below(fs, Root, Dir) == {A, B, C, D}
    ensures Below(fs, Root, File) == {F1, F2, F3, F4, F5, F6}
  {
    Nesting();
  }

  /** The tree's directories below its root, and its files, are that many paths. */
  lemma Sizes()
    ensures |{A, B, C, D}| == 4 && |{F1, F2, F3, F4, F5, F6}| == 6
    ensures |{C, F3, F4, F5}| == 4 && |{D, F6}| == 2
  {
    Codes();
  }

  /** The paths of the tree that are not inside `a`, `b`, `c` or `d`. */
  lemma Outside()
    ensures !(A < B) && !(A < D) && !(A < F1) && !(A < F2) && !(A < F6)
    ensures !(B < A) && !(B < C) && !(B < F1) && !(B < F2) && !(B < F3) && !(B < F4) && !(B < F5)
    ensures !(C < F3) && !(C < F4) && !(C < D) && !(C < F6)
    ensures !(D < F6) && !(D < C) && !(D < F5)
  {
    Codes();
    Inside(B, "d", A);
    Inside(B, "6", A);
    Inside(A, "c", B);
    Inside(A, "3", B);
    Inside(A, "4", B);
    Inside(C, "5", B);
    Inside(B, "d", C);
    Inside(B, "6", C);
    Inside(B, "6", D);
    Inside(A, "c", D);
    Inside(C, "5", D);
  }

  lemma BelowA(fs: seq<Entry>)
    requires IsPolygon(fs)
    ensures Below(fs, A, Dir) == {C} && Below(fs, A, File) == {F3, F4, F5}
    ensures Descendants(fs, A) == {C, F3, F4, F5}
  {
    Nesting();
    Outside();
  }

  lemma BelowB(fs: seq<Entry>)
    requires IsPolygon(fs)
    ensures Descendants(fs, B) == {D, F6}
  {
    Nesting();
    Outside();
  }

  lemma BelowC(fs: seq<Entry>)
    requires IsPolygon(fs)
    ensures Below(fs, C, Dir) == {} && Below(fs, C, File) == {F5}
  {
  }

  lemma BelowD(fs: seq<Entry>)
    requires IsPolygon(fs)
    ensures Below(fs, D, Dir) == {} && Below(fs, D, File) == {}
  {
    Outside();
  }

  /** `test_list_dirs_recursively`. */
  method DirsRecursivelyOnPolygon(fs: seq<Entry>)
    returns (root: seq<Path>, a: seq<Path>, d: seq<Path>, file: Result<seq<Path>>)
    requires IsPolygon(fs)
    ensures |root| == 4 && A in root && B in root && C in root && D in root
    ensures |a| == 1 && C in a
    ensures d == []
    ensures file == Err(NotADirectory(F1))
  {
    DirectoriesOfPolygon(fs);
    var r := ListDirsRecursively(fs, Root);
    BelowRoot(fs);
    Sizes();
    root := r.value;
    r := ListDirsRecursively(fs, A);
    BelowA(fs);
    a := r.value;
    r := ListDirsRecursively(fs, D);
    BelowD(fs);
    d := r.value;
    file := ListDirsRecursively(fs, F1);
  }

  /** `test_list_files_recursively`. */
  method FilesRecursivelyOnPolygon(fs: seq<Entry>)
    returns (root: seq<Path>, c: seq<Path>, d: seq<Path>, missing: Result<seq<Path>>, file: Result<seq<Path>>)
    requires IsPolygon(fs)
    ensures |root| == 6 && F1 in root && F2 in root && F3 in root && F4 in root && F5 in root && F6 in root
    ensures |c| == 1 && F5 in c
    ensures d == []
    ensures missing == Err(NotADirectory(NotExisting)) && file == Err(NotADirectory(F6))
  {
    DirectoriesOfPolygon(fs);
    var r := ListFilesRecursively(fs, Root);
    BelowRoot(fs);
    Sizes();
    root := r.value;
    r := ListFilesRecursively(fs, C);
    BelowC(fs);
    c := r.value;
    r := ListFilesRecursively(fs, D);
    BelowD(fs);
    d := r.value;
    missing := ListFilesRecursively(fs, NotExisting);
    file := ListFilesRecursively(fs, F6);
  }

  /** `test_list_all_dir_content_recursively`, on the tree's root. */
  method ContentRecursivelyOfRoot(fs: seq<Entry>) returns (root: seq<Path>)
    requires IsPolygon(fs)
    ensures |root| == 10
    ensures F1 in root && F2 in root && F3 in root && F4 in root && F5 in root && F6 in root
    ensures A in root && B in root && C in root && D in root
  {
    DirectoriesOfPolygon(fs);
    var r := ListAllDirContentRecursively(fs, Root);
    root := r.value;
    BelowRoot(fs);
    Sizes();
    Nesting();
  }

  /** `test_list_all_dir_content_recursively`, below the tree's root. */
  method ContentRecursivelyBelowRoot(fs: seq<Entry>)
    returns (b: seq<Path>, c: seq<Path>, d: seq<Path>, missing: Result<seq<Path>>, file: Result<seq<Path>>)
    requires IsPolygon(fs)
    ensures |b| == 2 && D in b && F6 in b
    ensures |c| == 1 && F5 in c
    ensures d == []
    ensures missing == Err(NotADirectory(NotExisting)) && file == Err(NotADirectory(F6))
  {
    DirectoriesOfPolygon(fs);
    var r := ListAllDirContentRecursively(fs, B);
    b := r.value;
    assert |b| == 2 && D in b && F6 in b by {
      BelowB(fs);
      Sizes();
    }
    r := ListAllDirContentRecursively(fs, C);
    c := r.value;
    assert |c| == 1 && F5 in c by {
      BelowC(fs);
    }
    r := ListAllDirContentRecursively(fs, D);
    d := r.value;
    assert d == [] by {
      BelowD(fs);
    }
    missing := ListAllDirContentRecursively(fs, NotExisting);
    file := ListAllDirContentRecursively(fs, F6);
  }

  // ---------------------------------------------------------------------------
  // Bulk moves

  /** The codes of the tree's paths. */
  function PolygonCodes(): set<int>
  {
    {Code(Root), Code(A), Code(B), Code(C), Code(D), Code(F1), Code(F2), Code(F3), Code(F4), Code(F5), Code(F6)}
  }

  /** An existing path other than the working directory has one of the tree's
      codes. */
  lemma CodeOfExisting(fs: seq<Entry>, p: Path)
    requires IsPolygon(fs) && p != []
    ensures Exists(fs, p) ==> Code(p) in PolygonCodes()
  {
    if Entry(p, Dir) in fs || Entry(p, File) in fs {
      assert p == Root || p == A || p == B || p == C || p == D
          || p == F1 || p == F2 || p == F3 || p == F4 || p == F5 || p == F6;
    }
  }

  /** No `d/1` or `d/2`. */
  lemma AbsentInD(fs: seq<Entry>)
    requires IsPolygon(fs)
    ensures !Exists(fs, D + ["1"]) && !Exists(fs, D + ["2"])
  {
    Codes();
    CodeOfExtension(D, "1");
    CodeOfExtension(D, "2");
    CodeOfExisting(fs, D + ["1"]);
    CodeOfExisting(fs, D + ["2"]);
  }

  /** No `polygon/3` or `polygon/4`. */
  lemma AbsentInRoot(fs: seq<Entry>)
    requires IsPolygon(fs)
    ensures !Exists(fs, Root + ["3"]) && !Exists(fs, Root + ["4"])
  {
    Codes();
    CodeOfExtension(Root, "3");
    CodeOfExtension(Root, "4");
    CodeOfExisting(fs, Root + ["3"]);
    CodeOfExisting(fs, Root + ["4"]);
  }

  /** No `b/c`, `b/3` or `b/4`. */
  lemma AbsentInB(fs: seq<Entry>)
    requires IsPolygon(fs)
    ensures !Exists(fs, B + ["c"]) && !Exists(fs, B + ["3"]) && !Exists(fs, B + ["4"])
  {
    Codes();
    CodeOfExtension(B, "c");
    CodeOfExtension(B, "3");
    CodeOfExtension(B, "4");
    CodeOfExisting(fs, B + ["c"]);
    CodeOfExisting(fs, B + ["3"]);
    CodeOfExisting(fs, B + ["4"]);
  }

  /** No `polygon/asdf`, nor `polygon/asdf/ghi`, ... */
  lemma AbsentAsdf(fs: seq<Entry>)
    requires IsPolygon(fs)
    ensures !Exists(fs, Asdf) && !Exists(fs, Target)
  {
    Codes();
    CodeOfExtension(Root, "asdf");
    CodeOfExtension(Asdf, "ghi");
    CodeOfExisting(fs, Asdf);
    CodeOfExisting(fs, Target);
  }

  /** ... nor anything inside the latter. */
  lemma AbsentInTarget(fs: seq<Entry>)
    requires IsPolygon(fs)
    ensures !Exists(fs, Target + ["1"]) && !Exists(fs, Target + ["2"])
  {
    Codes();
    CodeOfExtension(Root, "asdf");
    CodeOfExtension(Asdf, "ghi");
    CodeOfExtension(Target, "1");
    CodeOfExtension(Target, "2");
    CodeOfExisting(fs, Target + ["1"]);
    CodeOfExisting(fs, Target + ["2"]);
  }

  lemma FilesCanMoveRootToD(fs: seq<Entry>)
    requires IsPolygon(fs)
    ensures FilesCanMove(fs, Root, D)
  {
    AbsentInD(fs);
    ChildrenOfRoot(fs);
    assert F1[|Root|..] == ["1"] && F2[|Root|..] == ["2"];
    forall f | f in IterDir(fs, Root) && IsFile(fs, f) ensures !Exists(fs, D + f[|Root|..]) {
      assert f in Children(fs, Root, File);
    }
  }

  /** The files of `a` can be renamed into the root: no `polygon/3` or
      `polygon/4` exists. */
  lemma FilesCanMoveAToRoot(fs: seq<Entry>)
    requires IsPolygon(fs)
    ensures FilesCanMove(fs, A, Root)
  {
    AbsentInRoot(fs);
    ChildrenOfA(fs);
    assert F3[|A|..] == ["3"] && F4[|A|..] == ["4"];
    forall f | f in IterDir(fs, A) && IsFile(fs, f) ensures !Exists(fs, Root + f[|A|..]) {
      assert f in Children(fs, A, File);
    }
  }

  /** The missing `polygon/asdf/ghi` can be created: no file lies on its way. */
  lemma TargetCanBeMade(fs: seq<Entry>)
    requires IsPolygon(fs)
    ensures !Exists(fs, Target) && NoFileOnPath(fs, Target)
  {
    AbsentAsdf(fs);
    DirectoriesOfPolygon(fs);
    KindIsUnique(fs, Root);
    assert Target[..1] == Root && Target[..2] == Asdf && Target[..3] == Target;
  }

  /** The root's files can be renamed into `polygon/asdf/ghi`. */
  lemma FilesCanMoveRootToTarget(fs: seq<Entry>)
    requires IsPolygon(fs)
    ensures FilesCanMove(fs, Root, Target)
  {
    AbsentInTarget(fs);
    ChildrenOfRoot(fs);
    assert F1[|Root|..] == ["1"] && F2[|Root|..] == ["2"];
    forall f | f in IterDir(fs, Root) && IsFile(fs, f) ensures !Exists(fs, Target + f[|Root|..]) {
      assert f in Children(fs, Root, File);
    }
  }

  /** `d` holds no file, so its files can go anywhere. */
  lemma FilesCanMoveDToRoot(fs: seq<Entry>)
    requires IsPolygon(fs)
    ensures FilesCanMove(fs, D, Root)
  {
    forall f | f in IterDir(fs, D) && IsFile(fs, f) ensures f in Children(fs, D, File) {
    }
    ChildrenOfLeaves(fs);
  }

  /** The content of `a` can be renamed into `b`: `b` is not inside `a`, and no
      `b/c`, `b/3` or `b/4` exists. */
  lemma ContentCanMoveAToB(fs: seq<Entry>)
    requires IsPolygon(fs)
    ensures ContentCanMove(fs, A, B)
  {
    AbsentInB(fs);
    ChildrenOfA(fs);
    Outside();
    assert C[|A|..] == ["c"] && F3[|A|..] == ["3"] && F4[|A|..] == ["4"];
    forall c | c in IterDir(fs, A) ensures !Exists(fs, B + c[|A|..]) {
      assert c in Children(fs, A, Dir) || c in Children(fs, A, File);
    }
  }

  /** `move_all_files(polygon, polygon/b/d)` leaves no file in the root ... */
  lemma MoveFilesRootToDSource(fs: seq<Entry>)
    requires IsPolygon(fs)
    ensures MoveAllFilesResult(fs, Root, D).Ok?
    ensures var after := MoveAllFilesResult(fs, Root, D).value;
              WellFormed(after) && ListOnlyFiles(after, Root) == Ok([])
  {
    DirectoriesOfPolygon(fs);
    FilesCanMoveRootToD(fs);
    MoveAllFilesEmptiesSource(fs, Root, D);
  }

  /** ... and puts both of its files into `d`. */
  lemma MoveFilesRootToDTarget(fs: seq<Entry>)
    requires IsPolygon(fs)
    ensures MoveAllFilesResult(fs, Root, D).Ok?
    ensures var after := MoveAllFilesResult(fs, Root, D).value;
              && WellFormed(after) && IsExistingDirectory(after, D)
              && var r := ListOnlyFiles(after, D).value; |r| == 2 && D + ["1"] in r && D + ["2"] in r
  {
    DirectoriesOfPolygon(fs);
    FilesCanMoveRootToD(fs);
    assert |ListOnlyFiles(MoveAllFilesResult(fs, Root, D).value, D).value| == 2 by {
      MoveAllFilesCount(fs, Root, D);
      FilesOfRoot(fs);
      ChildrenOfLeaves(fs);
    }
    MovedFileListed(fs, Root, D, "1");
    MovedFileListed(fs, Root, D, "2");
  }

  /** `move_all_files(polygon/a, polygon)` leaves only `a/c/5` inside `a` ... */
  lemma MoveFilesAToRootSource(fs: seq<Entry>)
    requires IsPolygon(fs)
    ensures MoveAllFilesResult(fs, A, Root).Ok?
    ensures var after := MoveAllFilesResult(fs, A, Root).value;
              WellFormed(after) && IsExistingDirectory(after, A) && Below(after, A, File) == {F5}
  {
    DirectoriesOfPolygon(fs);
    FilesCanMoveAToRoot(fs);
    MoveAllFilesSubtree(fs, A, Root);
    MoveAllFilesEmptiesSource(fs, A, Root);
    BelowA(fs);
    ChildrenOfA(fs);
    Codes();
  }

  /** ... and puts its two files next to the root's two: four in all ... */
  lemma MoveFilesAToRootCount(fs: seq<Entry>)
    requires IsPolygon(fs)
    ensures MoveAllFilesResult(fs, A, Root).Ok?
    ensures var after := MoveAllFilesResult(fs, A, Root).value;
              WellFormed(after) && IsExistingDirectory(after, Root) && |ListOnlyFiles(after, Root).value| == 4
  {
    DirectoriesOfPolygon(fs);
    FilesCanMoveAToRoot(fs);
    MoveAllFilesCount(fs, A, Root);
    FilesOfRoot(fs);
    ListingCount(fs, Root);
    FilesOfA(fs);
  }

  /** ... namely `polygon/1`, `polygon/2`, `polygon/3` and `polygon/4`. */
  lemma MoveFilesAToRootTarget(fs: seq<Entry>)
    requires IsPolygon(fs)
    ensures MoveAllFilesResult(fs, A, Root).Ok?
    ensures var after := MoveAllFilesResult(fs, A, Root).value;
              && WellFormed(after) && IsExistingDirectory(after, Root)
              && var r := ListOnlyFiles(after, Root).value; F1 in r && F2 in r && Root + ["3"] in r && Root + ["4"] in r
  {
    DirectoriesOfPolygon(fs);
    FilesCanMoveAToRoot(fs);
    assert Root != A;
    UnmovedFileListed(fs, A, Root, Root, "1");
    UnmovedFileListed(fs, A, Root, Root, "2");
    MovedFileListed(fs, A, Root, "3");
    MovedFileListed(fs, A, Root, "4");
  }

  /** A missing directory holds no file. */
  lemma MissingHoldsNothing(fs: seq<Entry>, d: Path)
    requires WellFormed(fs) && !Exists(fs, d)
    ensures Children(fs, d, File) == {}
  {
    forall p | Entry(p, File) in fs ensures !IsChildOf(p, d) {
      var i := EntryIndex(fs, Entry(p, File));
      EntryHasParent(fs, i);
      ParentOfChild(p, d);
    }
  }

  /** `move_all_files(polygon, polygon/asdf/ghi)` leaves no file in the root,
      nor in the `polygon/asdf` it creates on the way ... */
  lemma MoveFilesRootToTargetSource(fs: seq<Entry>)
    requires IsPolygon(fs)
    ensures MoveAllFilesResult(fs, Root, Target).Ok?
    ensures var after := MoveAllFilesResult(fs, Root, Target).value;
              && WellFormed(after) && ListOnlyFiles(after, Root) == Ok([])
              && IsExistingDirectory(after, Asdf) && ListOnlyFiles(after, Asdf) == Ok([])
  {
    DirectoriesOfPolygon(fs);
    TargetCanBeMade(fs);
    FilesCanMoveRootToTarget(fs);
    AbsentAsdf(fs);
    assert Root != Target && Asdf < Target;
    MoveAllFilesEmptiesSource(fs, Root, Target);
    MoveAllFilesIntermediate(fs, Root, Target, Asdf);
  }

  /** ... and puts both root files into the new `polygon/asdf/ghi`. */
  lemma MoveFilesRootToTargetTarget(fs: seq<Entry>)
    requires IsPolygon(fs)
    ensures MoveAllFilesResult(fs, Root, Target).Ok?
    ensures var after := MoveAllFilesResult(fs, Root, Target).value;
              && WellFormed(after) && IsExistingDirectory(after, Target)
              && var r := ListOnlyFiles(after, Target).value; |r| == 2 && Target + ["1"] in r && Target + ["2"] in r
  {
    DirectoriesOfPolygon(fs);
    TargetCanBeMade(fs);
    FilesCanMoveRootToTarget(fs);
    assert Root != Target;
    assert |ListOnlyFiles(MoveAllFilesResult(fs, Root, Target).value, Target).value| == 2 by {
      MoveAllFilesCount(fs, Root, Target);
      MissingHoldsNothing(fs, Target);
      FilesOfRoot(fs);
    }
    MovedFileListed(fs, Root, Target, "1");
    MovedFileListed(fs, Root, Target, "2");
  }

  /** `move_all_files(polygon/b/d, polygon)` moves nothing: `d` has no file
      before nor after ... */
  lemma MoveFilesDToRootSource(fs: seq<Entry>)
    requires IsPolygon(fs)
    ensures MoveAllFilesResult(fs, D, Root).Ok?
    ensures var after := MoveAllFilesResult(fs, D, Root).value;
              WellFormed(after) && ListOnlyFiles(after, D) == Ok([])
  {
    DirectoriesOfPolygon(fs);
    FilesCanMoveDToRoot(fs);
    assert D != Root;
    MoveAllFilesEmptiesSource(fs, D, Root);
  }

  /** ... and the root keeps its two files. */
  lemma MoveFilesDToRootTarget(fs: seq<Entry>)
    requires IsPolygon(fs)
    ensures MoveAllFilesResult(fs, D, Root).Ok?
    ensures var after := MoveAllFilesResult(fs, D, Root).value;
              && WellFormed(after) && IsExistingDirectory(after, Root)
              && var r := ListOnlyFiles(after, Root).value; |r| == 2 && F1 in r && F2 in r
  {
    DirectoriesOfPolygon(fs);
    FilesCanMoveDToRoot(fs);
    assert |ListOnlyFiles(MoveAllFilesResult(fs, D, Root).value, Root).value| == 2 by {
      assert D != Root;
      MoveAllFilesCount(fs, D, Root);
      FilesOfRoot(fs);
      ListingCount(fs, Root);
      FilesOfLeaves(fs);
    }
    assert Root != D;
    UnmovedFileListed(fs, D, Root, Root, "1");
    UnmovedFileListed(fs, D, Root, Root, "2");
  }

  /** `move_all_content(polygon/a, polygon/b)` leaves `a` an empty directory ... */
  lemma MoveContentAToBSource(fs: seq<Entry>)
    requires IsPolygon(fs)
    ensures MoveAllContentResult(fs, A, B).Ok?
    ensures var after := MoveAllContentResult(fs, A, B).value;
              WellFormed(after) && IsExistingDirectory(after, A) && Descendants(after, A) == {}
  {
    DirectoriesOfPolygon(fs);
    ContentCanMoveAToB(fs);
    Codes();
    MoveAllContentEmptiesSource(fs, A, B);
  }

  /** ... gives `b` its two former descendants plus the four of `a` ... */
  lemma MoveContentAToBCount(fs: seq<Entry>)
    requires IsPolygon(fs)
    ensures MoveAllContentResult(fs, A, B).Ok?
    ensures var after := MoveAllContentResult(fs, A, B).value;
              WellFormed(after) && IsExistingDirectory(after, B) && |Descendants(after, B)| == 2 + 4
  {
    DirectoriesOfPolygon(fs);
    ContentCanMoveAToB(fs);
    assert !(A <= B) && !(B <= A) by {
      Codes();
      Outside();
    }
    MoveAllContentCount(fs, A, B);
    MoveAllContentEffect(fs, A, B);
    BelowA(fs);
    BelowB(fs);
    Sizes();
  }

  /** ... namely `b/6` and `b/d`, which stay, ... */
  lemma MoveContentAToBKept(fs: seq<Entry>)
    requires IsPolygon(fs)
    ensures MoveAllContentResult(fs, A, B).Ok?
    ensures var r := Descendants(MoveAllContentResult(fs, A, B).value, B); F6 in r && D in r
  {
    DirectoriesOfPolygon(fs);
    ContentCanMoveAToB(fs);
    assert !(A <= B) && !(B <= A) by {
      Codes();
      Outside();
    }
    BelowB(fs);
    UnmovedContentListed(fs, A, B, F6);
    UnmovedContentListed(fs, A, B, D);
  }

  /** ... and each former descendant `a/rest` of `a`, as `b/rest` ... */
  lemma MoveContentAToBArrives(fs: seq<Entry>, x: Path)
    requires IsPolygon(fs) && x in Descendants(fs, A)
    ensures MoveAllContentResult(fs, A, B).Ok?
    ensures B + x[|A|..] in Descendants(MoveAllContentResult(fs, A, B).value, B)
  {
    DirectoriesOfPolygon(fs);
    ContentCanMoveAToB(fs);
    MovedContentListed(fs, A, B, x);
  }

  /** ... that is `b/3`, `b/4`, `b/c` and `b/c/5`. */
  lemma MoveContentAToBMoved(fs: seq<Entry>)
    requires IsPolygon(fs)
    ensures MoveAllContentResult(fs, A, B).Ok?
    ensures var r := Descendants(MoveAllContentResult(fs, A, B).value, B);
              B + ["3"] in r && B + ["4"] in r && B + ["c"] in r && B + ["c", "5"] in r
  {
    BelowA(fs);
    assert F3[|A|..] == ["3"] && F4[|A|..] == ["4"] && C[|A|..] == ["c"] && F5[|A|..] == ["c", "5"];
    MoveContentAToBArrives(fs, F3);
    MoveContentAToBArrives(fs, F4);
    MoveContentAToBArrives(fs, C);
    MoveContentAToBArrives(fs, F5);
  }

  // The move tests, on the mutable filesystem

  /** `test_move_all_files_1`: the root's files moved into `polygon/b/d`. */
  method MoveAllFilesIntoSubdirectory(fs: seq<Entry>) returns (rootFiles: seq<Path>, dFiles: seq<Path>)
    requires IsPolygon(fs)
    ensures rootFiles == []
    ensures |dFiles| == 2 && D + ["1"] in dFiles && D + ["2"] in dFiles
  {
    FilesCanMoveRootToD(fs);
    var disk := new Disk(fs);
    var _ := disk.MoveAllFiles(Root, D);
    MoveFilesRootToDSource(fs);
    MoveFilesRootToDTarget(fs);
    rootFiles := ListOnlyFiles(disk.entries, Root).value;
    dFiles := ListOnlyFiles(disk.entries, D).value;
  }

  /** `test_move_all_files_2`: the files of `a` moved into the root. */
  method MoveAllFilesIntoParent(fs: seq<Entry>) returns (aFiles: seq<Path>, rootFiles: seq<Path>)
    requires IsPolygon(fs)
    ensures |aFiles| == 1 && F5 in aFiles
    ensures |rootFiles| == 4 && F1 in rootFiles && F2 in rootFiles
    ensures Root + ["3"] in rootFiles && Root + ["4"] in rootFiles
  {
    FilesCanMoveAToRoot(fs);
    var disk := new Disk(fs);
    var _ := disk.MoveAllFiles(A, Root);
    MoveFilesAToRootSource(fs);
    MoveFilesAToRootCount(fs);
    MoveFilesAToRootTarget(fs);
    var listed := ListFilesRecursively(disk.entries, A);
    aFiles := listed.value;
    rootFiles := ListOnlyFiles(disk.entries, Root).value;
  }

  /** `test_move_all_files_3`: the root's files moved into the missing
      `polygon/asdf/ghi`, which the move creates. */
  method MoveAllFilesIntoNewDirectory(fs: seq<Entry>)
    returns (rootFiles: seq<Path>, asdfFiles: seq<Path>, created: bool, targetFiles: seq<Path>)
    requires IsPolygon(fs)
    ensures rootFiles == [] && asdfFiles == []
    ensures created
    ensures |targetFiles| == 2 && Target + ["1"] in targetFiles && Target + ["2"] in targetFiles
  {
    FilesCanMoveRootToTarget(fs);
    var disk := new Disk(fs);
    var _ := disk.MoveAllFiles(Root, Target);
    MoveFilesRootToTargetSource(fs);
    MoveFilesRootToTargetTarget(fs);
    rootFiles := ListOnlyFiles(disk.entries, Root).value;
    asdfFiles := ListOnlyFiles(disk.entries, Asdf).value;
    created := IsExistingDirectory(disk.entries, Target);
    targetFiles := ListOnlyFiles(disk.entries, Target).value;
  }

  /** `test_move_all_files_4`: moving the files of the file-less `polygon/b/d`
      into the root changes no listing. */
  method MoveAllFilesFromEmptyDirectory(fs: seq<Entry>) returns (rootFiles: seq<Path>, dFiles: seq<Path>)
    requires IsPolygon(fs)
    ensures |rootFiles| == 2 && F1 in rootFiles && F2 in rootFiles
    ensures dFiles == []
  {
    FilesCanMoveDToRoot(fs);
    var disk := new Disk(fs);
    var _ := disk.MoveAllFiles(D, Root);
    MoveFilesDToRootSource(fs);
    MoveFilesDToRootTarget(fs);
    rootFiles := ListOnlyFiles(disk.entries, Root).value;
    dFiles := ListOnlyFiles(disk.entries, D).value;
  }

  /** `test_move_all_files_5`: moving the root's files onto the root itself
      leaves them where they are. */
  method MoveAllFilesOntoItself(fs: seq<Entry>) returns (rootFiles: seq<Path>)
    requires IsPolygon(fs)
    ensures |rootFiles| == 2 && F1 in rootFiles && F2 in rootFiles
  {
    DirectoriesOfPolygon(fs);
    var disk := new Disk(fs);
    var _ := disk.MoveAllFiles(Root, Root);
    MoveOntoItself(fs, Root);
    FilesOfRoot(fs);
    rootFiles := ListOnlyFiles(disk.entries, Root).value;
  }

  /** `test_move_all_content_1`: the content of `a` moved into its sibling `b`. */
  method MoveAllContentToSibling(fs: seq<Entry>) returns (aContent: seq<Path>, bContent: seq<Path>)
    requires IsPolygon(fs)
    ensures aContent == []
    ensures |bContent| == 2 + 4
    ensures F6 in bContent && D in bContent
    ensures B + ["3"] in bContent && B + ["4"] in bContent && B + ["c"] in bContent && B + ["c", "5"] in bContent
  {
    ContentCanMoveAToB(fs);
    var disk := new Disk(fs);
    var _ := disk.MoveAllContent(A, B);
    MoveContentAToBSource(fs);
    MoveContentAToBCount(fs);
    MoveContentAToBKept(fs);
    MoveContentAToBMoved(fs);
    var listed := ListAllDirContentRecursively(disk.entries, A);
    aContent := listed.value;
    listed := ListAllDirContentRecursively(disk.entries, B);
    bContent := listed.value;
  }
}
