/** Moving a snapshot of a directory's children under another directory, one
    rename at a time, and what the result looks like once every snapshot item
    has been moved. */
module Relocation {
  import opened HostFs

  /** Where path `p` ends up once every child of `s` listed in `moved` has been
      renamed to the same name under `t`. */
  function Relocate(p: Path, s: Path, t: Path, moved: seq<Path>): Path
  {
    if s < p && p[..|s| + 1] in moved then t + p[|s|..] else p
  }

  /** The filesystem once every child of `s` listed in `moved` has been renamed
      to the same name under `t`; entry kinds and positions are kept. */
  function MoveChildren(fs: seq<Entry>, s: Path, t: Path, moved: seq<Path>): (r: seq<Entry>)
    ensures |r| == |fs|
    ensures forall k :: 0 <= k < |fs| ==> r[k] == Entry(Relocate(fs[k].path, s, t, moved), fs[k].kind)
  {
    seq(|fs|, k requires 0 <= k < |fs| => Entry(Relocate(fs[k].path, s, t, moved), fs[k].kind))
  }

  /** Renaming onto the same directory changes no path. */
  lemma RelocateOntoSelf(p: Path, s: Path, moved: seq<Path>)
    ensures Relocate(p, s, s, moved) == p
  {
  }

  /** One more rename `c` -> `t + c[|s|..]` extends the set of moved children by
      `c`, provided no earlier rename landed inside `c` and `t` is not inside `c`. */
  lemma RelocateStep(p: Path, s: Path, t: Path, done: seq<Path>, c: Path)
    requires IsChildOf(c, s)
    requires s == t || !(c <= t)
    requires s == t || forall m :: m in done ==> IsChildOf(m, s) && !(t + m[|s|..] <= s)
    ensures Rebase(Relocate(p, s, t, done), c, t + c[|s|..]) == Relocate(p, s, t, done + [c])
  {
    if s == t {
      RelocateOntoSelf(p, s, done);
      RelocateOntoSelf(p, s, done + [c]);
      assert c == s + c[|s|..];
    } else if s < p && p[..|s| + 1] in done {
      RelocateStepMoved(p, s, t, done, c);
    } else {
      RelocateStepUnmoved(p, s, t, done, c);
    }
  }

  /** `RelocateStep` for a path that an earlier rename already moved. */
  lemma RelocateStepMoved(p: Path, s: Path, t: Path, done: seq<Path>, c: Path)
    requires IsChildOf(c, s) && s != t && !(c <= t)
    requires forall m :: m in done ==> IsChildOf(m, s) && !(t + m[|s|..] <= s)
    requires s < p && p[..|s| + 1] in done
    ensures Rebase(Relocate(p, s, t, done), c, t + c[|s|..]) == Relocate(p, s, t, done + [c])
  {
  }

  /** `RelocateStep` for a path that no earlier rename moved. */
  lemma RelocateStepUnmoved(p: Path, s: Path, t: Path, done: seq<Path>, c: Path)
    requires IsChildOf(c, s)
    requires !(s < p && p[..|s| + 1] in done)
    ensures Rebase(Relocate(p, s, t, done), c, t + c[|s|..]) == Relocate(p, s, t, done + [c])
  {
    if c <= p {
      assert p[..|s| + 1] == c;
      assert p[|s|..] == c[|s|..] + p[|c|..];
    } else {
      assert s < p ==> p[..|s| + 1] != c;
    }
  }

  /** The snapshot loop's step on the whole filesystem. */
  lemma MoveStep(fs: seq<Entry>, s: Path, t: Path, done: seq<Path>, c: Path)
    requires IsChildOf(c, s)
    requires s == t || !(c <= t)
    requires s == t || forall m :: m in done ==> IsChildOf(m, s) && !(t + m[|s|..] <= s)
    ensures Move(MoveChildren(fs, s, t, done), c, t + c[|s|..]) == MoveChildren(fs, s, t, done + [c])
  {
    forall k | 0 <= k < |fs|
      ensures Move(MoveChildren(fs, s, t, done), c, t + c[|s|..])[k] == MoveChildren(fs, s, t, done + [c])[k]
    {
      RelocateStep(fs[k].path, s, t, done, c);
    }
  }

  /** What the preconditions of a bulk move guarantee about its snapshot `items`:
      children of an existing directory `s`, each one existing, no destination
      `t + name` existing, and `t` (an existing directory) not inside any item. */
  ghost predicate SafeSnapshot(fs: seq<Entry>, s: Path, t: Path, items: seq<Path>)
  {
    && IsDir(fs, s) && IsDir(fs, t) && s != t
    && forall c :: c in items ==>
         IsChildOf(c, s) && Exists(fs, c) && !Exists(fs, t + c[|s|..]) && !(c <= t)
  }

  /** Under a safe snapshot, no earlier destination `t + name` lies on the way to `s`,
      which is what `RelocateStep` needs. */
  lemma SafeSnapshotSteps(fs: seq<Entry>, s: Path, t: Path, items: seq<Path>)
    requires WellFormed(fs) && SafeSnapshot(fs, s, t, items)
    ensures forall m :: m in items ==> IsChildOf(m, s) && !(t + m[|s|..] <= s)
  {
    forall m | m in items ensures !(t + m[|s|..] <= s) {
      if t + m[|s|..] <= s { PrefixExists(fs, s, t + m[|s|..]); }
    }
  }

  /** Renaming every item of a safe snapshot keeps the filesystem well formed. */
  lemma {:induction false} MoveChildrenWellFormed(fs: seq<Entry>, s: Path, t: Path, items: seq<Path>)
    requires WellFormed(fs) && SafeSnapshot(fs, s, t, items)
    ensures WellFormed(MoveChildren(fs, s, t, items))
  {
    var r := MoveChildren(fs, s, t, items);
    forall i | 0 <= i < |r| ensures r[i].path != [] && IsDir(r, Parent(r[i].path)) {
      EntryHasParent(fs, i);
      ParentSurvives(fs, s, t, items, i);
    }
    DistinctEntries(fs);
    forall i, j | 0 <= i < j < |r| ensures r[i].path != r[j].path {
      PrefixesExist(fs, i);
      PrefixesExist(fs, j);
      DistinctSurvives(fs, s, t, items, i, j);
    }
    EntriesDistinct(r);
  }

  /** After the moves, the parent of entry `i` is still an existing directory. */
  lemma ParentSurvives(fs: seq<Entry>, s: Path, t: Path, items: seq<Path>, i: int)
    requires 0 <= i < |fs| && fs[i].path != [] && IsDir(fs, Parent(fs[i].path))
    requires IsDir(fs, t)
    requires forall c :: c in items ==> IsChildOf(c, s) && !(c <= t)
    ensures Relocate(fs[i].path, s, t, items) != []
    ensures IsDir(MoveChildren(fs, s, t, items), Parent(Relocate(fs[i].path, s, t, items)))
  {
    var p := fs[i].path;
    if s < p && |p| == |s| + 1 && p[..|s| + 1] in items {
      assert Parent(t + p[|s|..]) == t;
      TargetSurvives(fs, s, t, items);
    } else {
      RelocateParent(p, s, t, items);
      if Parent(p) != [] { DirSurvives(fs, s, t, items, Parent(p)); }
    }
  }

  /** The target stays where it is. */
  lemma TargetSurvives(fs: seq<Entry>, s: Path, t: Path, items: seq<Path>)
    requires IsDir(fs, t)
    requires forall c :: c in items ==> IsChildOf(c, s) && !(c <= t)
    ensures IsDir(MoveChildren(fs, s, t, items), t)
  {
  }

  /** A directory is still a directory at its relocated path. */
  lemma DirSurvives(fs: seq<Entry>, s: Path, t: Path, items: seq<Path>, d: Path)
    requires d != [] && IsDir(fs, d)
    ensures IsDir(MoveChildren(fs, s, t, items), Relocate(d, s, t, items))
  {
  }

  /** Except for a moved child of `s` itself, relocating a path relocates its parent. */
  lemma RelocateParent(p: Path, s: Path, t: Path, items: seq<Path>)
    requires p != [] && !(s < p && |p| == |s| + 1 && p[..|s| + 1] in items)
    ensures Relocate(p, s, t, items) != []
    ensures Parent(Relocate(p, s, t, items)) == Relocate(Parent(p), s, t, items)
  {
    var parent := Parent(p);
    if s < p && p[..|s| + 1] in items {
      assert s < parent && parent[..|s| + 1] == p[..|s| + 1];
      assert Parent(t + p[|s|..]) == t + parent[|s|..];
    } else {
      assert s < parent ==> s < p && p[..|s| + 1] == parent[..|s| + 1];
    }
  }

  /** Every prefix of an entry's path exists. */
  lemma PrefixesExist(fs: seq<Entry>, k: int)
    requires WellFormed(fs) && 0 <= k < |fs|
    ensures forall q :: q <= fs[k].path ==> Exists(fs, q)
  {
    var p := fs[k].path;
    assert fs[k].kind == Dir ==> fs[k] == Entry(p, Dir);
    assert fs[k].kind == File ==> fs[k] == Entry(p, File);
    assert Exists(fs, p);
    forall q | q <= p ensures Exists(fs, q) {
      PrefixExists(fs, p, q);
    }
  }

  /** After the moves, entries `i` and `j` still have different paths. */
  lemma DistinctSurvives(fs: seq<Entry>, s: Path, t: Path, items: seq<Path>, i: int, j: int)
    requires 0 <= i < |fs| && 0 <= j < |fs| && fs[i].path != fs[j].path
    requires forall q :: q <= fs[i].path ==> Exists(fs, q)
    requires forall q :: q <= fs[j].path ==> Exists(fs, q)
    requires forall c :: c in items ==> IsChildOf(c, s) && !Exists(fs, t + c[|s|..])
    ensures Relocate(fs[i].path, s, t, items) != Relocate(fs[j].path, s, t, items)
  {
    var pi, pj := fs[i].path, fs[j].path;
    var movedI := s < pi && pi[..|s| + 1] in items;
    var movedJ := s < pj && pj[..|s| + 1] in items;
    if movedI && movedJ {
      assert pi == s + pi[|s|..] && pj == s + pj[|s|..];
      assert (t + pi[|s|..])[|t|..] == pi[|s|..] && (t + pj[|s|..])[|t|..] == pj[|s|..];
    } else if movedI {
      var c := pi[..|s| + 1];
      assert t + c[|s|..] <= t + pi[|s|..];
      assert !(t + c[|s|..] <= pj);
    } else if movedJ {
      var c := pj[..|s| + 1];
      assert t + c[|s|..] <= t + pj[|s|..];
      assert !(t + c[|s|..] <= pi);
    }
  }
}
