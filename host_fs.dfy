/** An abstract host filesystem: the part of `pathlib` and `shutil` that the
    directory helpers rely on.

    A path is the sequence of its components; the empty path is the working
    directory, which always exists and is a directory. The filesystem is the
    sequence of its entries, each a path with its kind; the order of the entries
    is the order in which a directory listing (`iterdir`) reports them. */
module HostFs {

  type Name = string
  type Path = seq<Name>

  /** `is_dir()` is binary: every entry that is not a directory counts as a file. */
  datatype Kind = Dir | File

  datatype Entry = Entry(path: Path, kind: Kind)

  function Parent(p: Path): Path
    requires p != []
  {
    p[..|p| - 1]
  }

  /** `p` is an immediate child of `d`. */
  predicate IsChildOf(p: Path, d: Path)
  {
    |p| == |d| + 1 && d < p
  }

  /** `Path.is_dir()`: false for files and for missing paths. */
  predicate IsDir(fs: seq<Entry>, p: Path)
  {
    p == [] || Entry(p, Dir) in fs
  }

  predicate IsFile(fs: seq<Entry>, p: Path)
  {
    Entry(p, File) in fs
  }

  /** `Path.exists()`. */
  predicate Exists(fs: seq<Entry>, p: Path)
  {
    IsDir(fs, p) || IsFile(fs, p)
  }

  predicate NoDuplicates<T(==)>(s: seq<T>)
  {
    forall i, j :: 0 <= i < j < |s| ==> s[i] != s[j]
  }

  /** What every host filesystem satisfies: each entry hangs below an existing
      directory, and no path is listed twice. */
  ghost predicate WellFormed(fs: seq<Entry>)
  {
    && (forall i {:trigger IsDir(fs, Parent(fs[i].path))} :: 0 <= i < |fs| ==> fs[i].path != [] && IsDir(fs, Parent(fs[i].path)))
    && DistinctPaths(fs)
  }

  /** The paths of the entries, in entry order. */
  function Paths(fs: seq<Entry>): seq<Path>
  {
    seq(|fs|, i requires 0 <= i < |fs| => fs[i].path)
  }

  ghost predicate DistinctPaths(fs: seq<Entry>)
  {
    NoDuplicates(Paths(fs))
  }

  /** Distinct paths, entry by entry. */
  lemma DistinctEntries(fs: seq<Entry>)
    requires DistinctPaths(fs)
    ensures forall i, j :: 0 <= i < j < |fs| ==> fs[i].path != fs[j].path
  {
    forall i, j | 0 <= i < j < |fs| ensures fs[i].path != fs[j].path {
      assert Paths(fs)[i] == fs[i].path && Paths(fs)[j] == fs[j].path;
    }
  }

  /** Every entry of a well-formed filesystem hangs below an existing directory. */
  lemma EntryHasParent(fs: seq<Entry>, i: int)
    requires WellFormed(fs) && 0 <= i < |fs|
    ensures fs[i].path != [] && IsDir(fs, Parent(fs[i].path))
  {
  }

  /** Entries with pairwise different paths have distinct paths. */
  lemma EntriesDistinct(fs: seq<Entry>)
    requires forall i, j :: 0 <= i < j < |fs| ==> fs[i].path != fs[j].path
    ensures DistinctPaths(fs)
  {
  }

  /** `Path.iterdir()`: the immediate children of `d`, in entry order. */
  function IterDir(fs: seq<Entry>, d: Path): (r: seq<Path>)
    ensures forall p :: p in r <==> IsChildOf(p, d) && (Entry(p, Dir) in fs || Entry(p, File) in fs)
    ensures DistinctPaths(fs) ==> NoDuplicates(r)
  {
    if fs == [] then []
    else
      var rest := IterDir(fs[1..], d);
      assert forall e :: e in fs <==> e == fs[0] || e in fs[1..];
      assert fs[0].kind == Dir ==> fs[0] == Entry(fs[0].path, Dir);
      assert fs[0].kind == File ==> fs[0] == Entry(fs[0].path, File);
      assert DistinctPaths(fs) ==> DistinctPaths(fs[1..]) by {
        if DistinctPaths(fs) {
          DistinctEntries(fs);
          forall i, j | 0 <= i < j < |fs[1..]| ensures fs[1..][i].path != fs[1..][j].path {
            assert fs[1..][i] == fs[i + 1] && fs[1..][j] == fs[j + 1];
          }
          EntriesDistinct(fs[1..]);
        }
      }
      if IsChildOf(fs[0].path, d) then
        assert DistinctPaths(fs) ==> fs[0].path !in rest by {
          if DistinctPaths(fs) && fs[0].path in rest {
            DistinctEntries(fs);
            var k :| 0 < k < |fs| && fs[k].path == fs[0].path;
          }
        }
        [fs[0].path] + rest
      else rest
  }

  /** Largest depth of any entry; bounds the descent of a recursive traversal. */
  function MaxDepth(fs: seq<Entry>): (r: nat)
    ensures forall i :: 0 <= i < |fs| ==> |fs[i].path| <= r
  {
    if fs == [] then 0
    else
      var m := MaxDepth(fs[1..]);
      assert forall i :: 1 <= i < |fs| ==> fs[i] == fs[1..][i - 1];
      if |fs[0].path| > m then |fs[0].path| else m
  }

  // ---------------------------------------------------------------------------
  // Facts about well-formed filesystems

  /** Only one kind per path. */
  lemma KindIsUnique(fs: seq<Entry>, p: Path)
    requires WellFormed(fs)
    ensures !(IsDir(fs, p) && IsFile(fs, p))
  {
    if IsFile(fs, p) {
      var i :| 0 <= i < |fs| && fs[i] == Entry(p, File);
      EntryHasParent(fs, i);
      DistinctEntries(fs);
      assert forall j :: 0 <= j < |fs| && j != i ==> fs[j].path != p;
    }
  }

  /** Every proper prefix of an existing path is an existing directory. */
  lemma {:induction false} PrefixIsDir(fs: seq<Entry>, p: Path, q: Path)
    requires WellFormed(fs)
    requires Exists(fs, p) && q < p
    ensures IsDir(fs, q)
    decreases |p|
  {
    var i: int :| 0 <= i < |fs| && (fs[i] == Entry(p, Dir) || fs[i] == Entry(p, File));
    EntryHasParent(fs, i);
    var parent := Parent(p);
    assert IsDir(fs, parent);
    if q != parent {
      assert q < parent;
      PrefixIsDir(fs, parent, q);
    }
  }

  /** A non-empty prefix of an existing path exists. */
  lemma PrefixExists(fs: seq<Entry>, p: Path, q: Path)
    requires WellFormed(fs)
    requires Exists(fs, p) && q <= p
    ensures Exists(fs, q)
  {
    if q != p { PrefixIsDir(fs, p, q); }
  }

  /** No existing entry hangs below a file. */
  lemma NothingBelowFile(fs: seq<Entry>, f: Path, p: Path)
    requires WellFormed(fs)
    requires IsFile(fs, f) && Exists(fs, p)
    ensures !(f < p)
  {
    if f < p {
      PrefixIsDir(fs, p, f);
      KindIsUnique(fs, f);
    }
  }

  // ---------------------------------------------------------------------------
  // `Path.mkdir(parents=True)`

  /** No component of `t` (including `t` itself) is an existing file. */
  predicate NoFileOnPath(fs: seq<Entry>, t: Path)
  {
    forall k :: 0 < k <= |t| ==> !IsFile(fs, t[..k])
  }

  /** `mkdir(parents=True, exist_ok=True)`: create `p` and every missing ancestor,
      outermost first. */
  function MakeParents(fs: seq<Entry>, p: Path): seq<Entry>
    decreases |p|
  {
    if IsDir(fs, p) then fs
    else MakeParents(fs, Parent(p)) + [Entry(p, Dir)]
  }

  /** Creating the missing ancestors adds exactly the missing non-empty prefixes
      of `p`, as directories, and keeps the filesystem well formed. */
  lemma {:induction false} MakeParentsSpec(fs: seq<Entry>, p: Path)
    requires WellFormed(fs) && NoFileOnPath(fs, p)
    ensures WellFormed(MakeParents(fs, p)) && IsDir(MakeParents(fs, p), p)
    ensures forall q, k :: Entry(q, k) in MakeParents(fs, p) <==>
              Entry(q, k) in fs || (k == Dir && q != [] && q <= p && !Exists(fs, q))
    decreases |p|
  {
    if IsDir(fs, p) {
      forall q | q != [] && q <= p ensures Exists(fs, q) {
        PrefixExists(fs, p, q);
      }
    } else {
      var parent := Parent(p);
      assert NoFileOnPath(fs, parent) by {
        forall k | 0 < k <= |parent| ensures !IsFile(fs, parent[..k]) {
          assert parent[..k] == p[..k];
        }
      }
      assert !IsFile(fs, p) by { assert p[..|p|] == p; }
      MakeParentsSpec(fs, parent);
      var made := MakeParents(fs, parent);
      var r := made + [Entry(p, Dir)];
      assert !(p <= parent);
      assert Entry(p, Dir) !in made && Entry(p, File) !in made;
      forall q, k ensures Entry(q, k) in r <==>
                Entry(q, k) in fs || (k == Dir && q != [] && q <= p && !Exists(fs, q)) {
        PrefixOfParent(q, p);
      }
      forall i | 0 <= i < |r| ensures r[i].path != [] && IsDir(r, Parent(r[i].path)) {
        if i < |made| {
          EntryHasParent(made, i);
          assert r[i] == made[i];
        }
      }
      DistinctEntries(made);
      forall i, j | 0 <= i < j < |r| ensures r[i].path != r[j].path {
        if j == |made| {
          assert r[i] == made[i] && made[i] in made;
          var e := made[i];
          assert e.kind == Dir ==> e == Entry(e.path, Dir);
          assert e.kind == File ==> e == Entry(e.path, File);
        } else {
          assert r[i] == made[i] && r[j] == made[j];
        }
      }
      EntriesDistinct(r);
    }
  }

  lemma PrefixOfParent(q: Path, p: Path)
    requires p != []
    ensures q <= p <==> q <= Parent(p) || q == p
  {
  }

  /** The parent of an immediate child of `d` is `d`. */
  lemma ParentOfChild(p: Path, d: Path)
    ensures IsChildOf(p, d) ==> p != [] && Parent(p) == d
  {
  }

  /** A path extended by one name lies inside exactly the prefixes of its prefix. */
  lemma Inside(q: Path, n: Name, d: Path)
    ensures d < q + [n] <==> d <= q
  {
  }

  /** `mkdir(parents=True)` as the helpers call it (without `exist_ok`): it fails
      when `t` already exists or when one of its ancestors is a file. */
  function MakeDirs(fs: seq<Entry>, t: Path): (r: Option<seq<Entry>>)
    requires WellFormed(fs)
    ensures r.Some? <==> !Exists(fs, t) && NoFileOnPath(fs, t)
    ensures r.Some? ==> WellFormed(r.value) && IsDir(r.value, t)
    ensures r.Some? ==> forall q, k :: Entry(q, k) in r.value <==>
              Entry(q, k) in fs || (k == Dir && q != [] && q <= t && !Exists(fs, q))
  {
    if Exists(fs, t) || !NoFileOnPath(fs, t) then None
    else MakeParentsSpec(fs, t); Some(MakeParents(fs, t))
  }

  datatype Option<T> = None | Some(value: T)

  // ---------------------------------------------------------------------------
  // `shutil.move(src, dst)`, where `dst` does not exist: a rename

  /** Where a rename of `src` to `dst` puts path `p`. */
  function Rebase(p: Path, src: Path, dst: Path): Path
  {
    if src <= p then dst + p[|src|..] else p
  }

  /** Renaming `src` to `dst` moves `src` together with its whole subtree. */
  function Move(fs: seq<Entry>, src: Path, dst: Path): (r: seq<Entry>)
    ensures |r| == |fs|
    ensures forall k :: 0 <= k < |fs| ==> r[k] == Entry(Rebase(fs[k].path, src, dst), fs[k].kind)
  {
    seq(|fs|, k requires 0 <= k < |fs| => Entry(Rebase(fs[k].path, src, dst), fs[k].kind))
  }
}
