/**
 * The file system as the organizer sees it: a set of regular-file paths and
 * a set of directory paths, and what `ensure_dir` (`os.makedirs` when the
 * path is missing) does to it.
 */
module FileTree {
  import opened Paths

  /**
   * What every real file system satisfies: the root is a directory, no
   * path is both a file and a directory, and the parent of every entry is
   * a directory.
   */
  predicate IsTree(files: set<Path>, dirs: set<Path>)
  {
    && [] in dirs
    && files !! dirs
    && forall p {:trigger Parent(p)} :: p in files + dirs && p != [] ==> Parent(p) in dirs
  }

  /** Every proper ancestor of an entry is a directory. */
  lemma {:induction false} AncestorsAreDirs(files: set<Path>, dirs: set<Path>, p: Path)
    requires IsTree(files, dirs)
    ensures p in files + dirs ==> forall k :: 0 <= k < |p| ==> p[..k] in dirs
    decreases |p|
  {
    if p != [] && p in files + dirs {
      var q := Parent(p);
      AncestorsAreDirs(files, dirs, q);
      forall k | 0 <= k < |p| ensures p[..k] in dirs {
        if k < |q| {
          assert p[..k] == q[..k];
        }
      }
    }
  }

  /** The names of the entries directly inside `dir`. */
  function EntriesIn(files: set<Path>, dirs: set<Path>, dir: Path): (names: set<string>)
    ensures forall n :: n in names <==> dir + [n] in files + dirs
  {
    var names := set p | p in files + dirs && |p| == |dir| + 1 && p[..|dir|] == dir :: p[|dir|];
    assert forall n :: dir + [n] in files + dirs ==> (dir + [n])[..|dir|] == dir;
    assert forall p :: p in files + dirs && |p| == |dir| + 1 && p[..|dir|] == dir ==> p == dir + [p[|dir|]];
    names
  }

  /** Some proper ancestor of `d` is a regular file, so `os.makedirs(d)` raises. */
  predicate BlockedByFile(files: set<Path>, d: Path)
  {
    exists k :: 0 <= k < |d| && d[..k] in files
  }

  /** In a tree, a path below a regular file does not exist. */
  lemma BlockedMeansMissing(files: set<Path>, dirs: set<Path>, d: Path)
    requires IsTree(files, dirs) && BlockedByFile(files, d)
    ensures d !in files && d !in dirs
  {
    AncestorsAreDirs(files, dirs, d);
    var k :| 0 <= k < |d| && d[..k] in files;
    assert d[..k] !in dirs;
  }

  /**
   * The directories after `ensure_dir(d)` when it does not raise: nothing
   * happens when `d` exists; otherwise `d` and all its ancestors exist.
   */
  function WithDir(files: set<Path>, dirs: set<Path>, d: Path): (r: set<Path>)
    ensures dirs <= r
    ensures d in files || d in r
    ensures forall x :: x in r && x !in dirs ==> IsPrefix(x, d)
    ensures d !in files && d !in dirs ==> forall k :: 0 <= k <= |d| ==> d[..k] in r
  {
    if d in files || d in dirs then dirs
    else
      assert d == d[..|d|];
      dirs + set k | 0 <= k <= |d| :: d[..k]
  }

  /** `ensure_dir` keeps the file system a tree whenever it does not raise. */
  lemma WithDirKeepsTree(files: set<Path>, dirs: set<Path>, d: Path)
    requires IsTree(files, dirs)
    requires d in files || d in dirs || !BlockedByFile(files, d)
    ensures IsTree(files, WithDir(files, dirs, d))
  {
    if d !in files && d !in dirs {
      var r := WithDir(files, dirs, d);
      forall x | x in r && x !in dirs ensures x !in files && (x != [] ==> Parent(x) in r) {
        var k := |x|;
        assert x == d[..k];
        assert k < |d| ==> d[..k] !in files;
        if x != [] {
          assert Parent(x) == d[..k - 1];
        }
      }
    }
  }

  /** `ensure_dir` is idempotent: a second call changes nothing. */
  lemma EnsureDirIdempotent(files: set<Path>, dirs: set<Path>, d: Path)
    ensures WithDir(files, WithDir(files, dirs, d), d) == WithDir(files, dirs, d)
  {
  }

  /** A directory created for a target at or under the output base is an ancestor of the base or lies below it. */
  predicate AlongBase(base: Path, d: Path)
  {
    IsPrefix(d, base) || IsStrictAncestor(base, d)
  }

  lemma PrefixOfTargetAlongBase(base: Path, target: Path, x: Path)
    requires IsPrefix(base, target) && IsPrefix(x, target)
    ensures AlongBase(base, x)
  {
    if |x| <= |base| {
      assert x == target[..|x|] == base[..|x|];
    } else {
      assert x[..|base|] == target[..|base|];
    }
  }

  /** New files appear only below `base`; directories are only added, along `base`. */
  ghost predicate Grows(base: Path, f0: set<Path>, d0: set<Path>, f1: set<Path>, d1: set<Path>)
  {
    && (forall p :: p in f1 && p !in f0 ==> IsStrictAncestor(base, p))
    && d0 <= d1
    && (forall d :: d in d1 && d !in d0 ==> AlongBase(base, d))
  }

  lemma GrowsTransitive(base: Path, f0: set<Path>, d0: set<Path>, f1: set<Path>, d1: set<Path>,
                        f2: set<Path>, d2: set<Path>)
    requires Grows(base, f0, d0, f1, d1) && Grows(base, f1, d1, f2, d2)
    ensures Grows(base, f0, d0, f2, d2)
  {
  }

  // ---------------------------------------------------------------------
  // A run of ensure_dir calls
  // ---------------------------------------------------------------------

  /** Whether a run of `ensure_dir` calls got through, and the directories afterwards. */
  datatype Made = Made(ok: bool, dirs: set<Path>)

  /**
   * `ensure_dir` of each target in turn, as `main`'s category loops do:
   * the first target that is missing with a regular file among its
   * ancestors raises, and the targets after it are not made.
   */
  function MakeAll(files: set<Path>, dirs: set<Path>, targets: seq<Path>): (m: Made)
    ensures dirs <= m.dirs
    decreases |targets|
  {
    if targets == [] then Made(true, dirs)
    else if targets[0] !in files && targets[0] !in dirs && BlockedByFile(files, targets[0]) then Made(false, dirs)
    else MakeAll(files, WithDir(files, dirs, targets[0]), targets[1..])
  }

  /** When the run gets through, every target exists, as a directory unless a file holds its path. */
  lemma {:induction false} MakeAllMakesAll(files: set<Path>, dirs: set<Path>, targets: seq<Path>)
    ensures MakeAll(files, dirs, targets).ok
            ==> forall k :: 0 <= k < |targets| ==> targets[k] in files || targets[k] in MakeAll(files, dirs, targets).dirs
    decreases |targets|
  {
    if targets != [] && MakeAll(files, dirs, targets).ok {
      var next := WithDir(files, dirs, targets[0]);
      MakeAllMakesAll(files, next, targets[1..]);
      forall k | 1 <= k < |targets|
        ensures targets[k] in files || targets[k] in MakeAll(files, dirs, targets).dirs
      {
        assert targets[k] == targets[1..][k - 1];
      }
    }
  }

  /**
   * In a tree, the run fails exactly when some target has a regular file
   * among its ancestors, and it keeps the file system a tree.
   */
  lemma {:induction false} MakeAllOkIff(files: set<Path>, dirs: set<Path>, targets: seq<Path>)
    requires IsTree(files, dirs)
    ensures MakeAll(files, dirs, targets).ok <==> forall k :: 0 <= k < |targets| ==> !BlockedByFile(files, targets[k])
    ensures IsTree(files, MakeAll(files, dirs, targets).dirs)
    decreases |targets|
  {
    if targets != [] {
      var t := targets[0];
      if BlockedByFile(files, t) {
        BlockedMeansMissing(files, dirs, t);
      } else {
        WithDirKeepsTree(files, dirs, t);
        MakeAllOkIff(files, WithDir(files, dirs, t), targets[1..]);
        assert forall k :: 1 <= k < |targets| ==> targets[k] == targets[1..][k - 1];
      }
    }
  }

  /**
   * Making targets that all lie at or below `base` leaves the files as
   * they are and adds directories only along `base`.
   */
  lemma {:induction false} MakeAllAlong(base: Path, files: set<Path>, dirs: set<Path>, targets: seq<Path>)
    requires forall k :: 0 <= k < |targets| ==> IsPrefix(base, targets[k])
    ensures Grows(base, files, dirs, files, MakeAll(files, dirs, targets).dirs)
    decreases |targets|
  {
    if targets != [] {
      var t := targets[0];
      var next := WithDir(files, dirs, t);
      forall x | x in next && x !in dirs ensures AlongBase(base, x) {
        PrefixOfTargetAlongBase(base, t, x);
      }
      if !(t !in files && t !in dirs && BlockedByFile(files, t)) {
        MakeAllAlong(base, files, next, targets[1..]);
      }
    }
  }

  // ---------------------------------------------------------------------
  // Removing a directory tree
  // ---------------------------------------------------------------------

  /** The entries left once `top` and everything below it are removed. */
  function Outside(s: set<Path>, top: Path): (r: set<Path>)
    ensures r <= s
    ensures forall p :: p in s && !IsPrefix(top, p) ==> p in r
    ensures forall p :: p in r ==> !IsPrefix(top, p)
  {
    set p | p in s && !IsPrefix(top, p)
  }

  /** Removing a whole subtree other than the root keeps the file system a tree. */
  lemma OutsideKeepsTree(files: set<Path>, dirs: set<Path>, top: Path)
    requires IsTree(files, dirs) && top != []
    ensures IsTree(Outside(files, top), Outside(dirs, top))
  {
    var f, d := Outside(files, top), Outside(dirs, top);
    forall p | p in f + d && p != [] ensures Parent(p) in d {
      var q := Parent(p);
      if |top| <= |q| {
        assert q[..|top|] == p[..|top|];
      }
    }
  }

  /** In a tree, nothing lies at or below a path that does not exist. */
  lemma NothingBelowMissing(files: set<Path>, dirs: set<Path>, top: Path)
    requires IsTree(files, dirs) && top !in files && top !in dirs
    ensures forall p :: p in files + dirs ==> !IsPrefix(top, p)
  {
    forall p | p in files + dirs ensures !IsPrefix(top, p) {
      AncestorsAreDirs(files, dirs, p);
      assert |top| < |p| ==> p[..|top|] in dirs;
      assert p[..|p|] == p;
    }
  }

  /**
   * Creating the missing directory `top` in an existing directory, with
   * new files directly inside it, keeps the file system a tree.
   */
  lemma ExtractKeepsTree(files: set<Path>, dirs: set<Path>, top: Path, extracted: set<Path>)
    requires IsTree(files, dirs)
    requires top != [] && top[..|top| - 1] in dirs && top !in files && top !in dirs
    requires forall p :: p in extracted ==> |p| == |top| + 1 && p[..|top|] == top
    ensures IsTree(files + extracted, dirs + {top})
  {
    NothingBelowMissing(files, dirs, top);
    forall p | p in extracted ensures p !in dirs && Parent(p) == top {
      assert IsPrefix(top, p);
    }
  }

  /** Deleting a regular file keeps the file system a tree. */
  lemma RemoveFileKeepsTree(files: set<Path>, dirs: set<Path>, f: Path)
    requires IsTree(files, dirs)
    ensures IsTree(files - {f}, dirs)
  {
  }
}
