/**
 * The parts of the organizer that change the file system: `ensure_dir`,
 * `move_file`, `process_zip`, `process_directory` and `main`, on a
 * `FileSystem` that holds a set of regular-file paths and a set of
 * directory paths.
 */
module Organizer {
  import opened Wrappers
  import opened Strings
  import opened Paths
  import opened Filters
  import opened Categories
  import opened Naming
  import opened FileTree

  /**
   * What a run fixes before it walks: the output base, the sort method and
   * the user table; and, per file, its EXIF capture-date text and its
   * modification year.
   */
  datatype Config = Config(base: Path, sortMethod: string, filters: Filters,
                           dateTag: Path -> Option<string>, mtimeYear: Path -> nat)

  /** The dispatch of `process_directory` for the file at `path`, named by its last component. */
  function ActionFor(cfg: Config, path: Path): (a: Action)
    requires path != []
  {
    Dispatch(Last(path), cfg.sortMethod, cfg.filters, cfg.base, cfg.dateTag(path), cfg.mtimeYear(path))
  }

  /**
   * No user category name of the run can lead out of the output base, and
   * under method "1", the only one that reads the EXIF tag, no year text can.
   */
  ghost predicate Confinement(cfg: Config)
  {
    && CategoriesConfined(cfg.filters)
    && (cfg.sortMethod == "1" ==> forall p :: Confined(PhotoYear(cfg.dateTag(p), cfg.mtimeYear(p))))
  }

  /** Under confinement every move target lies strictly below the output base. */
  lemma TargetBelowBase(cfg: Config, path: Path)
    requires path != [] && Confinement(cfg) && ActionFor(cfg, path).MoveTo?
    ensures IsStrictAncestor(cfg.base, ActionFor(cfg, path).dir)
  {
    if cfg.sortMethod == "1" {
      assert Confined(PhotoYear(cfg.dateTag(path), cfg.mtimeYear(path)));
    }
  }

  /** The first free candidate name, in `move_file`'s order of trying. */
  ghost predicate FirstFree(taken: set<string>, fileName: string, name: string)
  {
    exists k: nat :: name == Candidate(fileName, k) && name !in taken
                     && forall j :: 0 <= j < k ==> Candidate(fileName, j) in taken
  }

  /** How one `move_file` call ended. */
  datatype MoveOutcome =
    | Moved(target: Path)
    | MoveFailed   // shutil.move raised; move_file reports it and returns
    | Aborted      // ensure_dir raised; nothing in move_file catches it

  /**
   * What `move_file(src, dir, fileName)` does to the file system (`f0`,
   * `d0` before, `f1`, `d1` after) when it ends with `outcome`: it aborts
   * exactly when `dir` is missing below a regular file, and then changes
   * nothing; otherwise `dir` is made; a failed move changes no file; a
   * successful one replaces `src` by exactly one new file `dir/<name>`,
   * `<name>` being the first free candidate.
   */
  ghost predicate MoveEffect(src: Path, dir: Path, fileName: string, f0: set<Path>, d0: set<Path>,
                             f1: set<Path>, d1: set<Path>, outcome: MoveOutcome)
    ensures MoveEffect(src, dir, fileName, f0, d0, f1, d1, outcome) ==> d0 <= d1 && f0 - {src} <= f1
  {
    && (outcome.Aborted? <==> dir !in f0 && dir !in d0 && BlockedByFile(f0, dir))
    && (outcome.Aborted? ==> f1 == f0 && d1 == d0)
    && (!outcome.Aborted? ==> d1 == WithDir(f0, d0, dir))
    && (outcome.MoveFailed? ==> f1 == f0)
    && (outcome.Moved? ==>
          && src in f0
          && dir in d1
          && |outcome.target| == |dir| + 1 && outcome.target[..|dir|] == dir
          && FirstFree(EntriesIn(f0, d1, dir), fileName, outcome.target[|dir|])
          && outcome.target !in f0 && outcome.target !in d1
          && f1 == f0 - {src} + {outcome.target})
  }

  /** What became of one file the walk handled. */
  datatype FileResult =
    | Ignored
    | Expanded(deleted: bool)      // an archive; `deleted` when it was removed afterwards
    | Relocated(outcome: MoveOutcome)

  /** The exception that ends the walk: `ensure_dir` raised inside `move_file`. */
  predicate Aborts(r: FileResult)
  {
    r.Relocated? && r.outcome.Aborted?
  }

  /**
   * What `process_zip` promises: only the archive itself can disappear,
   * exactly when `deleted`; no directory disappears; and, under
   * confinement, new files appear only below the output base and new
   * directories only along it.
   */
  ghost predicate ArchiveEffect(cfg: Config, src: Path, f0: set<Path>, d0: set<Path>,
                                f1: set<Path>, d1: set<Path>, deleted: bool)
  {
    && (deleted <==> src in f0 && src !in f1)
    && (forall p :: p in f0 && p !in f1 ==> p == src)
    && d0 <= d1
    && (Confinement(cfg) ==> Grows(cfg.base, f0, d0, f1, d1))
  }

  /**
   * One round of `process_directory`'s inner loop for the file at `path`:
   * an ignored file changes nothing, a file with a target is handed to
   * `move_file`, an archive to `process_zip`.
   */
  ghost predicate FileStep(cfg: Config, path: Path, f0: set<Path>, d0: set<Path>,
                           f1: set<Path>, d1: set<Path>, r: FileResult)
  {
    && path != []
    && match ActionFor(cfg, path)
       case Ignore => r == Ignored && f1 == f0 && d1 == d0
       case MoveTo(dir) => r.Relocated? && MoveEffect(path, dir, Last(path), f0, d0, f1, d1, r.outcome)
       case ExpandArchive => r.Expanded? && ArchiveEffect(cfg, path, f0, d0, f1, d1, r.deleted)
  }

  /**
   * A `move_file` call: no directory disappears, only the source can
   * disappear, and when the target directory lies strictly below `base`
   * the tree grows only below and along `base`.
   */
  lemma MoveEffects(base: Path, src: Path, dir: Path, fileName: string, f0: set<Path>, d0: set<Path>,
                    f1: set<Path>, d1: set<Path>, outcome: MoveOutcome)
    requires MoveEffect(src, dir, fileName, f0, d0, f1, d1, outcome)
    ensures d0 <= d1
    ensures forall p :: p in f0 && p !in f1 ==> p == src
    ensures IsStrictAncestor(base, dir) ==> Grows(base, f0, d0, f1, d1)
  {
    if IsStrictAncestor(base, dir) {
      forall x | x in d1 && x !in d0 ensures AlongBase(base, x) {
        PrefixOfTargetAlongBase(base, dir, x);
      }
      if outcome.Moved? {
        assert outcome.target[..|base|] == dir[..|base|];
      }
    }
  }

  /**
   * One file's round: no directory disappears, only the file itself can
   * disappear and never when it is ignored, and under confinement the tree
   * grows only below and along the output base.
   */
  lemma StepEffects(cfg: Config, path: Path, f0: set<Path>, d0: set<Path>,
                    f1: set<Path>, d1: set<Path>, r: FileResult)
    requires FileStep(cfg, path, f0, d0, f1, d1, r)
    ensures d0 <= d1
    ensures forall p :: p in f0 && p !in f1 ==> p == path
    ensures path in f0 && path !in f1 ==> ActionFor(cfg, path) != Ignore
    ensures path in f0 && path !in f1 && MovesNothing(cfg.sortMethod, cfg.filters)
            ==> ExtOf(Last(path)) in ZipExtensions
    ensures Confinement(cfg) ==> Grows(cfg.base, f0, d0, f1, d1)
  {
    match ActionFor(cfg, path)
    case Ignore =>
    case ExpandArchive =>
    case MoveTo(dir) =>
      MoveEffects(cfg.base, path, dir, Last(path), f0, d0, f1, d1, r.outcome);
      if Confinement(cfg) {
        TargetBelowBase(cfg, path);
      }
  }

  // ---------------------------------------------------------------------
  // The walk and its log
  // ---------------------------------------------------------------------

  /** One step of `os.walk`: a directory and the names of the files in it. */
  datatype Listing = Listing(dir: Path, names: seq<string>)

  /** The files of one listing that `process_directory` handles: none in a skipped directory. */
  function FilesOf(entry: Listing, base: Path): (ps: seq<Path>)
    ensures |ps| == if Skipped(base, entry.dir) then 0 else |entry.names|
    ensures forall j :: 0 <= j < |ps| ==> ps[j] == entry.dir + [entry.names[j]]
    ensures forall p :: p in ps ==> p != [] && Parent(p) == entry.dir && !Skipped(base, entry.dir)
  {
    if Skipped(base, entry.dir) then []
    else
      var ps := seq(|entry.names|, j requires 0 <= j < |entry.names| => entry.dir + [entry.names[j]]);
      assert forall j :: 0 <= j < |ps| ==> ps[j][..|entry.dir|] == entry.dir;
      ps
  }

  /**
   * Every file `process_directory` handles, in the order of the walk. None
   * lies in a directory the output base is a proper ancestor of.
   */
  function Visited(walk: seq<Listing>, base: Path): (ps: seq<Path>)
    ensures forall p :: p in ps ==> p != [] && !Skipped(base, Parent(p))
    decreases |walk|
  {
    if walk == [] then [] else FilesOf(walk[0], base) + Visited(walk[1..], base)
  }

  /** One handled file: its path, what became of it, and the file system afterwards. */
  datatype Visit = Visit(path: Path, result: FileResult, files: set<Path>, dirs: set<Path>)

  function FilesAfter(f0: set<Path>, log: seq<Visit>): set<Path>
  {
    if log == [] then f0 else log[|log| - 1].files
  }

  function DirsAfter(d0: set<Path>, log: seq<Visit>): set<Path>
  {
    if log == [] then d0 else log[|log| - 1].dirs
  }

  function PathsOf(log: seq<Visit>): (ps: seq<Path>)
    ensures |ps| == |log| && forall k :: 0 <= k < |log| ==> ps[k] == log[k].path
  {
    seq(|log|, k requires 0 <= k < |log| => log[k].path)
  }

  /** The files before round `k` of the log. */
  function FilesBefore(f0: set<Path>, log: seq<Visit>, k: nat): set<Path>
    requires k <= |log|
  {
    if k == 0 then f0 else log[k - 1].files
  }

  /** The directories before round `k` of the log. */
  function DirsBefore(d0: set<Path>, log: seq<Visit>, k: nat): set<Path>
    requires k <= |log|
  {
    if k == 0 then d0 else log[k - 1].dirs
  }

  /** The log is a run of file rounds, each starting where the one before ended. */
  ghost predicate Chain(cfg: Config, f0: set<Path>, d0: set<Path>, log: seq<Visit>)
  {
    forall k {:trigger FileStep(cfg, log[k].path, FilesBefore(f0, log, k), DirsBefore(d0, log, k),
                                log[k].files, log[k].dirs, log[k].result)} :: 0 <= k < |log| ==>
      FileStep(cfg, log[k].path, FilesBefore(f0, log, k), DirsBefore(d0, log, k),
               log[k].files, log[k].dirs, log[k].result)
  }

  /** A round that starts where the log ends extends it. */
  lemma ChainSnoc(cfg: Config, f0: set<Path>, d0: set<Path>, log: seq<Visit>, v: Visit)
    requires Chain(cfg, f0, d0, log)
    requires FileStep(cfg, v.path, FilesAfter(f0, log), DirsAfter(d0, log), v.files, v.dirs, v.result)
    ensures Chain(cfg, f0, d0, log + [v])
  {
    var ext := log + [v];
    forall k | 0 <= k < |ext|
      ensures FileStep(cfg, ext[k].path, FilesBefore(f0, ext, k), DirsBefore(d0, ext, k),
                       ext[k].files, ext[k].dirs, ext[k].result)
    {
      BeforeSnoc(f0, d0, log, v, k);
    }
  }

  /** Appending a round changes neither the earlier rounds nor the states before them. */
  lemma BeforeSnoc(f0: set<Path>, d0: set<Path>, log: seq<Visit>, v: Visit, k: nat)
    requires k <= |log|
    ensures FilesBefore(f0, log + [v], k) == if k < |log| then FilesBefore(f0, log, k) else FilesAfter(f0, log)
    ensures DirsBefore(d0, log + [v], k) == if k < |log| then DirsBefore(d0, log, k) else DirsAfter(d0, log)
    ensures (log + [v])[k] == if k < |log| then log[k] else v
  {
  }

  /** No round of the log raised. */
  predicate NoAbort(log: seq<Visit>)
  {
    forall k :: 0 <= k < |log| ==> !Aborts(log[k].result)
  }

  /** The last round raised, and none before it. */
  predicate EndsInAbort(log: seq<Visit>)
  {
    log != [] && Aborts(log[|log| - 1].result) && NoAbort(log[..|log| - 1])
  }

  /** The configuration under which `process_directory` moves no ordinary file. */
  predicate MovesNothing(sortMethod: string, filters: Filters)
  {
    sortMethod != "1" && sortMethod != "2" && (sortMethod != "3" || filters == [])
  }

  lemma PathsOfSnoc(prev: seq<Visit>, v: Visit)
    ensures PathsOf(prev + [v]) == PathsOf(prev) + [v.path]
  {
    assert forall k :: 0 <= k < |prev| ==> (prev + [v])[k] == prev[k];
  }

  /** What round `k` of a log removes: at most its own file, and never one the dispatch ignores. */
  lemma StepRemoves(cfg: Config, f0: set<Path>, d0: set<Path>, log: seq<Visit>, k: nat)
    requires Chain(cfg, f0, d0, log) && k < |log|
    ensures var v, f := log[k], FilesBefore(f0, log, k);
            && v.path != []
            && (forall p :: p in f && p !in v.files ==> p == v.path)
            && (v.path in f && v.path !in v.files ==> ActionFor(cfg, v.path) != Ignore)
  {
    var v := log[k];
    StepEffects(cfg, v.path, FilesBefore(f0, log, k), DirsBefore(d0, log, k), v.files, v.dirs, v.result);
  }

  /** Round `k` of a log removes no directory, and under confinement grows the tree only below and along the base. */
  lemma StepGrows(cfg: Config, f0: set<Path>, d0: set<Path>, log: seq<Visit>, k: nat)
    requires Chain(cfg, f0, d0, log) && k < |log|
    ensures DirsBefore(d0, log, k) <= log[k].dirs
    ensures Confinement(cfg) ==> Grows(cfg.base, FilesBefore(f0, log, k), DirsBefore(d0, log, k), log[k].files, log[k].dirs)
  {
    var v := log[k];
    StepEffects(cfg, v.path, FilesBefore(f0, log, k), DirsBefore(d0, log, k), v.files, v.dirs, v.result);
  }

  /** The first `k` rounds: no directory disappears, and under confinement the tree grows only below and along the base. */
  lemma {:induction false} EffectsUpTo(cfg: Config, f0: set<Path>, d0: set<Path>, log: seq<Visit>, k: nat)
    requires Chain(cfg, f0, d0, log) && k <= |log|
    ensures d0 <= DirsBefore(d0, log, k)
    ensures Confinement(cfg) ==> Grows(cfg.base, f0, d0, FilesBefore(f0, log, k), DirsBefore(d0, log, k))
    decreases k
  {
    if k > 0 {
      EffectsUpTo(cfg, f0, d0, log, k - 1);
      StepGrows(cfg, f0, d0, log, k - 1);
      if Confinement(cfg) {
        GrowsTransitive(cfg.base, f0, d0, FilesBefore(f0, log, k - 1), DirsBefore(d0, log, k - 1),
                        log[k - 1].files, log[k - 1].dirs);
      }
    }
  }

  /**
   * Over a whole log: no directory disappears, and under confinement the
   * tree grows only below and along the output base.
   */
  lemma ChainEffects(cfg: Config, f0: set<Path>, d0: set<Path>, log: seq<Visit>)
    requires Chain(cfg, f0, d0, log)
    ensures d0 <= DirsAfter(d0, log)
    ensures Confinement(cfg) ==> Grows(cfg.base, f0, d0, FilesAfter(f0, log), DirsAfter(d0, log))
  {
    EffectsUpTo(cfg, f0, d0, log, |log|);
  }

  /** Every file of `f0` missing from `f1` is one of `paths`. */
  predicate RemovedAmong(f0: set<Path>, f1: set<Path>, paths: seq<Path>)
  {
    forall p :: p in f0 && p !in f1 ==> p in paths
  }

  /** The first `k` rounds removed only files they handled. */
  lemma {:induction false} RemovalsUpTo(cfg: Config, f0: set<Path>, d0: set<Path>, log: seq<Visit>, k: nat)
    requires Chain(cfg, f0, d0, log) && k <= |log|
    ensures RemovedAmong(f0, FilesBefore(f0, log, k), PathsOf(log)[..k])
    decreases k
  {
    if k > 0 {
      RemovalsUpTo(cfg, f0, d0, log, k - 1);
      StepRemoves(cfg, f0, d0, log, k - 1);
      assert PathsOf(log)[..k] == PathsOf(log)[..k - 1] + [log[k - 1].path];
    }
  }

  /** A file the dispatch ignores is still there after the first `k` rounds. */
  lemma IgnoredStays(cfg: Config, f0: set<Path>, d0: set<Path>, log: seq<Visit>, k: nat, p: Path)
    requires Chain(cfg, f0, d0, log) && k <= |log|
    requires p in f0 && p != [] && ActionFor(cfg, p) == Ignore
    ensures p in FilesBefore(f0, log, k)
  {
    forall j | 0 <= j < k && p in FilesBefore(f0, log, j) ensures p in log[j].files {
      StepRemoves(cfg, f0, d0, log, j);
    }
    KeptUpTo(f0, log, k, p);
  }

  /** A file that none of the first `k` rounds removes is still there after them. */
  lemma {:induction false} KeptUpTo(f0: set<Path>, log: seq<Visit>, k: nat, p: Path)
    requires k <= |log| && p in f0
    requires forall j :: 0 <= j < k && p in FilesBefore(f0, log, j) ==> p in log[j].files
    ensures p in FilesBefore(f0, log, k)
    decreases k
  {
    if k > 0 {
      KeptUpTo(f0, log, k - 1, p);
    }
  }

  /**
   * Over a whole log, every file that disappeared was one of the handled
   * files, and no file the dispatch ignores disappeared.
   */
  lemma ChainRemovals(cfg: Config, f0: set<Path>, d0: set<Path>, log: seq<Visit>)
    requires Chain(cfg, f0, d0, log)
    ensures RemovedAmong(f0, FilesAfter(f0, log), PathsOf(log))
    ensures forall p :: p in f0 && p != [] && ActionFor(cfg, p) == Ignore ==> p in FilesAfter(f0, log)
  {
    RemovalsUpTo(cfg, f0, d0, log, |log|);
    assert PathsOf(log)[..|log|] == PathsOf(log);
    forall p | p in f0 && p != [] && ActionFor(cfg, p) == Ignore ensures p in FilesAfter(f0, log) {
      IgnoredStays(cfg, f0, d0, log, |log|, p);
    }
  }

  /** When the configuration moves nothing, a file the dispatch does not ignore is an archive. */
  lemma OnlyArchivesHandled(cfg: Config, path: Path)
    requires path != [] && ActionFor(cfg, path) != Ignore && MovesNothing(cfg.sortMethod, cfg.filters)
    ensures ExtOf(Last(path)) in ZipExtensions
  {
  }

  /** The file system (`files`, `dirs`) is where the log `log`, started from `f0`, `d0`, left it. */
  ghost predicate Logged(cfg: Config, f0: set<Path>, d0: set<Path>, log: seq<Visit>, files: set<Path>, dirs: set<Path>)
  {
    Chain(cfg, f0, d0, log) && files == FilesAfter(f0, log) && dirs == DirsAfter(d0, log)
  }

  /** One more round of a listing, logged: the log grows by the handled file, and an abort ends it. */
  lemma ListingRound(cfg: Config, f0: set<Path>, d0: set<Path>, log0: seq<Visit>, prev: seq<Visit>, v: Visit,
                     here: seq<Path>, j: nat)
    requires Logged(cfg, f0, d0, prev, FilesAfter(f0, prev), DirsAfter(d0, prev)) && NoAbort(prev)
    requires FileStep(cfg, v.path, FilesAfter(f0, prev), DirsAfter(d0, prev), v.files, v.dirs, v.result)
    requires j < |here| && here[j] == v.path && PathsOf(prev) == PathsOf(log0) + here[..j]
    ensures Logged(cfg, f0, d0, prev + [v], v.files, v.dirs)
    ensures PathsOf(prev + [v]) == PathsOf(log0) + here[..j + 1]
    ensures NoAbort(prev + [v]) <==> !Aborts(v.result)
    ensures Aborts(v.result) ==> PathsOf(prev + [v]) <= PathsOf(log0) + here && EndsInAbort(prev + [v])
  {
    ChainSnoc(cfg, f0, d0, prev, v);
    AbortSnoc(prev, v);
    PathsRound(PathsOf(log0), prev, v, here, j);
  }

  /** A log without an abort, grown by one round: that round alone decides whether it ends in one. */
  lemma AbortSnoc(prev: seq<Visit>, v: Visit)
    requires NoAbort(prev)
    ensures NoAbort(prev + [v]) <==> !Aborts(v.result)
    ensures Aborts(v.result) ==> EndsInAbort(prev + [v])
  {
    assert (prev + [v])[..|prev|] == prev;
    assert forall k :: 0 <= k < |prev| ==> (prev + [v])[k] == prev[k];
    assert (prev + [v])[|prev|] == v;
  }

  /** The handled paths, grown by the `j`th file of the listing. */
  lemma PathsRound(done: seq<Path>, prev: seq<Visit>, v: Visit, here: seq<Path>, j: nat)
    requires j < |here| && here[j] == v.path && PathsOf(prev) == done + here[..j]
    ensures PathsOf(prev + [v]) == done + here[..j + 1]
    ensures PathsOf(prev + [v]) <= done + here
  {
    PathsOfSnoc(prev, v);
    GrowPrefix(done, here, j);
  }

  /** A prefix of `here` one file longer. */
  lemma GrowPrefix(done: seq<Path>, here: seq<Path>, j: nat)
    requires j < |here|
    ensures done + here[..j + 1] == (done + here[..j]) + [here[j]]
    ensures done + here[..j + 1] <= done + here
  {
    assert here[..j + 1] == here[..j] + [here[j]];
  }

  /** The walk from listing `i` on is that listing's files, then the rest of the walk. */
  lemma VisitedNext(walk: seq<Listing>, i: nat, base: Path)
    requires i < |walk|
    ensures Visited(walk[i..], base) == FilesOf(walk[i], base) + Visited(walk[i + 1..], base)
  {
    assert walk[i..][1..] == walk[i + 1..];
  }

  /** A prefix of `a + b` is a prefix of `a + (b + c)`. */
  lemma PrefixExtend(now: seq<Path>, a: seq<Path>, b: seq<Path>, c: seq<Path>)
    requires now <= a + b
    ensures now <= a + (b + c)
    ensures now == a + b ==> a + (b + c) == now + c
  {
    assert a + (b + c) == (a + b) + c;
    assert (a + b + c)[..|now|] == (a + b)[..|now|];
  }

  /** Where the log stands after listing `i`, against the whole walk. */
  lemma WalkStep(walk: seq<Listing>, i: nat, base: Path, before: seq<Path>, now: seq<Path>)
    requires i < |walk| && Visited(walk, base) == before + Visited(walk[i..], base)
    requires now <= before + FilesOf(walk[i], base)
    ensures now <= Visited(walk, base)
    ensures now == before + FilesOf(walk[i], base) ==> Visited(walk, base) == now + Visited(walk[i + 1..], base)
  {
    VisitedNext(walk, i, base);
    PrefixExtend(now, before, FilesOf(walk[i], base), Visited(walk[i + 1..], base));
  }

  /**
   * Under way in an archive: files that appeared outside the scratch
   * directory `temp` lie below `base`, new directories outside it along `base`.
   */
  ghost predicate GrowsOutside(base: Path, temp: Path, f0: set<Path>, d0: set<Path>, f: set<Path>, d: set<Path>)
  {
    && (forall p :: p in f && p !in f0 && !IsPrefix(temp, p) ==> IsStrictAncestor(base, p))
    && (forall x :: x in d && x !in d0 && !IsPrefix(temp, x) ==> AlongBase(base, x))
  }

  /**
   * The walk of an archive's scratch directory `temp` keeps what
   * `process_zip` maintains: nothing outside the scratch directory
   * disappears, and under confinement new files and directories outside it
   * appear only below, respectively along, the output base.
   */
  lemma ScratchWalkEffects(cfg: Config, temp: Path, members: seq<string>, f0: set<Path>, d0: set<Path>,
                           fx: set<Path>, dx: set<Path>, log: seq<Visit>)
    requires forall p :: p in f0 + d0 ==> !IsPrefix(temp, p)
    requires f0 <= fx && d0 <= dx
    requires Confinement(cfg) ==> GrowsOutside(cfg.base, temp, f0, d0, fx, dx)
    requires Chain(cfg, fx, dx, log) && PathsOf(log) <= MemberPaths(temp, members)
    ensures f0 <= FilesAfter(fx, log) && d0 <= DirsAfter(dx, log)
    ensures Confinement(cfg) ==> GrowsOutside(cfg.base, temp, f0, d0, FilesAfter(fx, log), DirsAfter(dx, log))
  {
    ChainEffects(cfg, fx, dx, log);
    ChainRemovals(cfg, fx, dx, log);
    forall p | p in PathsOf(log) ensures IsPrefix(temp, p) {
      var k :| 0 <= k < |PathsOf(log)| && PathsOf(log)[k] == p;
      assert p == temp + [members[k]];
      assert p[..|temp|] == temp;
    }
  }

  /**
   * The end of `process_zip`: the scratch directory is removed with
   * everything in it, then the archive itself when `deleted`.
   */
  lemma ArchiveFinish(cfg: Config, src: Path, temp: Path, f0: set<Path>, d0: set<Path>,
                      fl: set<Path>, dl: set<Path>, f1: set<Path>, d1: set<Path>, deleted: bool)
    requires src in f0
    requires forall p :: p in f0 + d0 ==> !IsPrefix(temp, p)
    requires f0 <= fl && d0 <= dl
    requires Confinement(cfg) ==> GrowsOutside(cfg.base, temp, f0, d0, fl, dl)
    requires d1 == Outside(dl, temp)
    requires f1 == if deleted then Outside(fl, temp) - {src} else Outside(fl, temp)
    ensures ArchiveEffect(cfg, src, f0, d0, f1, d1, deleted)
  {
  }

  /** The extracted files' paths, in the order the walk of the scratch directory `temp` lists them. */
  function MemberPaths(temp: Path, members: seq<string>): (ps: seq<Path>)
    ensures |ps| == |members| && forall k :: 0 <= k < |members| ==> ps[k] == temp + [members[k]]
  {
    seq(|members|, k requires 0 <= k < |members| => temp + [members[k]])
  }

  /** The files `extractall` writes into the scratch directory `temp`. */
  function Extracted(temp: Path, members: seq<string>): (ps: set<Path>)
    ensures forall p :: p in ps <==> p in MemberPaths(temp, members)
  {
    set k | 0 <= k < |members| :: temp + [members[k]]
  }

  /**
   * A `process_zip` call that got as far as extracting the archive: the
   * scratch directory, the names of the files extracted into it, and the
   * rounds of the walk over them.
   */
  datatype Extraction = Extraction(temp: Path, members: seq<string>, log: seq<Visit>)

  /**
   * What an extracting `process_zip` did: the scratch directory was fresh,
   * every extracted file was handled in order by the rounds of `log` (none
   * when the scratch directory lies below the output base) until one
   * raised, the scratch tree was removed, and the archive was deleted only
   * if no round raised.
   */
  ghost predicate ExtractionEffect(cfg: Config, src: Path, f0: set<Path>, d0: set<Path>,
                                   f1: set<Path>, d1: set<Path>, deleted: bool, e: Extraction)
  {
    var fx := f0 + Extracted(e.temp, e.members);
    var dx := d0 + {e.temp};
    && src in f0
    && e.temp != [] && Parent(e.temp) in d0 && e.temp !in f0 && e.temp !in d0
    && Chain(cfg, fx, dx, e.log)
    && PathsOf(e.log) <= MemberPaths(e.temp, e.members)
    && (Skipped(cfg.base, e.temp) ==> e.log == [])
    && (!Skipped(cfg.base, e.temp) && NoAbort(e.log) ==> PathsOf(e.log) == MemberPaths(e.temp, e.members))
    && (!NoAbort(e.log) ==> EndsInAbort(e.log))
    && (deleted ==> NoAbort(e.log))
    && d1 == Outside(DirsAfter(dx, e.log), e.temp)
    && f1 == if deleted then Outside(FilesAfter(fx, e.log), e.temp) - {src} else Outside(FilesAfter(fx, e.log), e.temp)
  }

  // ---------------------------------------------------------------------
  // The category directories and a whole run
  // ---------------------------------------------------------------------

  /** The category directories `main` creates before walking, in order. */
  const FixedCategories: seq<Category> := [Photos, Videos, Audio, Text, Logs, Scripts, Executables, Other]

  /** The fixed category names, then the user's, as `main` creates them. */
  function CategoryNames(filters: Filters): (names: seq<string>)
    ensures |names| == |FixedCategories| + |filters|
  {
    seq(|FixedCategories|, k requires 0 <= k < |FixedCategories| => Name(FixedCategories[k]))
    + seq(|filters|, k requires 0 <= k < |filters| => filters[k].category)
  }

  /** `os.path.join(base, category)` for each name `main` creates. */
  function CategoryTargets(base: Path, filters: Filters): (targets: seq<Path>)
    ensures |targets| == |CategoryNames(filters)|
  {
    var names := CategoryNames(filters);
    seq(|names|, k requires 0 <= k < |names| => JoinText(base, names[k]))
  }

  /**
   * The creation list holds every fixed category directory and the joined
   * path of every user category; with confined user names, every one of
   * them lies at or below the output base.
   */
  lemma CategoryTargetsCover(base: Path, filters: Filters)
    ensures forall c :: c in FixedCategories ==> base + [Name(c)] in CategoryTargets(base, filters)
    ensures forall k :: 0 <= k < |filters| ==> JoinText(base, filters[k].category) in CategoryTargets(base, filters)
    ensures CategoriesConfined(filters) ==> forall t :: t in CategoryTargets(base, filters) ==> IsPrefix(base, t)
  {
    FixedTargetsListed(base, filters);
    UserTargetsListed(base, filters);
    if CategoriesConfined(filters) {
      forall t | t in CategoryTargets(base, filters) ensures IsPrefix(base, t) {
        var k :| 0 <= k < |CategoryTargets(base, filters)| && CategoryTargets(base, filters)[k] == t;
        CategoryTargetBelow(base, filters, k);
      }
    }
  }

  lemma FixedTargetsListed(base: Path, filters: Filters)
    ensures forall c :: c in FixedCategories ==> base + [Name(c)] in CategoryTargets(base, filters)
  {
    var targets := CategoryTargets(base, filters);
    forall c | c in FixedCategories ensures base + [Name(c)] in targets {
      var k :| 0 <= k < |FixedCategories| && FixedCategories[k] == c;
      JoinPlain(base, Name(c));
      assert targets[k] == JoinText(base, Name(c));
    }
  }

  lemma UserTargetsListed(base: Path, filters: Filters)
    ensures forall k :: 0 <= k < |filters| ==> JoinText(base, filters[k].category) in CategoryTargets(base, filters)
  {
    var targets := CategoryTargets(base, filters);
    forall k | 0 <= k < |filters| ensures JoinText(base, filters[k].category) in targets {
      assert targets[|FixedCategories| + k] == JoinText(base, filters[k].category);
    }
  }

  /**
   * Method "3" with a user category named "../Out": `main` creates
   * `<root>/Out`, beside the output base `<root>/Organized` rather than in it.
   */
  lemma CategoryDirEscapesOutput(root: Path, exts: set<string>)
    ensures var base := root + ["Organized"];
            && root + ["Out"] in CategoryTargets(base, [Filter("../Out", exts)])
            && !IsPrefix(base, root + ["Out"])
  {
    var base := root + ["Organized"];
    var filters := [Filter("../Out", exts)];
    UserTargetsListed(base, filters);
    assert JoinText(base, filters[0].category) in CategoryTargets(base, filters);
    ParentTextExample(root);
    SiblingOutside(root, "Organized", "Out", []);
    assert ["Out"] + [] == ["Out"];
  }

  /** Under confinement, the `k`th name to create is joined at or below the output base. */
  lemma CategoryTargetBelow(base: Path, filters: Filters, k: nat)
    requires CategoriesConfined(filters) && k < |CategoryTargets(base, filters)|
    ensures IsPrefix(base, CategoryTargets(base, filters)[k])
  {
    var names := CategoryNames(filters);
    var n := |FixedCategories|;
    assert CategoryTargets(base, filters)[k] == JoinText(base, names[k]);
    if k < n {
      assert names[k] == Name(FixedCategories[k]);
      JoinPlain(base, names[k]);
      assert (base + [names[k]])[..|base|] == base;
    } else {
      assert names[k] == filters[k - n].category;
      JoinConfined(base, names[k]);
    }
  }

  /** The one test `main` makes of the sort method it reads. */
  predicate ValidSortMethod(m: string)
  {
    m == "1" || m == "2" || m == "3"
  }

  /**
   * The table a run uses: the one read for method "3", none otherwise.
   * Whatever the answers, it has distinct, stripped, non-empty category
   * names and only non-empty lower-case extensions.
   */
  function TableOf(sortMethod: string, more: seq<string>): (f: Filters)
    ensures WellFormed(f)
  {
    if sortMethod == "3" && ReadFilters(more, []).Ok? then
      ReadFiltersWellFormed(more, []);
      ReadFilters(more, []).value
    else []
  }

  /** How a run of `main` ended. */
  datatype RunOutcome =
    | InvalidSourcePath
    | InvalidSortMethod
    | InputEnded   // the console input ran out (EOFError)
    | Crashed      // an exception escaped (ensure_dir raised)
    | Completed

  /**
   * What `main` does once the sort method is accepted, for the output base
   * `base` and the console lines `more` after the sort method: make `base`
   * (crashing when a regular file is in the way); for method "3" read the
   * table (running out of input ends the run); make the category
   * directories (crashing at the first one blocked by a file); then walk,
   * completing exactly when no round raised.
   */
  ghost predicate RunSpec(base: Path, sortMethod: string, more: seq<string>, walk: seq<Listing>,
                          dateTag: Path -> Option<string>, mtimeYear: Path -> nat,
                          f0: set<Path>, d0: set<Path>, f1: set<Path>, d1: set<Path>,
                          r: RunOutcome, log: seq<Visit>)
  {
    var cfg := Config(base, sortMethod, TableOf(sortMethod, more), dateTag, mtimeYear);
    var baseDirs := WithDir(f0, d0, base);
    var made := MakeAll(f0, baseDirs, CategoryTargets(base, cfg.filters));
    if base !in f0 && base !in d0 && BlockedByFile(f0, base) then
      r == Crashed && f1 == f0 && d1 == d0 && log == []
    else if sortMethod == "3" && ReadFilters(more, []).Err? then
      r == InputEnded && f1 == f0 && d1 == baseDirs && log == []
    else if !made.ok then
      r == Crashed && f1 == f0 && d1 == made.dirs && log == []
    else
      && Chain(cfg, f0, made.dirs, log)
      && f1 == FilesAfter(f0, log) && d1 == DirsAfter(made.dirs, log)
      && PathsOf(log) <= Visited(walk, base)
      && (r == Completed <==> NoAbort(log))
      && (r == Completed ==> PathsOf(log) == Visited(walk, base))
      && (r != Completed ==> r == Crashed && EndsInAbort(log))
  }

  /** The files a walk removed are files it handled, which `process_directory` does not ignore. */
  lemma LogRemovals(cfg: Config, f0: set<Path>, d0: set<Path>, log: seq<Visit>, walk: seq<Listing>)
    requires Chain(cfg, f0, d0, log) && PathsOf(log) <= Visited(walk, cfg.base)
    ensures forall p :: p in f0 && p !in FilesAfter(f0, log)
              ==> p in Visited(walk, cfg.base) && p != [] && ActionFor(cfg, p) != Ignore
  {
    ChainRemovals(cfg, f0, d0, log);
    var visited := Visited(walk, cfg.base);
    forall p | p in f0 && p !in FilesAfter(f0, log) ensures p in visited {
      var k :| 0 <= k < |PathsOf(log)| && PathsOf(log)[k] == p;
      assert visited[k] == p;
    }
  }

  /**
   * A completed run leaves the output base, every fixed category directory
   * and every user category directory in place (as a directory, unless a
   * regular file held that path from the start).
   */
  lemma CompletedRunMadeCategoryDirs(base: Path, sortMethod: string, more: seq<string>, walk: seq<Listing>,
                                     dateTag: Path -> Option<string>, mtimeYear: Path -> nat,
                                     f0: set<Path>, d0: set<Path>, f1: set<Path>, d1: set<Path>,
                                     r: RunOutcome, log: seq<Visit>)
    requires RunSpec(base, sortMethod, more, walk, dateTag, mtimeYear, f0, d0, f1, d1, r, log)
    requires r == Completed
    ensures base in d1 || base in f0
    ensures forall c :: c in FixedCategories ==> base + [Name(c)] in d1 || base + [Name(c)] in f0
    ensures var filters := TableOf(sortMethod, more);
            forall k :: 0 <= k < |filters|
              ==> JoinText(base, filters[k].category) in d1 || JoinText(base, filters[k].category) in f0
  {
    var cfg := Config(base, sortMethod, TableOf(sortMethod, more), dateTag, mtimeYear);
    var baseDirs := WithDir(f0, d0, base);
    var targets := CategoryTargets(base, cfg.filters);
    var made := MakeAll(f0, baseDirs, targets);
    MakeAllMakesAll(f0, baseDirs, targets);
    ChainEffects(cfg, f0, made.dirs, log);
    CategoryTargetsCover(base, cfg.filters);
  }

  /**
   * Only handled files disappear in a run, so a file in a skipped
   * directory stays; when the method and table move nothing, only
   * archives disappear.
   */
  lemma RunRemovesOnlyVisited(base: Path, sortMethod: string, more: seq<string>, walk: seq<Listing>,
                              dateTag: Path -> Option<string>, mtimeYear: Path -> nat,
                              f0: set<Path>, d0: set<Path>, f1: set<Path>, d1: set<Path>,
                              r: RunOutcome, log: seq<Visit>)
    requires RunSpec(base, sortMethod, more, walk, dateTag, mtimeYear, f0, d0, f1, d1, r, log)
    ensures forall p :: p in f0 && p !in f1 ==> p in Visited(walk, base) && p != [] && !Skipped(base, Parent(p))
    ensures MovesNothing(sortMethod, TableOf(sortMethod, more))
            ==> forall p :: p in f0 && p !in f1 ==> p != [] && ExtOf(Last(p)) in ZipExtensions
  {
    var cfg := Config(base, sortMethod, TableOf(sortMethod, more), dateTag, mtimeYear);
    var made := MakeAll(f0, WithDir(f0, d0, base), CategoryTargets(base, cfg.filters));
    if && !(base !in f0 && base !in d0 && BlockedByFile(f0, base))
       && !(sortMethod == "3" && ReadFilters(more, []).Err?)
       && made.ok
    {
      LogRemovals(cfg, f0, made.dirs, log, walk);
      forall p | p in f0 && p !in f1
        ensures MovesNothing(sortMethod, cfg.filters) ==> ExtOf(Last(p)) in ZipExtensions
      {
        if MovesNothing(sortMethod, cfg.filters) {
          OnlyArchivesHandled(cfg, p);
        }
      }
    }
  }


  /**
   * Under confinement a whole run adds files only below the output base
   * and directories only along it, and removes no directory.
   */
  lemma RunGrowsConfined(base: Path, sortMethod: string, more: seq<string>, walk: seq<Listing>,
                         dateTag: Path -> Option<string>, mtimeYear: Path -> nat,
                         f0: set<Path>, d0: set<Path>, f1: set<Path>, d1: set<Path>,
                         r: RunOutcome, log: seq<Visit>)
    requires RunSpec(base, sortMethod, more, walk, dateTag, mtimeYear, f0, d0, f1, d1, r, log)
    requires Confinement(Config(base, sortMethod, TableOf(sortMethod, more), dateTag, mtimeYear))
    ensures Grows(base, f0, d0, f1, d1)
  {
    var cfg := Config(base, sortMethod, TableOf(sortMethod, more), dateTag, mtimeYear);
    var baseDirs := WithDir(f0, d0, base);
    var targets := CategoryTargets(base, cfg.filters);
    var made := MakeAll(f0, baseDirs, targets);
    forall x | x in baseDirs && x !in d0 ensures AlongBase(base, x) {
      assert IsPrefix(x, base);
    }
    assert Grows(base, f0, d0, f0, baseDirs);
    CategoryTargetsCover(base, cfg.filters);
    MakeAllAlong(base, f0, baseDirs, targets);
    GrowsTransitive(base, f0, d0, f0, baseDirs, f0, made.dirs);
    ChainEffects(cfg, f0, made.dirs, log);
    if made.ok && !(base !in f0 && base !in d0 && BlockedByFile(f0, base)) && !(sortMethod == "3" && ReadFilters(more, []).Err?) {
      GrowsTransitive(base, f0, d0, f0, made.dirs, f1, d1);
    }
  }

  // ---------------------------------------------------------------------
  // The file system
  // ---------------------------------------------------------------------

  class FileSystem {
    var files: set<Path>
    var dirs: set<Path>

    /** The file system is a tree. */
    predicate Valid()
      reads this
    {
      IsTree(files, dirs)
    }

    constructor (files: set<Path>, dirs: set<Path>)
      requires IsTree(files, dirs)
      ensures Valid()
      ensures this.files == files && this.dirs == dirs
    {
      this.files := files;
      this.dirs := dirs;
    }

    /** `os.path.exists(p)`. */
    predicate Exists(p: Path)
      reads this
    {
      p in files || p in dirs
    }

    /**
     * `ensure_dir(d)`: creates `d` and its missing ancestors unless `d`
     * exists; `ok` is false when `os.makedirs` would raise because an
     * ancestor is a regular file, and then nothing changes.
     */
    method EnsureDir(d: Path) returns (ok: bool)
      requires Valid()
      modifies this
      ensures Valid()
      ensures ok <==> !BlockedByFile(old(files), d)
      ensures !ok ==> !old(Exists(d))
      ensures files == old(files)
      ensures dirs == if ok then WithDir(old(files), old(dirs), d) else old(dirs)
    {
      if Exists(d) {
        AncestorsAreDirs(files, dirs, d);
        assert forall k :: 0 <= k < |d| ==> d[..k] !in files;
        ok := true;
        return;
      }
      ok := !exists k :: 0 <= k < |d| && d[..k] in files;
      if ok {
        WithDirKeepsTree(files, dirs, d);
        dirs := WithDir(files, dirs, d);
      }
    }

    /**
     * `move_file(src, targetDir, fileName)`: makes sure the directory
     * exists, picks the first free name, and moves the file there. The move
     * itself may fail (permissions, a missing source, a full disk); it then
     * leaves every file where it was.
     */
    method MoveFile(src: Path, targetDir: Path, fileName: string) returns (outcome: MoveOutcome)
      requires Valid()
      modifies this
      ensures Valid()
      ensures MoveEffect(src, targetDir, fileName, old(files), old(dirs), files, dirs, outcome)
    {
      var ok := EnsureDir(targetDir);
      if !ok {
        return Aborted;
      }
      var taken := EntriesIn(files, dirs, targetDir);
      var name;
      ghost var k;
      name, k := ChooseName(taken, fileName);
      var target := targetDir + [name];
      assert target[..|targetDir|] == targetDir && target[|targetDir|] == name;
      assert target !in files && target !in dirs;
      var succeeded: bool := *;
      if succeeded && src in files && targetDir in dirs {
        RemoveFileKeepsTree(files, dirs, src);
        files := files - {src} + {target};
        outcome := Moved(target);
      } else {
        outcome := MoveFailed;
      }
    }

    /**
     * `process_zip(src, ...)`: the archive is opened and extracted into a
     * fresh scratch directory `temp`, each extracted file is dispatched as
     * `process_directory` would (a nested archive stays where it is), the
     * scratch directory is removed with whatever is left in it, and the
     * archive is deleted unless a round raised. Any failure on the way
     * (unreadable archive, no scratch directory, `os.remove` raising) is
     * caught here; the archive then stays.
     */
    method ProcessArchive(src: Path, cfg: Config) returns (deleted: bool, ghost ex: Option<Extraction>)
      requires Valid()
      modifies this
      ensures Valid()
      ensures ArchiveEffect(cfg, src, old(files), old(dirs), files, dirs, deleted)
      ensures ex.None? ==> !deleted && files == old(files) && dirs == old(dirs)
      ensures ex.Some? ==> ExtractionEffect(cfg, src, old(files), old(dirs), files, dirs, deleted, ex.value)
    {
      deleted, ex := false, None;
      var readable: bool := *;        // zipfile opens and extracts the archive
      var temp: Path := *;            // tempfile.TemporaryDirectory()
      var members: seq<string> := *;  // the file names stored in the archive
      if !readable || src !in files || temp == [] || Parent(temp) !in dirs || temp in files || temp in dirs
         || exists k :: 0 <= k < |members| && !PlainComponent(members[k]) {
        return;
      }
      ghost var f0, d0 := files, dirs;
      NothingBelowMissing(files, dirs, temp);
      var extracted := Extracted(temp, members);
      assert forall k :: 0 <= k < |members| ==> (temp + [members[k]])[..|temp|] == temp;
      ExtractKeepsTree(files, dirs, temp, extracted);
      files := files + extracted;
      dirs := dirs + {temp};
      ghost var log;
      deleted, log := WalkScratch(src, temp, members, cfg, f0, d0);
      ex := Some(Extraction(temp, members, log));
    }

    /**
     * The rest of `process_zip` once the archive is extracted into `temp`:
     * the scratch directory is walked unless it lies below the output base,
     * then removed, and the archive is deleted when no round raised. `f0`,
     * `d0` is the file system before extraction.
     */
    method WalkScratch(src: Path, temp: Path, members: seq<string>, cfg: Config,
                       ghost f0: set<Path>, ghost d0: set<Path>) returns (deleted: bool, ghost log: seq<Visit>)
      requires Valid()
      requires src in f0 && temp != [] && Parent(temp) in d0 && temp !in f0 && temp !in d0
      requires forall p :: p in f0 + d0 ==> !IsPrefix(temp, p)
      requires files == f0 + Extracted(temp, members) && dirs == d0 + {temp}
      modifies this
      ensures Valid()
      ensures ArchiveEffect(cfg, src, f0, d0, files, dirs, deleted)
      ensures ExtractionEffect(cfg, src, f0, d0, files, dirs, deleted, Extraction(temp, members, log))
    {
      assert forall k :: 0 <= k < |members| ==> (temp + [members[k]])[..|temp|] == temp;
      var failed := false;
      log := [];
      if !Skipped(cfg.base, temp) {
        failed, log := ProcessMembers(temp, members, cfg, f0, d0);
      }
      ghost var fl, dl := files, dirs;
      deleted := RemoveScratch(src, temp, failed);
      ArchiveFinish(cfg, src, temp, f0, d0, fl, dl, files, dirs, deleted);
    }

    /**
     * The end of `process_zip`: the scratch directory goes, with whatever is
     * left in it; then, unless a round of the walk raised, `os.remove`
     * deletes the archive (and may fail, keeping it).
     */
    method RemoveScratch(src: Path, temp: Path, failed: bool) returns (deleted: bool)
      requires Valid() && temp != []
      modifies this
      ensures Valid()
      ensures dirs == Outside(old(dirs), temp)
      ensures files == if deleted then Outside(old(files), temp) - {src} else Outside(old(files), temp)
      ensures deleted ==> !failed
    {
      deleted := false;
      OutsideKeepsTree(files, dirs, temp);
      files := Outside(files, temp);
      dirs := Outside(dirs, temp);
      if !failed {
        var removed: bool := *;       // os.remove(src) succeeds
        if removed {
          RemoveFileKeepsTree(files, dirs, src);
          files := files - {src};
          deleted := true;
        }
      }
    }

    /**
     * `process_directory` on the scratch directory of an archive, whose
     * files are `members`: each gets a logged round, in order, as in the
     * top-level walk (a nested archive stays where it is), and the walk
     * stops when `move_file` aborts. `f0`, `d0` is the file system before
     * extraction, which has nothing inside `temp`.
     */
    method ProcessMembers(temp: Path, members: seq<string>, cfg: Config, ghost f0: set<Path>, ghost d0: set<Path>)
      returns (failed: bool, ghost log: seq<Visit>)
      requires Valid()
      requires forall p :: p in f0 + d0 ==> !IsPrefix(temp, p)
      requires f0 <= files && d0 <= dirs
      requires Confinement(cfg) ==> GrowsOutside(cfg.base, temp, f0, d0, files, dirs)
      modifies this
      ensures Valid()
      ensures f0 <= files && d0 <= dirs
      ensures Confinement(cfg) ==> GrowsOutside(cfg.base, temp, f0, d0, files, dirs)
      ensures Logged(cfg, old(files), old(dirs), log, files, dirs)
      ensures PathsOf(log) <= MemberPaths(temp, members)
      ensures failed <==> !NoAbort(log)
      ensures !failed ==> PathsOf(log) == MemberPaths(temp, members)
      ensures failed ==> EndsInAbort(log)
    {
      ghost var fx, dx := files, dirs;
      ghost var here := MemberPaths(temp, members);
      log := [];
      failed := false;
      var i := 0;
      while i < |members|
        invariant 0 <= i <= |members|
        invariant Valid() && !failed
        invariant Logged(cfg, fx, dx, log, files, dirs) && NoAbort(log)
        invariant PathsOf(log) == [] + here[..i]
      {
        var path := temp + [members[i]];
        assert path[..|temp|] == temp;
        ghost var prev := log;
        ghost var result;
        var ok;
        ok, result := ProcessMember(path, cfg);
        failed := !ok;
        log := log + [Visit(path, result, files, dirs)];
        ListingRound(cfg, fx, dx, [], prev, Visit(path, result, files, dirs), here, i);
        if failed {
          ScratchWalkEffects(cfg, temp, members, f0, d0, fx, dx, log);
          return;
        }
        i := i + 1;
      }
      assert here[..i] == here;
      ScratchWalkEffects(cfg, temp, members, f0, d0, fx, dx, log);
    }

    /**
     * One round of the walk of an archive's scratch directory: as
     * `ProcessFile`, except that a nested archive stays where it is.
     */
    method ProcessMember(path: Path, cfg: Config) returns (ok: bool, ghost result: FileResult)
      requires Valid() && path != []
      modifies this
      ensures Valid()
      ensures FileStep(cfg, path, old(files), old(dirs), files, dirs, result)
      ensures result.Expanded? ==> files == old(files) && dirs == old(dirs)
      ensures ok <==> !Aborts(result)
    {
      ok := true;
      match ActionFor(cfg, path)
      case ExpandArchive =>
        result := Expanded(false);
      case MoveTo(dir) =>
        var outcome := MoveFile(path, dir, Last(path));
        result := Relocated(outcome);
        ok := !outcome.Aborted?;
      case Ignore =>
        result := Ignored;
    }

    /**
     * The body of `process_directory`'s inner loop for the file at `path`:
     * dispatch, then archive handling or one `move_file`. `ok` is false
     * exactly when an exception escaped, which is when `move_file` aborted.
     */
    method ProcessFile(path: Path, cfg: Config) returns (ok: bool, ghost result: FileResult)
      requires Valid() && path != []
      modifies this
      ensures Valid()
      ensures FileStep(cfg, path, old(files), old(dirs), files, dirs, result)
      ensures ok <==> !Aborts(result)
    {
      ok := true;
      match ActionFor(cfg, path)
      case ExpandArchive =>
        var deleted;
        ghost var ex;
        deleted, ex := ProcessArchive(path, cfg);
        result := Expanded(deleted);
      case MoveTo(dir) =>
        var outcome := MoveFile(path, dir, Last(path));
        result := Relocated(outcome);
        ok := !outcome.Aborted?;
      case Ignore =>
        result := Ignored;
    }

    /**
     * One listing of `process_directory`'s walk, continuing the log
     * `log0`: a directory strictly below the output base is skipped;
     * otherwise every file is handled in order until `move_file` aborts,
     * which ends the loop with `ok` false.
     */
    method ProcessListing(entry: Listing, cfg: Config, ghost f0: set<Path>, ghost d0: set<Path>,
                          ghost log0: seq<Visit>) returns (ok: bool, ghost log: seq<Visit>)
      requires Valid()
      requires Logged(cfg, f0, d0, log0, files, dirs) && NoAbort(log0)
      modifies this
      ensures Valid()
      ensures Logged(cfg, f0, d0, log, files, dirs)
      ensures ok <==> NoAbort(log)
      ensures ok ==> PathsOf(log) == PathsOf(log0) + FilesOf(entry, cfg.base)
      ensures !ok ==> PathsOf(log) <= PathsOf(log0) + FilesOf(entry, cfg.base) && EndsInAbort(log)
    {
      ghost var here := FilesOf(entry, cfg.base);
      log := log0;
      if Skipped(cfg.base, entry.dir) {
        return true, log;
      }
      var j := 0;
      while j < |entry.names|
        invariant 0 <= j <= |entry.names|
        invariant Valid()
        invariant Logged(cfg, f0, d0, log, files, dirs) && NoAbort(log)
        invariant PathsOf(log) == PathsOf(log0) + here[..j]
      {
        var path := entry.dir + [entry.names[j]];
        ghost var prev := log;
        ghost var result;
        ok, result := ProcessFile(path, cfg);
        log := log + [Visit(path, result, files, dirs)];
        ListingRound(cfg, f0, d0, log0, prev, Visit(path, result, files, dirs), here, j);
        if !ok {
          return;
        }
        j := j + 1;
      }
      assert here[..j] == here;
      ok := true;
    }

    /**
     * `process_directory(root, base, ...)` over the listing `walk` that
     * `os.walk(root)` produces. Files in a directory strictly below the
     * output base are left alone; every other file gets one round, in
     * order, and `log` records each round. `completed` is false exactly
     * when a round raised, which ends the walk there.
     */
    method ProcessDirectory(walk: seq<Listing>, cfg: Config) returns (completed: bool, ghost log: seq<Visit>)
      requires Valid()
      modifies this
      ensures Valid()
      ensures Logged(cfg, old(files), old(dirs), log, files, dirs)
      ensures PathsOf(log) <= Visited(walk, cfg.base)
      ensures completed <==> NoAbort(log)
      ensures completed ==> PathsOf(log) == Visited(walk, cfg.base)
      ensures !completed ==> EndsInAbort(log)
    {
      ghost var f0, d0 := files, dirs;
      log := [];
      var i := 0;
      while i < |walk|
        invariant 0 <= i <= |walk|
        invariant Valid()
        invariant Logged(cfg, f0, d0, log, files, dirs) && NoAbort(log)
        invariant Visited(walk, cfg.base) == PathsOf(log) + Visited(walk[i..], cfg.base)
      {
        ghost var before := PathsOf(log);
        var ok;
        ok, log := ProcessListing(walk[i], cfg, f0, d0, log);
        WalkStep(walk, i, cfg.base, before, PathsOf(log));
        if !ok {
          return false, log;
        }
        i := i + 1;
      }
      assert walk[|walk|..] == [];
      completed := true;
    }

    /**
     * The `for category in ...: ensure_dir(os.path.join(base, category))`
     * loops of `main`: `ok` is false exactly when one target lies below a
     * regular file, and the run of calls is `MakeAll`.
     */
    method MakeCategoryDirs(targets: seq<Path>) returns (ok: bool)
      requires Valid()
      modifies this
      ensures Valid()
      ensures files == old(files)
      ensures ok == MakeAll(old(files), old(dirs), targets).ok
      ensures dirs == MakeAll(old(files), old(dirs), targets).dirs
      ensures ok <==> forall k :: 0 <= k < |targets| ==> !BlockedByFile(old(files), targets[k])
    {
      MakeAllOkIff(files, dirs, targets);
      var i := 0;
      while i < |targets|
        invariant 0 <= i <= |targets|
        invariant Valid() && files == old(files)
        invariant MakeAll(files, dirs, targets[i..]) == MakeAll(old(files), old(dirs), targets)
      {
        assert targets[i..][1..] == targets[i + 1..];
        ok := EnsureDir(targets[i]);
        if !ok {
          return false;
        }
        i := i + 1;
      }
      assert targets[|targets|..] == [];
      ok := true;
    }

    /**
     * `main`, once the source directory `root` has been typed: `answers`
     * are the remaining console lines (the sort method, then the custom
     * categories), `walk` is what `os.walk(root)` lists. The sort method is
     * checked before anything is created; then `root/Organized` and its
     * category directories are made and the tree is processed.
     */
    method Organize(root: Path, answers: seq<string>, walk: seq<Listing>,
                    dateTag: Path -> Option<string>, mtimeYear: Path -> nat)
      returns (r: RunOutcome, ghost log: seq<Visit>)
      requires Valid()
      modifies this
      ensures Valid()
      ensures r == InvalidSourcePath <==> root !in old(dirs)
      ensures r == InvalidSortMethod <==> root in old(dirs) && answers != [] && !ValidSortMethod(Strip(answers[0]))
      ensures root in old(dirs) && answers == [] ==> r == InputEnded
      ensures r == InvalidSourcePath || r == InvalidSortMethod || answers == []
              ==> files == old(files) && dirs == old(dirs)
      ensures root in old(dirs) && answers != [] && ValidSortMethod(Strip(answers[0]))
              ==> RunSpec(root + ["Organized"], Strip(answers[0]), answers[1..], walk, dateTag, mtimeYear,
                          old(files), old(dirs), files, dirs, r, log)
    {
      log := [];
      if root !in dirs {
        return InvalidSourcePath, log;
      }
      if answers == [] {
        return InputEnded, log;
      }
      var sortMethod := Strip(answers[0]);
      if !ValidSortMethod(sortMethod) {
        return InvalidSortMethod, log;
      }
      r, log := Run(root + ["Organized"], sortMethod, answers[1..], walk, dateTag, mtimeYear);
    }

    /**
     * The part of `main` after the sort method was accepted: `base` is
     * `root/Organized`, `more` the console lines after the sort method.
     */
    method Run(base: Path, sortMethod: string, more: seq<string>, walk: seq<Listing>,
               dateTag: Path -> Option<string>, mtimeYear: Path -> nat)
      returns (r: RunOutcome, ghost log: seq<Visit>)
      requires Valid()
      modifies this
      ensures Valid()
      ensures RunSpec(base, sortMethod, more, walk, dateTag, mtimeYear, old(files), old(dirs), files, dirs, r, log)
    {
      log := [];
      var ok := EnsureDir(base);
      if !ok {
        return Crashed, log;
      }
      var filters: Filters := [];
      if sortMethod == "3" {
        var read := GetCustomFilters(more);
        if read.Err? {
          return InputEnded, log;
        }
        filters := read.value;
      }
      var cfg := Config(base, sortMethod, filters, dateTag, mtimeYear);
      ok := MakeCategoryDirs(CategoryTargets(base, filters));
      if !ok {
        return Crashed, log;
      }
      var completed;
      completed, log := ProcessDirectory(walk, cfg);
      r := if completed then Completed else Crashed;
    }
  }
}
