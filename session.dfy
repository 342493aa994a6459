/**
 * internal/sessions/session.go: the Session record and the deletion of a
 * session's files, with best-effort pruning of the directories they leave
 * empty.  The operating system's file tree is an object whose state is a set
 * of files and a set of directories; `os.Remove` is its Remove method.
 */
module Sessions {
  import opened Wrappers
  import opened Paths

  /** One logical session; timestamps are instants with 0 as the zero time. */
  datatype Session = Session(
    id: string,
    createdAt: nat,
    updatedAt: nat,
    workingDir: string,
    lastAction: string,
    filePaths: seq<string>)

  /** The state of the file tree; `locked` entries are ones the OS refuses to remove. */
  datatype Fs = Fs(files: set<Path>, dirs: set<Path>, locked: set<Path>)

  /** What one os.Remove call gives: success, or the kind of error it returns. */
  datatype Outcome = Removed | NotExist | NotEmpty | Denied

  /** Some entry of the tree sits directly inside `d`. */
  predicate Occupied(fs: Fs, d: Path) {
    (exists e :: e in fs.files && e.parts != [] && Parent(e) == d) ||
    (exists e :: e in fs.dirs && e.parts != [] && Parent(e) == d)
  }

  /** os.Remove: removes a file, or a directory that is empty. */
  function RemoveSpec(fs: Fs, p: Path): (r: (Fs, Outcome))
    ensures r.1 == Removed ==> (p in fs.files || (p in fs.dirs && !Occupied(fs, p))) && p !in fs.locked
    ensures r.1 == Removed ==> r.0 == Fs(fs.files - {p}, if p in fs.files then fs.dirs else fs.dirs - {p}, fs.locked)
    ensures r.1 != Removed ==> r.0 == fs
    ensures r.1 == NotExist <==> p !in fs.files && p !in fs.dirs
  {
    if p !in fs.files && p !in fs.dirs then (fs, NotExist)
    else if p in fs.locked then (fs, Denied)
    else if p in fs.files then (fs.(files := fs.files - {p}), Removed)
    else if Occupied(fs, p) then (fs, NotEmpty)
    else (fs.(dirs := fs.dirs - {p}), Removed)
  }

  /** One removal the deletion performed, for the record of what was attempted. */
  datatype Attempt = FileAttempt(path: Path, outcome: Outcome) | DirAttempt(path: Path, outcome: Outcome)

  /** The error DeleteFiles reports for one path: "remove <path>: <cause>". */
  datatype DeleteError = RemoveFailed(path: string, cause: Outcome)

  class FileSystem {
    var files: set<Path>
    var dirs: set<Path>
    const locked: set<Path>

    function State(): Fs
      reads this
    {
      Fs(files, dirs, locked)
    }

    constructor (files: set<Path>, dirs: set<Path>, locked: set<Path>)
      ensures State() == Fs(files, dirs, locked)
    {
      this.files, this.dirs, this.locked := files, dirs, locked;
    }

    /** os.Remove. */
    method Remove(p: Path) returns (outcome: Outcome)
      modifies this
      ensures (State(), outcome) == RemoveSpec(old(State()), p)
    {
      var r := RemoveSpec(State(), p);
      files, dirs := r.0.files, r.0.dirs;
      outcome := r.1;
    }
  }

  /**
   * cleanupParentDirectories as a specification: the removals the upward walk
   * from `dir` attempts and the tree it leaves.
   */
  function Cleanup(fs: Fs, dir: Path, stop: Path): (r: (Fs, seq<Attempt>))
    decreases |dir.parts|
  {
    if dir.parts == [] || !Inside(stop, dir) then (fs, [])
    else
      var (fs', outcome) := RemoveSpec(fs, dir);
      if outcome != Removed || dir == stop then (fs', [DirAttempt(dir, outcome)])
      else
        var rest := Cleanup(fs', Parent(dir), stop);
        (rest.0, [DirAttempt(dir, outcome)] + rest.1)
  }

  lemma CleanupStops(fs: Fs, dir: Path, stop: Path)
    requires dir.parts == [] || !Inside(stop, dir)
    ensures Cleanup(fs, dir, stop) == (fs, [])
  {
  }

  lemma CleanupStep(fs: Fs, dir: Path, stop: Path, fs': Fs, outcome: Outcome)
    requires dir.parts != [] && Inside(stop, dir)
    requires RemoveSpec(fs, dir) == (fs', outcome)
    ensures outcome != Removed || dir == stop ==> Cleanup(fs, dir, stop) == (fs', [DirAttempt(dir, outcome)])
    ensures outcome == Removed && dir != stop ==>
      Cleanup(fs, dir, stop) == (Cleanup(fs', Parent(dir), stop).0, [DirAttempt(dir, outcome)] + Cleanup(fs', Parent(dir), stop).1)
  {
  }

  method CleanupParentDirectories(fs: FileSystem, start: Path, stop: Path) returns (ghost done: seq<Attempt>)
    modifies fs
    ensures (fs.State(), done) == Cleanup(old(fs.State()), start, stop)
  {
    ghost var target := Cleanup(fs.State(), start, stop);
    done := [];
    var dir := start;
    assert [] + target.1 == target.1;
    while dir.parts != []
      invariant target.0 == Cleanup(fs.State(), dir, stop).0
      invariant target.1 == done + Cleanup(fs.State(), dir, stop).1
      decreases |dir.parts|
    {
      OutsideStopIff(stop, dir);
      if OutsideStop(stop, dir) {
        break;
      }
      ghost var before := fs.State();
      var outcome := fs.Remove(dir);
      ghost var a := DirAttempt(dir, outcome);
      if outcome != Removed || dir == stop {
        assert Cleanup(before, dir, stop) == (fs.State(), [a]) by {
          CleanupStep(before, dir, stop, fs.State(), outcome);
        }
        done := done + [a];
        return;
      }
      ghost var rest := Cleanup(fs.State(), Parent(dir), stop);
      assert Cleanup(before, dir, stop) == (rest.0, [a] + rest.1) by {
        CleanupStep(before, dir, stop, fs.State(), outcome);
      }
      assert done + ([a] + rest.1) == (done + [a]) + rest.1;
      done := done + [a];
      dir := Parent(dir);
    }
    CleanupStops(fs.State(), dir, stop);
    assert done + [] == done;
  }

  /** Whether DeleteFiles goes on to prune after an outcome: on success or a missing file. */
  predicate Prunes(outcome: Outcome) {
    outcome == Removed || outcome == NotExist
  }

  /** DeleteFiles as a specification, over the first paths of the session. */
  function Delete(fs: Fs, paths: seq<string>, stop: Path): (r: (Fs, seq<DeleteError>, seq<Attempt>))
  {
    if paths == [] then (fs, [], [])
    else
      var before := Delete(fs, paths[..|paths| - 1], stop);
      var path := paths[|paths| - 1];
      var (fs1, outcome) := RemoveSpec(before.0, PathOf(path));
      var tried := before.2 + [FileAttempt(PathOf(path), outcome)];
      if !Prunes(outcome) then (fs1, before.1 + [RemoveFailed(path, outcome)], tried)
      else
        var cleaned := Cleanup(fs1, DirOf(path), stop);
        (cleaned.0, before.1, tried + cleaned.1)
  }

  /**
   * DeleteFiles: removes every file of the session, collecting one error per
   * failed removal, and prunes above each file that is gone.  The root is
   * cleaned; filepath.Clean("") is ".", as PathOf gives.  `tried` records the
   * removals attempted, in order.
   */
  method DeleteFiles(sess: Session, sessionsRoot: string, fs: FileSystem)
    returns (errs: seq<DeleteError>, ghost tried: seq<Attempt>)
    modifies fs
    ensures (fs.State(), errs, tried) == Delete(old(fs.State()), sess.filePaths, PathOf(sessionsRoot))
  {
    var stop := PathOf(sessionsRoot);
    errs, tried := [], [];
    ghost var s0 := fs.State();
    assert sess.filePaths[..0] == [];
    for i := 0 to |sess.filePaths|
      invariant Delete(s0, sess.filePaths[..i], stop) == (fs.State(), errs, tried)
    {
      var path := sess.filePaths[i];
      assert sess.filePaths[..i + 1][..i] == sess.filePaths[..i];
      var outcome := fs.Remove(PathOf(path));
      tried := tried + [FileAttempt(PathOf(path), outcome)];
      if !Prunes(outcome) {
        errs := errs + [RemoveFailed(path, outcome)];
        continue;
      }
      ghost var pruned := CleanupParentDirectories(fs, DirOf(path), stop);
      tried := tried + pruned;
    }
    assert sess.filePaths[..|sess.filePaths|] == sess.filePaths;
  }

  /**
   * The upward walk: the i-th removal attempted is the directory i levels
   * above the start, and every attempt but the last succeeded on a directory
   * other than `stop` -- the walk ends at the first failure or at `stop`.
   */
  lemma {:induction false} CleanupWalk(fs: Fs, dir: Path, stop: Path)
    ensures var t := Cleanup(fs, dir, stop).1;
      |t| <= |dir.parts| &&
      (forall i :: 0 <= i < |t| ==> t[i].DirAttempt? && t[i].path == Up(dir, i)) &&
      (forall i :: 0 <= i < |t| - 1 ==> t[i].outcome == Removed && t[i].path != stop)
    decreases |dir.parts|
  {
    if dir.parts != [] && Inside(stop, dir) {
      var (fs', outcome) := RemoveSpec(fs, dir);
      if outcome == Removed && dir != stop {
        CleanupWalk(fs', Parent(dir), stop);
        var rest := Cleanup(fs', Parent(dir), stop).1;
        var t := [DirAttempt(dir, outcome)] + rest;
        assert Cleanup(fs, dir, stop).1 == t by {
          CleanupStep(fs, dir, stop, fs', outcome);
        }
        forall i | 0 < i < |t|
          ensures t[i].DirAttempt? && t[i].path == Up(dir, i)
        {
          assert t[i] == rest[i - 1];
          assert dir.parts[..|dir.parts| - 1][..|dir.parts| - 1 - (i - 1)] == dir.parts[..|dir.parts| - i];
        }
      } else {
        CleanupStep(fs, dir, stop, fs', outcome);
      }
    } else {
      CleanupStops(fs, dir, stop);
    }
  }

  /**
   * At the root the walk attempts one removal and ends, whatever its outcome;
   * the root goes exactly when the OS lets it be removed and it holds nothing.
   */
  lemma CleanupAtStop(fs: Fs, stop: Path)
    requires stop.parts != []
    ensures Cleanup(fs, stop, stop) == (RemoveSpec(fs, stop).0, [DirAttempt(stop, RemoveSpec(fs, stop).1)])
    ensures stop in fs.dirs && stop !in fs.files ==>
      (Cleanup(fs, stop, stop).1[0].outcome == Removed <==> stop !in fs.locked && !Occupied(fs, stop))
  {
  }

  /**
   * From any start, an attempt on the root is the walk's last one; a root
   * directory is gone afterwards exactly when that attempt removed it.
   */
  lemma {:induction false} CleanupStopIsLast(fs: Fs, dir: Path, stop: Path)
    ensures var (fs', t) := Cleanup(fs, dir, stop);
      forall i :: 0 <= i < |t| && t[i].path == stop ==>
        i == |t| - 1 &&
        (stop in fs.dirs && stop !in fs.files ==> (t[i].outcome == Removed <==> stop !in fs'.dirs))
    decreases |dir.parts|
  {
    if dir.parts != [] && Inside(stop, dir) {
      var (fs1, outcome) := RemoveSpec(fs, dir);
      CleanupStep(fs, dir, stop, fs1, outcome);
      if outcome == Removed && dir != stop {
        CleanupStopIsLast(fs1, Parent(dir), stop);
        var rest := Cleanup(fs1, Parent(dir), stop);
        var t := [DirAttempt(dir, outcome)] + rest.1;
        forall i | 0 < i < |t| ensures t[i] == rest.1[i - 1] {
        }
      }
    } else {
      CleanupStops(fs, dir, stop);
    }
  }

  /**
   * An instance of the two lemmas above: with `stop` holding nothing but the
   * directory `child`, itself empty, pruning from `child` removes both, and
   * tries nothing above `stop`.
   */
  lemma CleanupRemovesEmptyStopExample(stop: Path, name: string)
    requires stop.parts != [] && !HasDotDotPrefix(name)
    ensures var child := Path(stop.absolute, stop.parts + [name]);
      Cleanup(Fs({}, {stop, child}, {}), child, stop) ==
        (Fs({}, {}, {}), [DirAttempt(child, Removed), DirAttempt(stop, Removed)])
  {
    var child := Path(stop.absolute, stop.parts + [name]);
    var fs, fs1, fs2 := Fs({}, {stop, child}, {}), Fs({}, {stop}, {}), Fs({}, {}, {});
    assert stop != child by { assert |stop.parts| != |child.parts|; }
    assert Parent(child) == stop by { assert child.parts[..|child.parts| - 1] == stop.parts; }
    EmptyDirectory(fs, child);
    assert fs.dirs - {child} == fs1.dirs;
    assert RemoveSpec(fs, child) == (fs1, Removed);
    EmptyDirectory(fs1, stop);
    assert fs1.dirs - {stop} == fs2.dirs;
    assert RemoveSpec(fs1, stop) == (fs2, Removed);
    assert Inside(stop, child) by {
      assert child.parts[..|stop.parts|] == stop.parts;
    }
    assert Inside(stop, stop) by {
      assert stop.parts[..|stop.parts|] == stop.parts;
    }
    var a, b := DirAttempt(child, Removed), DirAttempt(stop, Removed);
    assert Cleanup(fs1, stop, stop) == (fs2, [b]) by {
      CleanupStep(fs1, stop, stop, fs2, Removed);
    }
    assert Cleanup(fs, child, stop) == (fs2, [a] + [b]) by {
      CleanupStep(fs, child, stop, fs1, Removed);
    }
    assert [a] + [b] == [a, b];
  }

  /** A directory is empty when no file exists and no directory is deeper than it. */
  lemma EmptyDirectory(fs: Fs, d: Path)
    requires fs.files == {} && forall e :: e in fs.dirs ==> |e.parts| <= |d.parts|
    ensures !Occupied(fs, d)
  {
    forall e | e in fs.dirs && e.parts != [] ensures Parent(e) != d {
      assert |Parent(e).parts| < |d.parts|;
    }
  }

  /** The walk never leaves the root: every directory it tries to remove lies inside `stop`. */
  lemma {:induction false} CleanupStaysInside(fs: Fs, dir: Path, stop: Path)
    ensures forall a :: a in Cleanup(fs, dir, stop).1 ==> Inside(stop, a.path) && Within(stop, a.path)
    decreases |dir.parts|
  {
    if dir.parts != [] && Inside(stop, dir) {
      var (fs', outcome) := RemoveSpec(fs, dir);
      CleanupStep(fs, dir, stop, fs', outcome);
      if outcome == Removed && dir != stop {
        CleanupStaysInside(fs', Parent(dir), stop);
      }
    } else {
      CleanupStops(fs, dir, stop);
    }
  }

  /**
   * Pruning only removes: the tree shrinks, and whatever left it was the
   * subject of a successful attempt.
   */
  lemma {:induction false} CleanupShrinks(fs: Fs, dir: Path, stop: Path)
    ensures var (fs', t) := Cleanup(fs, dir, stop);
      fs'.files <= fs.files && fs'.dirs <= fs.dirs && fs'.locked == fs.locked &&
      forall q :: (q in fs.files && q !in fs'.files) || (q in fs.dirs && q !in fs'.dirs) ==> DirAttempt(q, Removed) in t
    decreases |dir.parts|
  {
    if dir.parts != [] && Inside(stop, dir) {
      var (fs1, outcome) := RemoveSpec(fs, dir);
      if outcome == Removed && dir != stop {
        CleanupShrinks(fs1, Parent(dir), stop);
      }
    }
  }

  /** The removals DeleteFiles attempts on files: one per path of the session, in order. */
  function FileTargets(t: seq<Attempt>): (r: seq<Path>)
    ensures |r| <= |t|
  {
    if t == [] then []
    else FileTargets(t[..|t| - 1]) + (if t[|t| - 1].FileAttempt? then [t[|t| - 1].path] else [])
  }

  lemma {:induction false} FileTargetsAppend(a: seq<Attempt>, b: seq<Attempt>)
    ensures FileTargets(a + b) == FileTargets(a) + FileTargets(b)
    decreases |b|
  {
    if b == [] {
      assert a + b == a;
    } else {
      assert (a + b)[..|a + b| - 1] == a + b[..|b| - 1];
      assert (a + b)[|a + b| - 1] == b[|b| - 1];
      FileTargetsAppend(a, b[..|b| - 1]);
    }
  }

  lemma {:induction false} FileTargetsOfDirs(t: seq<Attempt>)
    requires forall i :: 0 <= i < |t| ==> t[i].DirAttempt?
    ensures FileTargets(t) == []
  {
    if t != [] {
      FileTargetsOfDirs(t[..|t| - 1]);
    }
  }

  /** Every path of the session is tried, in order, whatever happened to the ones before it. */
  lemma {:induction false} DeleteTriesEveryPath(fs: Fs, paths: seq<string>, stop: Path)
    ensures var t := Delete(fs, paths, stop).2;
      |FileTargets(t)| == |paths| && forall i :: 0 <= i < |paths| ==> FileTargets(t)[i] == PathOf(paths[i])
  {
    if paths != [] {
      var init := paths[..|paths| - 1];
      var path := paths[|paths| - 1];
      DeleteTriesEveryPath(fs, init, stop);
      var before := Delete(fs, init, stop);
      var (fs1, outcome) := RemoveSpec(before.0, PathOf(path));
      var attempt := FileAttempt(PathOf(path), outcome);
      var tried := before.2 + [attempt];
      FileTargetsAppend(before.2, [attempt]);
      assert FileTargets([attempt]) == [PathOf(path)] by {
        assert [attempt][..0] == [];
      }
      var t := Delete(fs, paths, stop).2;
      if Prunes(outcome) {
        var cleaned := Cleanup(fs1, DirOf(path), stop);
        CleanupWalk(fs1, DirOf(path), stop);
        FileTargetsOfDirs(cleaned.1);
        FileTargetsAppend(tried, cleaned.1);
        assert t == tried + cleaned.1;
      } else {
        assert t == tried;
      }
      var prev := FileTargets(before.2);
      assert FileTargets(t) == prev + [PathOf(path)];
      forall i | 0 <= i < |paths| ensures FileTargets(t)[i] == PathOf(paths[i]) {
        if i < |init| {
          assert FileTargets(t)[i] == prev[i] && paths[i] == init[i];
        }
      }
    }
  }

  /** Every directory DeleteFiles prunes lies inside the sessions root. */
  lemma {:induction false} DeletePrunesInsideRoot(fs: Fs, paths: seq<string>, stop: Path)
    ensures forall a :: a in Delete(fs, paths, stop).2 && a.DirAttempt? ==> Within(stop, a.path)
  {
    if paths != [] {
      var init := paths[..|paths| - 1];
      var path := paths[|paths| - 1];
      DeletePrunesInsideRoot(fs, init, stop);
      var before := Delete(fs, init, stop);
      var (fs1, outcome) := RemoveSpec(before.0, PathOf(path));
      if Prunes(outcome) {
        CleanupStaysInside(fs1, DirOf(path), stop);
      }
    }
  }

  /** DeleteFiles only removes, and never touches what the OS refuses to remove. */
  lemma {:induction false} DeleteShrinks(fs: Fs, paths: seq<string>, stop: Path)
    ensures var fs' := Delete(fs, paths, stop).0;
      fs'.files <= fs.files && fs'.dirs <= fs.dirs && fs'.locked == fs.locked &&
      fs.locked * fs.files <= fs'.files && fs.locked * fs.dirs <= fs'.dirs
  {
    if paths != [] {
      var init := paths[..|paths| - 1];
      var path := paths[|paths| - 1];
      DeleteShrinks(fs, init, stop);
      var before := Delete(fs, init, stop);
      var (fs1, outcome) := RemoveSpec(before.0, PathOf(path));
      if Prunes(outcome) {
        CleanupShrinks(fs1, DirOf(path), stop);
        CleanupLocked(fs1, DirOf(path), stop);
      }
    }
  }

  lemma {:induction false} CleanupLocked(fs: Fs, dir: Path, stop: Path)
    ensures var fs' := Cleanup(fs, dir, stop).0;
      fs.locked * fs.files <= fs'.files && fs.locked * fs.dirs <= fs'.dirs
    decreases |dir.parts|
  {
    if dir.parts != [] && Inside(stop, dir) {
      var (fs1, outcome) := RemoveSpec(fs, dir);
      if outcome == Removed && dir != stop {
        CleanupLocked(fs1, Parent(dir), stop);
        CleanupShrinks(fs1, Parent(dir), stop);
      }
    }
  }

  /** The removals DeleteFiles attempts on files, with their outcomes, in order. */
  function FileAttempts(t: seq<Attempt>): (r: seq<Attempt>)
    ensures |r| <= |t|
    ensures forall i :: 0 <= i < |r| ==> r[i].FileAttempt?
  {
    if t == [] then []
    else FileAttempts(t[..|t| - 1]) + (if t[|t| - 1].FileAttempt? then [t[|t| - 1]] else [])
  }

  lemma {:induction false} FileAttemptsAppend(a: seq<Attempt>, b: seq<Attempt>)
    ensures FileAttempts(a + b) == FileAttempts(a) + FileAttempts(b)
    decreases |b|
  {
    if b == [] {
      assert a + b == a;
    } else {
      assert (a + b)[..|a + b| - 1] == a + b[..|b| - 1];
      assert (a + b)[|a + b| - 1] == b[|b| - 1];
      FileAttemptsAppend(a, b[..|b| - 1]);
    }
  }

  lemma {:induction false} FileAttemptsOfDirs(t: seq<Attempt>)
    requires forall i :: 0 <= i < |t| ==> t[i].DirAttempt?
    ensures FileAttempts(t) == []
  {
    if t != [] {
      FileAttemptsOfDirs(t[..|t| - 1]);
    }
  }

  /**
   * The errors for file attempts `fa` on `paths`: one per attempt that neither
   * removed the file nor found it missing, in order, naming its path and cause.
   */
  function FailuresOf(paths: seq<string>, fa: seq<Attempt>): (errs: seq<DeleteError>)
    requires |paths| == |fa|
    ensures errs == [] <==> forall i :: 0 <= i < |fa| ==> Prunes(fa[i].outcome)
  {
    if paths == [] then []
    else
      var n := |paths| - 1;
      var init := FailuresOf(paths[..n], fa[..n]);
      assert forall i :: 0 <= i < n ==> fa[..n][i] == fa[i];
      init + (if !Prunes(fa[n].outcome) then [RemoveFailed(paths[n], fa[n].outcome)] else [])
  }

  /** What one more path adds to the file attempts and to the errors. */
  lemma DeleteStep(fs: Fs, paths: seq<string>, stop: Path)
    requires paths != []
    ensures var before := Delete(fs, paths[..|paths| - 1], stop);
      var path := paths[|paths| - 1];
      var outcome := RemoveSpec(before.0, PathOf(path)).1;
      var d := Delete(fs, paths, stop);
      FileAttempts(d.2) == FileAttempts(before.2) + [FileAttempt(PathOf(path), outcome)] &&
      d.1 == before.1 + (if !Prunes(outcome) then [RemoveFailed(path, outcome)] else [])
  {
    var before := Delete(fs, paths[..|paths| - 1], stop);
    var path := paths[|paths| - 1];
    var (fs1, outcome) := RemoveSpec(before.0, PathOf(path));
    var a := FileAttempt(PathOf(path), outcome);
    var tried := before.2 + [a];
    FileAttemptsAppend(before.2, [a]);
    assert FileAttempts([a]) == [a] by {
      assert [a][..0] == [];
    }
    if Prunes(outcome) {
      var cleaned := Cleanup(fs1, DirOf(path), stop);
      CleanupWalk(fs1, DirOf(path), stop);
      FileAttemptsOfDirs(cleaned.1);
      FileAttemptsAppend(tried, cleaned.1);
    }
  }

  /**
   * `errs` is the error list for the file attempts `fa` on `paths`: the i-th
   * attempt is on the i-th path, and the errors are FailuresOf the attempts.
   */
  predicate ReportsFailures(paths: seq<string>, fa: seq<Attempt>, errs: seq<DeleteError>) {
    |fa| == |paths| &&
    (forall i :: 0 <= i < |paths| ==> fa[i].path == PathOf(paths[i])) &&
    errs == FailuresOf(paths, fa)
  }

  /** One more file attempt on one more path extends the errors by that attempt's failure, if any. */
  lemma FailuresSnoc(paths: seq<string>, fa: seq<Attempt>, errs: seq<DeleteError>, path: string, outcome: Outcome)
    requires ReportsFailures(paths, fa, errs)
    ensures ReportsFailures(paths + [path], fa + [FileAttempt(PathOf(path), outcome)],
      errs + (if !Prunes(outcome) then [RemoveFailed(path, outcome)] else []))
  {
    var fa' := fa + [FileAttempt(PathOf(path), outcome)];
    var paths' := paths + [path];
    assert fa'[..|fa|] == fa && paths'[..|paths|] == paths;
  }

  /**
   * The error DeleteFiles returns is exactly one error per failed removal, in
   * path order: the i-th file attempt is on the i-th path, and the errors are
   * FailuresOf those attempts.  So no error is reported iff every file was
   * removed or already missing.
   */
  lemma {:induction false} DeleteErrorsMatchFailures(fs: Fs, paths: seq<string>, stop: Path)
    ensures ReportsFailures(paths, FileAttempts(Delete(fs, paths, stop).2), Delete(fs, paths, stop).1)
  {
    if paths != [] {
      var init, path := paths[..|paths| - 1], paths[|paths| - 1];
      assert paths == init + [path];
      DeleteErrorsMatchFailures(fs, init, stop);
      DeleteReportsStep(fs, init, path, stop);
    }
  }

  lemma DeleteReportsStep(fs: Fs, init: seq<string>, path: string, stop: Path)
    requires ReportsFailures(init, FileAttempts(Delete(fs, init, stop).2), Delete(fs, init, stop).1)
    ensures ReportsFailures(init + [path], FileAttempts(Delete(fs, init + [path], stop).2), Delete(fs, init + [path], stop).1)
  {
    var paths := init + [path];
    assert paths[..|paths| - 1] == init;
    DeleteStep(fs, paths, stop);
    var before := Delete(fs, init, stop);
    FailuresSnoc(init, FileAttempts(before.2), before.1, path, RemoveSpec(before.0, PathOf(path)).1);
  }

  /** The positions of the attempts that failed, in increasing order. */
  function FailedIndices(fa: seq<Attempt>): (ix: seq<nat>)
    ensures forall j :: 0 <= j < |ix| ==> ix[j] < |fa| && !Prunes(fa[ix[j]].outcome)
    ensures forall j, k :: 0 <= j < k < |ix| ==> ix[j] < ix[k]
    ensures forall i :: 0 <= i < |fa| && !Prunes(fa[i].outcome) ==> i in ix
  {
    if fa == [] then []
    else FailedIndices(fa[..|fa| - 1]) + (if !Prunes(fa[|fa| - 1].outcome) then [|fa| - 1] else [])
  }

  /** The j-th error is the failure of the j-th failed attempt, on that attempt's path. */
  lemma {:induction false} FailuresAt(paths: seq<string>, fa: seq<Attempt>)
    requires |paths| == |fa|
    ensures var errs, ix := FailuresOf(paths, fa), FailedIndices(fa);
      |errs| == |ix| &&
      forall j :: 0 <= j < |ix| ==> errs[j] == RemoveFailed(paths[ix[j]], fa[ix[j]].outcome)
  {
    if paths != [] {
      var n := |paths| - 1;
      var ps, fs := paths[..n], fa[..n];
      FailuresAt(ps, fs);
      var prev, prevIx := FailuresOf(ps, fs), FailedIndices(fs);
      var errs, ix := FailuresOf(paths, fa), FailedIndices(fa);
      var failed := !Prunes(fa[n].outcome);
      assert errs == prev + (if failed then [RemoveFailed(paths[n], fa[n].outcome)] else []);
      assert ix == prevIx + (if failed then [n] else []);
      forall j | 0 <= j < |ix| ensures errs[j] == RemoveFailed(paths[ix[j]], fa[ix[j]].outcome) {
        if j < |prevIx| {
          var i := prevIx[j];
          assert ix[j] == i && errs[j] == prev[j];
          assert ps[i] == paths[i] && fs[i] == fa[i];
        }
      }
    }
  }

  /**
   * `errs` lists, for each failed attempt of `fa` in order, the failure of
   * that attempt on its path of `paths`, which the attempt was made on.
   */
  predicate ErrorsAtFailures(paths: seq<string>, fa: seq<Attempt>, errs: seq<DeleteError>) {
    var ix := FailedIndices(fa);
    |fa| == |paths| && |ix| == |errs| &&
    forall j :: 0 <= j < |ix| ==>
      ix[j] < |paths| && fa[ix[j]].path == PathOf(paths[ix[j]]) &&
      errs[j] == RemoveFailed(paths[ix[j]], fa[ix[j]].outcome)
  }

  lemma ReportsAtFailures(paths: seq<string>, fa: seq<Attempt>, errs: seq<DeleteError>)
    requires ReportsFailures(paths, fa, errs)
    ensures ErrorsAtFailures(paths, fa, errs)
  {
    FailuresAt(paths, fa);
  }

  /**
   * Every reported error is the failure of one attempt on a path of the
   * session: the j-th error belongs to the j-th failed attempt (FailedIndices
   * are distinct and in path order), and each failed for a reason other than
   * not-exist.
   */
  lemma {:induction false} DeleteErrorsAreFailures(fs: Fs, paths: seq<string>, stop: Path)
    ensures var errs := Delete(fs, paths, stop).1;
      |errs| <= |paths| &&
      forall j :: 0 <= j < |errs| ==> errs[j].path in paths && (errs[j].cause == NotEmpty || errs[j].cause == Denied)
    ensures ErrorsAtFailures(paths, FileAttempts(Delete(fs, paths, stop).2), Delete(fs, paths, stop).1)
  {
    if paths != [] {
      DeleteErrorsAreFailures(fs, paths[..|paths| - 1], stop);
    }
    DeleteErrorsMatchFailures(fs, paths, stop);
    ReportsAtFailures(paths, FileAttempts(Delete(fs, paths, stop).2), Delete(fs, paths, stop).1);
  }

  /**
   * A path of the session that is still a file afterwards is reported: the
   * deletion never fails silently.
   */
  lemma {:induction false} DeleteReportsSurvivors(fs: Fs, paths: seq<string>, stop: Path)
    ensures var (fs', errs, _) := Delete(fs, paths, stop);
      forall i :: 0 <= i < |paths| && PathOf(paths[i]) in fs'.files ==>
        exists j :: 0 <= j < |errs| && errs[j].path == paths[i]
  {
    if paths != [] {
      var init := paths[..|paths| - 1];
      var path := paths[|paths| - 1];
      DeleteReportsSurvivors(fs, init, stop);
      var before := Delete(fs, init, stop);
      var (fs1, outcome) := RemoveSpec(before.0, PathOf(path));
      var (fs', errs, _) := Delete(fs, paths, stop);
      if Prunes(outcome) {
        CleanupShrinks(fs1, DirOf(path), stop);
      }
      forall i | 0 <= i < |paths| && PathOf(paths[i]) in fs'.files
        ensures exists j :: 0 <= j < |errs| && errs[j].path == paths[i]
      {
        if i < |init| {
          assert init[i] == paths[i];
          var j :| 0 <= j < |before.1| && before.1[j].path == init[i];
          assert errs[j] == before.1[j];
        } else {
          assert errs[|errs| - 1].path == path;
        }
      }
    }
  }

  /**
   * The usual case: when no path of the session is a directory or locked,
   * DeleteFiles reports no error (a missing file is not one).
   */
  lemma {:induction false} DeleteSucceeds(fs: Fs, paths: seq<string>, stop: Path)
    requires forall i :: 0 <= i < |paths| ==> PathOf(paths[i]) !in fs.dirs && PathOf(paths[i]) !in fs.locked
    ensures Delete(fs, paths, stop).1 == []
  {
    if paths != [] {
      var init := paths[..|paths| - 1];
      DeleteSucceeds(fs, init, stop);
      DeleteShrinks(fs, init, stop);
    }
  }
}
