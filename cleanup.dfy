/**
 * The file service's cleanup entry points: the per-file `cleanup_task` the converter
 * queues for its temporary audio file, and `run_scheduled_cleanup`, which runs the sweep
 * of the temporary directory and then the sweep of the output directory.
 */
module Cleanup {
  import opened Wrappers
  import opened Text
  import opened Disk
  import opened TaskStore
  import opened Storage

  // ---------------------------------------------------------------- cleanup_task

  /** The dictionary `cleanup_task` returns. */
  datatype CleanupResult =
    | FileRemoved(path: string)
    | AlreadyCleaned
    | CleanupFailed(error: string)
  {
    /** The `"success"` entry. */
    predicate Success() {
      !CleanupFailed?
    }
  }

  const AlreadyCleanedMessage := "File not found (already cleaned up)"

  /**
   * `cleanup_task(task_id, file_path)` against `files`: a file that is there is removed,
   * one that is not is reported as already cleaned up, and a removal that raises is
   * reported with `reason`, the text of the exception.
   */
  function CleanupOf(files: map<string, FileEntry>, undeletable: set<string>, path: string, reason: string): (r: CleanupResult)
    ensures r.Success() <==> path !in files || path !in undeletable
    ensures r.FileRemoved? <==> path in files && path !in undeletable
    ensures r.FileRemoved? ==> r.path == path
    ensures r.CleanupFailed? ==> StartsWith(r.error, "Error cleaning up file " + path)
  {
    if path !in files then AlreadyCleaned
    else if path in undeletable then
      StartsWithAppend("Error cleaning up file " + path, ": ", reason);
      CleanupFailed("Error cleaning up file " + path + ": " + reason)
    else FileRemoved(path)
  }

  /** The files left after `cleanup_task`. */
  function CleanupLeaves(files: map<string, FileEntry>, undeletable: set<string>, path: string): (left: map<string, FileEntry>)
    ensures path in left <==> path in files && path in undeletable
    ensures forall p :: p != path ==> (p in left <==> p in files)
    ensures forall p :: p in left ==> left[p] == files[p]
  {
    if path in files && path !in undeletable then files - {path} else files
  }

  /** The Celery task `cleanup_task`; `reason` stands for the exception `os.remove` would raise. */
  method CleanupTask(fs: FileSystem, taskId: string, path: string, reason: string) returns (r: CleanupResult)
    modifies fs
    ensures r == CleanupOf(old(fs.files), old(fs.undeletable), path, reason)
    ensures fs.files == CleanupLeaves(old(fs.files), old(fs.undeletable), path)
    ensures fs.undeletable == old(fs.undeletable)
  {
    if fs.Exists(path) {
      var ok := fs.Remove(path);
      if ok {
        r := FileRemoved(path);
      } else {
        r := CleanupFailed("Error cleaning up file " + path + ": " + reason);
      }
    } else {
      r := AlreadyCleaned;
    }
  }

  /**
   * Running `cleanup_task` twice for the same file: the second run reports the file as
   * already cleaned up after a removal, repeats the same failure otherwise, and removes
   * nothing more.
   */
  lemma CleanupIdempotent(files: map<string, FileEntry>, undeletable: set<string>, path: string, reason: string)
    ensures var left := CleanupLeaves(files, undeletable, path);
      CleanupOf(left, undeletable, path, reason)
        == (if CleanupOf(files, undeletable, path, reason).CleanupFailed? then CleanupOf(files, undeletable, path, reason)
            else AlreadyCleaned)
      && CleanupLeaves(left, undeletable, path) == left
  {
  }

  // ---------------------------------------------------------------- run_scheduled_cleanup

  /** The dictionary `run_scheduled_cleanup` returns. */
  datatype CleanupReport = CleanupReport(tempFilesRemoved: nat, tempBytesFreed: nat,
                                         outputFilesRemoved: nat, outputBytesFreed: nat)

  /** The temporary sweep of a scheduled run, over the paths the walk of the temporary directory yields. */
  function TempSweep(files: map<string, FileEntry>, tempPaths: seq<string>, undeletable: set<string>, now: int): Sweep {
    SweepOf(files, tempPaths, undeletable, now - TempMaxAge, false)
  }

  /** The output sweep of a scheduled run, over what the temporary sweep has left. */
  function OutputAfterTemp(files: map<string, FileEntry>, tempPaths: seq<string>, names: seq<string>,
                           undeletable: set<string>, now: int): OutputSweep
  {
    OutputSweepOf(TempSweep(files, tempPaths, undeletable, now).files, names, undeletable, now - FileRetention)
  }

  /**
   * `run_scheduled_cleanup()`, with `tempPaths` the files the walk of the temporary
   * directory yields and `names` the listing of the output directory, both sweeps
   * reading the clock at the same instant `now`.
   */
  method RunScheduledCleanup(store: TaskStoreServer, fs: FileSystem, tempPaths: seq<string>, names: seq<string>, now: int)
    returns (report: CleanupReport)
    modifies store, fs
    ensures var t := TempSweep(old(fs.files), tempPaths, fs.undeletable, now);
      var o := OutputAfterTemp(old(fs.files), tempPaths, names, fs.undeletable, now);
      fs.files == o.sweep.files
      && report == CleanupReport(|t.gone|, t.freed, |o.sweep.gone|, o.sweep.freed)
      && store.State() == ExpireAll(old(store.State()), o.expired, now)
    ensures fs.undeletable == old(fs.undeletable)
  {
    var tempRemoved, tempFreed := CleanupTempFiles(fs, tempPaths, now);
    var outputRemoved, outputFreed := ScheduledCleanup(store, fs, names, now);
    report := CleanupReport(tempRemoved, tempFreed, outputRemoved, outputFreed);
  }

  /**
   * The temporary sweep walks the output directory too, since it lies inside the
   * temporary one: a published file unmodified for a day is removed by it, long before
   * its retention window is over.
   */
  lemma TempSweepTakesOutputFiles(files: map<string, FileEntry>, tempPaths: seq<string>, undeletable: set<string>,
                                  now: int, name: string)
    requires Join(StorageDir, name) in tempPaths && Join(StorageDir, name) in files
    requires Join(StorageDir, name) !in undeletable && files[Join(StorageDir, name)].mtime < now - TempMaxAge
    ensures var t := TempSweep(files, tempPaths, undeletable, now);
      Join(StorageDir, name) in t.gone && Join(StorageDir, name) !in t.files
  {
    SweepRemovesStale(files, tempPaths, undeletable, now - TempMaxAge, false);
  }

  /** A file the temporary sweep left is not past the output retention window. */
  lemma SurvivorIsFresh(files: map<string, FileEntry>, tempPaths: seq<string>, undeletable: set<string>, now: int, p: string)
    requires p in tempPaths
    requires SweepAccounts(files, tempPaths, undeletable, now - TempMaxAge, false, TempSweep(files, tempPaths, undeletable, now))
    ensures !Removable(TempSweep(files, tempPaths, undeletable, now).files, [p], undeletable, now - FileRetention, true, p)
  {
    var t := TempSweep(files, tempPaths, undeletable, now);
    if p in t.files && p !in undeletable {
      assert t.files[p] == files[p];
      assert !Stale(files[p], now - TempMaxAge, false);
    }
  }

  /**
   * When the walk of the temporary directory lists every output file, the output sweep of
   * the same run finds nothing left to remove: it frees nothing and marks no task expired.
   */
  lemma {:induction false} OutputSweepFindsNothing(files: map<string, FileEntry>, tempPaths: seq<string>, names: seq<string>,
                                                   undeletable: set<string>, now: int)
    requires forall i :: 0 <= i < |names| ==> Join(StorageDir, names[i]) in tempPaths
    ensures var o := OutputAfterTemp(files, tempPaths, names, undeletable, now);
      o.sweep == Sweep(TempSweep(files, tempPaths, undeletable, now).files, [], 0) && o.expired == []
  {
    var t := TempSweep(files, tempPaths, undeletable, now);
    var ps := OutputPaths(names);
    SweepRemovesStale(files, tempPaths, undeletable, now - TempMaxAge, false);
    forall i | 0 <= i < |ps|
      ensures !Removable(t.files, ps, undeletable, now - FileRetention, true, ps[i])
    {
      SurvivorIsFresh(files, tempPaths, undeletable, now, ps[i]);
    }
    SweepOfNothing(t.files, ps, undeletable, now - FileRetention, true);
    OutputSweepIsSweep(t.files, names, undeletable, now - FileRetention);
    ExpiredAtMostGone(t.files, names, undeletable, now - FileRetention);
  }

  // ---------------------------------------------------------------- a temporary sweep that spares the output

  const OutputPrefix := StorageDir + "/"

  /** The walk of the temporary directory without the output directory below it. */
  function WorkingPaths(paths: seq<string>): (ws: seq<string>)
    ensures forall q :: q in ws <==> q in paths && !StartsWith(q, OutputPrefix)
    decreases |paths|
  {
    if |paths| == 0 then []
    else
      var init := WorkingPaths(paths[..|paths| - 1]);
      var last := paths[|paths| - 1];
      assert forall q :: q in paths <==> q in paths[..|paths| - 1] || q == last;
      if StartsWith(last, OutputPrefix) then init else init + [last]
  }

  /** Every listed output file lies under the output directory. */
  lemma OutputPathUnder(name: string)
    requires |name| == 0 || name[0] != '/'
    ensures StartsWith(Join(StorageDir, name), OutputPrefix)
  {
    StartsWithAppend(OutputPrefix, name, "");
  }

  /**
   * With the output directory left out of the temporary sweep, every output file is there
   * for the output sweep as it was, and that sweep removes exactly the output files past
   * their retention window.
   */
  lemma WorkingSweepKeepsRetention(files: map<string, FileEntry>, tempPaths: seq<string>, names: seq<string>,
                                   undeletable: set<string>, now: int)
    requires forall i :: 0 <= i < |names| ==> |names[i]| == 0 || names[i][0] != '/'
    ensures var t := TempSweep(files, WorkingPaths(tempPaths), undeletable, now);
      forall i :: 0 <= i < |names| && Join(StorageDir, names[i]) in files ==>
        Join(StorageDir, names[i]) in t.files && t.files[Join(StorageDir, names[i])] == files[Join(StorageDir, names[i])]
    ensures var o := OutputAfterTemp(files, WorkingPaths(tempPaths), names, undeletable, now);
      forall p :: p in o.sweep.gone <==> Removable(files, OutputPaths(names), undeletable, now - FileRetention, true, p)
  {
    var ws := WorkingPaths(tempPaths);
    var t := TempSweep(files, ws, undeletable, now);
    var ps := OutputPaths(names);
    SweepRemovesStale(files, ws, undeletable, now - TempMaxAge, false);
    forall i | 0 <= i < |names|
      ensures Join(StorageDir, names[i]) !in ws
    {
      OutputPathUnder(names[i]);
    }
    forall p | p in ps
      ensures p in files ==> p in t.files && t.files[p] == files[p]
    {
      var i :| 0 <= i < |ps| && ps[i] == p;
      assert p == Join(StorageDir, names[i]);
    }
    OutputSweepIsSweep(t.files, names, undeletable, now - FileRetention);
    SweepRemovesStale(t.files, ps, undeletable, now - FileRetention, true);
  }
}
