/**
 * The anti-bot variant of the download stage (backend/download_service/utils_new.py):
 * an artifact validator that rejects saved web pages, and `download_audio`, which tries
 * four yt-dlp client emulations in a fixed order until one exits with code 0, then picks
 * and validates the downloaded file, writing its progress to the task record throughout.
 */
module StrategyDownload {
  import opened Wrappers
  import opened Text
  import opened Disk
  import opened TaskStore
  import opened DownloadFiles
  import opened DownloadProgress

  // ---------------------------------------------------------------- validation

  const MhtmlIndicators: seq<string> :=
    ["MIME-Version:", "Content-Type: multipart/related", "Content-Location:", "--boundary", "text/html"]

  const HtmlIndicators: seq<string> := ["<html", "<HTML", "<!DOCTYPE", "<head>", "<body>"]

  /** The first 1024 bytes, decoded as UTF-8 with undecodable bytes dropped. */
  function Header(f: FileEntry): string {
    DecodeUtf8Ignore(Head(f, 1024))
  }

  predicate ContainsAny(s: string, markers: seq<string>) {
    exists i :: 0 <= i < |markers| && Contains(s, markers[i])
  }

  /**
   * `is_valid_audio_file`: the file exists, has at least 1024 bytes, and its header holds
   * none of the MHTML or HTML indicators, matched case-sensitively.
   */
  predicate IsValidAudioFile(file: Option<FileEntry>) {
    file.Some? && file.value.Size() >= 1024
    && !ContainsAny(Header(file.value), MhtmlIndicators)
    && !ContainsAny(Header(file.value), HtmlIndicators)
  }

  /**
   * Nothing beyond the first 1024 bytes matters, and neither do the path or any audio
   * signature: two files of at least 1024 bytes that begin alike get the same verdict.
   */
  lemma VerdictDependsOnHeaderOnly(f: FileEntry, g: FileEntry)
    requires f.Size() >= 1024 && g.Size() >= 1024
    requires f.contents[..1024] == g.contents[..1024]
    ensures IsValidAudioFile(Some(f)) == IsValidAudioFile(Some(g))
  {
    assert Head(f, 1024) == Head(g, 1024);
  }

  /** A file with one of the indicators in its header is rejected, however large. */
  lemma IndicatorRejects(f: FileEntry, i: nat)
    requires i < |MhtmlIndicators| + |HtmlIndicators|
    requires i < |MhtmlIndicators| ==> Contains(Header(f), MhtmlIndicators[i])
    requires i >= |MhtmlIndicators| ==> Contains(Header(f), HtmlIndicators[i - |MhtmlIndicators|])
    ensures !IsValidAudioFile(Some(f))
  {
    if i >= |MhtmlIndicators| {
      assert ContainsAny(Header(f), HtmlIndicators);
    } else {
      assert ContainsAny(Header(f), MhtmlIndicators);
    }
  }

  // ---------------------------------------------------------------- the progress hook

  const UnknownError := "Unknown download error"

  /**
   * The write `ProgressHook.__call__` makes for one event: downloading progress in the
   * 10-50 band, 50 once the transfer is finished, a failure with progress 0, and
   * nothing for any other status.
   */
  function HookPatch(e: HookEvent): (p: Option<Patch>)
  {
    match e
    case Progress(_, _, _, _, _) => Some(DownloadingPatch(e))
    case Finish =>
      Some(Patch(status := Some(TaskStatus.Downloading), progress := Some(50.0),
                 message := Some("Download completed, processing...")))
    case Failure(error) =>
      var msg := error.GetOr(UnknownError);
      Some(Patch(status := Some(Failed), progress := Some(0.0), message := Some("Download failed: " + msg),
                 error := Some(msg)))
    case OtherStatus => None
  }

  /**
   * Every write the hook makes leaves the record consistent: failed at progress 0, or
   * downloading within the 10-50 band of the download stage while the byte counts stay
   * within their size; and it writes exactly when the status is one it knows.
   */
  lemma HookWritesInBand(e: HookEvent)
    requires e.Progress? && e.downloaded.Some? && Denominator(e.total, e.estimate).Some? ==>
      e.downloaded.value <= Denominator(e.total, e.estimate).value
    ensures HookPatch(e).None? <==> e.OtherStatus?
    ensures HookPatch(e).Some? ==>
      var p := HookPatch(e).value;
      (p.status == Some(Failed) && p.progress == Some(0.0) && p.error.Some?)
      || (p.status == Some(TaskStatus.Downloading) && p.progress.Some?
          && 10.0 <= p.progress.value <= 50.0 && p.error.None?)
  {
    if e.Progress? {
      ProgressInBand(e);
    }
  }

  /**
   * The hook object: the task it reports on and the `time.time()` reading taken when it
   * was made. The hook is defined for yt-dlp's Python interface, but `DownloadAudio`
   * runs the yt-dlp command line once per strategy and never installs one, so its
   * writes are not part of that run.
   */
  class ProgressHook {
    var taskId: string
    var startTime: real

    constructor (taskId: string, clock: real)
      ensures this.taskId == taskId && startTime == clock
    {
      this.taskId := taskId;
      startTime := clock;
    }

    /** `__call__(d)`: writes the event's patch to the task record, if it has one. */
    method Call(store: TaskStoreServer, e: HookEvent, now: int)
      modifies store
      ensures store.State() ==
        match HookPatch(e)
        case None => old(store.State())
        case Some(p) => Update(old(store.State()), taskId, p, now)
    {
      match e {
        case Progress(_, _, _, _, _) =>
          store.UpdateTask(taskId, DownloadingPatch(e), now);
        case Finish =>
          store.UpdateTask(taskId, Patch(status := Some(TaskStatus.Downloading), progress := Some(50.0),
                                         message := Some("Download completed, processing...")), now);
        case Failure(error) =>
          var msg := error.GetOr(UnknownError);
          store.UpdateTask(taskId, Patch(status := Some(Failed), progress := Some(0.0),
                                         message := Some("Download failed: " + msg), error := Some(msg)), now);
        case OtherStatus =>
      }
    }
  }

  // ---------------------------------------------------------------- the plan of a run

  const StrategyNames: seq<string> := ["iOS Client", "Android TV Client", "Android Mobile", "Basic Fallback"]

  const InitPatch := Patch(status := Some(Downloading), progress := Some(10.0), message := Some("Initializing download..."))
  const StartPatch := Patch(status := Some(Downloading), progress := Some(20.0), message := Some("Starting VPS-optimized download..."))
  const LocatingPatch := Patch(status := Some(Downloading), progress := Some(60.0), message := Some("Download completed, locating file..."))
  const DonePatch := Patch(status := Some(Downloading), progress := Some(80.0), message := Some("Download completed successfully!"))

  /** The write made before strategy `n` (counted from 1) runs. */
  function AttemptPatch(n: nat): (p: Patch)
    requires 1 <= n <= 4
    ensures p.progress == Some((15 + 8 * n) as real)
  {
    Patch(status := Some(Downloading), progress := Some((15 + 8 * n) as real),
          message := Some("Trying " + StrategyNames[n - 1] + " strategy (" + NatToText(n) + "/4)..."))
  }

  /** The writes made before the first `k` strategies, in order. */
  function AttemptPatches(k: nat): (ps: seq<Patch>)
    requires k <= 4
    ensures |ps| == k
    ensures forall i :: 0 <= i < k ==> ps[i] == AttemptPatch(i + 1)
  {
    if k == 0 then [] else AttemptPatches(k - 1) + [AttemptPatch(k)]
  }

  predicate Succeeded(o: RunOutcome) {
    o.Exited? && o.code == 0
  }

  /** `last_error` after strategy `n` failed with outcome `o`. */
  function FailureText(n: nat, o: RunOutcome): string {
    match o
    case Exited(_, stderr) => stderr
    case TimedOut => "Strategy " + NatToText(n) + " timed out after 5 minutes"
    case Crashed(reason) => reason
  }

  /** The index of the first strategy that exits with code 0. */
  function FirstSuccess(runs: seq<RunOutcome>): (k: Option<nat>)
    ensures k.Some? ==>
      k.value < |runs| && Succeeded(runs[k.value])
      && forall j :: 0 <= j < k.value ==> !Succeeded(runs[j])
    ensures k.None? ==> forall j :: 0 <= j < |runs| ==> !Succeeded(runs[j])
  {
    if |runs| == 0 then None
    else if Succeeded(runs[0]) then Some(0)
    else match FirstSuccess(runs[1..])
      case None => None
      case Some(k) => Some(k + 1)
  }

  function FailurePlan(error: string, message: string): Plan {
    Plan([Patch(status := Some(Failed), progress := Some(0.0), message := Some(message), error := Some(error))],
         DownloadFailed(error))
  }

  const AllFailedPrefix :=
    "All VPS download strategies failed. YouTube may be blocking this video for data center IPs. Last error: "

  /** Picking the file out of the task directory and validating it. */
  function SelectionPlan(dir: string, listing: Listing): Plan {
    match PickFile(dir, listing)
    case NothingDownloaded => FailurePlan("No files were downloaded", "Download failed: No output files")
    case Picked(path, file, bySize) =>
      if bySize && !IsValidAudioFile(Some(file)) then
        FailurePlan("Downloaded file appears to be invalid (likely MHTML): " + path, "Download failed: Invalid file format")
      else if !IsValidAudioFile(Some(file)) then
        FailurePlan("Downloaded file failed validation: " + path, "Download failed: File validation failed")
      else Plan([DonePatch], Downloaded(path))
  }

  /**
   * `download_audio` given the outcome each strategy would have and the task directory
   * as yt-dlp leaves it.
   */
  function DownloadPlan(runs: seq<RunOutcome>, dir: string, listing: Listing): Plan
    requires |runs| == 4
  {
    match FirstSuccess(runs)
    case None => AllFailedPlan(runs[3])
    case Some(k) => SuccessPlan(k, dir, listing)
  }

  /** Every strategy failed, the last one with outcome `last`. */
  function AllFailedPlan(last: RunOutcome): Plan {
    var fail := FailurePlan(AllFailedPrefix + FailureText(4, last), "Download failed: All anti-bot strategies exhausted");
    Plan([InitPatch, StartPatch] + AttemptPatches(4) + fail.patches, fail.result)
  }

  /** Strategy `k + 1` was the first to succeed. */
  function SuccessPlan(k: nat, dir: string, listing: Listing): Plan
    requires k < 4
  {
    var sel := SelectionPlan(dir, listing);
    Plan([InitPatch, StartPatch] + AttemptPatches(k + 1) + [LocatingPatch] + sel.patches, sel.result)
  }

  // ---------------------------------------------------------------- the imperative stage

  /** How many strategies run: up to and including the first success, else all four. */
  function Tried(runs: seq<RunOutcome>): (n: nat)
    requires |runs| == 4
    ensures 1 <= n <= 4
  {
    match FirstSuccess(runs)
    case Some(k) => k + 1
    case None => 4
  }

  /**
   * The strategy loop of `download_audio`: each strategy is announced in the record and
   * run, until one exits with code 0; `lastError` is what the last failure left.
   */
  method TryStrategies(store: TaskStoreServer, taskId: string, runs: seq<RunOutcome>, now: int)
    returns (success: bool, lastError: string)
    requires |runs| == 4
    modifies store
    ensures success <==> FirstSuccess(runs).Some?
    ensures !success ==> lastError == FailureText(4, runs[3])
    ensures store.State() == UpdateAll(old(store.State()), taskId, AttemptPatches(Tried(runs)), now)
  {
    ghost var st0 := store.State();
    success := false;
    lastError := "";
    var n := 1;
    while n <= 4 && !success
      invariant 1 <= n <= 5
      invariant success ==> 2 <= n && FirstSuccess(runs) == Some(n - 2)
      invariant !success ==> NoneSucceeded(runs, n - 1)
      invariant !success && n > 1 ==> lastError == FailureText(n - 1, runs[n - 2])
      invariant store.State() == UpdateAll(st0, taskId, AttemptPatches(n - 1), now)
    {
      store.UpdateTask(taskId, AttemptPatch(n), now);
      UpdateAllSnoc(st0, taskId, AttemptPatches(n - 1), AttemptPatch(n), now);
      assert AttemptPatches(n) == AttemptPatches(n - 1) + [AttemptPatch(n)];
      assert store.State() == UpdateAll(st0, taskId, AttemptPatches(n), now);
      if Succeeded(runs[n - 1]) {
        success := true;
        FirstSuccessIsLeast(runs, n - 1);
      } else {
        lastError := FailureText(n, runs[n - 1]);
        NoneSucceededStep(runs, n - 1);
      }
      n := n + 1;
      assert !success ==> NoneSucceeded(runs, n - 1);
    }
    if !success {
      assert FirstSuccess(runs).None?;
    }
  }

  /** None of the first `n` strategies exited with code 0. */
  predicate NoneSucceeded(runs: seq<RunOutcome>, n: nat)
    requires n <= |runs|
  {
    forall j :: 0 <= j < n ==> !Succeeded(runs[j])
  }

  lemma NoneSucceededStep(runs: seq<RunOutcome>, n: nat)
    requires n < |runs| && NoneSucceeded(runs, n) && !Succeeded(runs[n])
    ensures NoneSucceeded(runs, n + 1)
  {
  }

  /**
   * The file selection of `download_audio`: the listing's audio files are collected; with
   * none, the largest file is taken if it validates; the chosen file must validate.
   */
  method SelectFile(store: TaskStoreServer, taskId: string, taskDir: string, listing: Listing, now: int)
    returns (result: DownloadResult)
    modifies store
    ensures result == SelectionPlan(taskDir, listing).result
    ensures store.State() == UpdateAll(old(store.State()), taskId, SelectionPlan(taskDir, listing).patches, now)
  {
    ghost var st0 := store.State();
    var downloaded := CollectAudioFiles(taskDir, listing);
    if |downloaded| == 0 {
      if |listing| > 0 {
        var k := FirstLargest(listing);
        var largest := (Join(taskDir, listing[k].0), listing[k].1);
        if IsValidAudioFile(Some(largest.1)) {
          downloaded := downloaded + [largest];
        } else {
          var plan := FailurePlan("Downloaded file appears to be invalid (likely MHTML): " + largest.0,
                                  "Download failed: Invalid file format");
          store.UpdateTask(taskId, plan.patches[0], now);
          UpdateAllSnoc(st0, taskId, [], plan.patches[0], now);
          return plan.result;
        }
      } else {
        var plan := FailurePlan("No files were downloaded", "Download failed: No output files");
        store.UpdateTask(taskId, plan.patches[0], now);
        UpdateAllSnoc(st0, taskId, [], plan.patches[0], now);
        return plan.result;
      }
    }

    var chosen := downloaded[0];
    if !IsValidAudioFile(Some(chosen.1)) {
      var plan := FailurePlan("Downloaded file failed validation: " + chosen.0, "Download failed: File validation failed");
      store.UpdateTask(taskId, plan.patches[0], now);
      UpdateAllSnoc(st0, taskId, [], plan.patches[0], now);
      return plan.result;
    }

    store.UpdateTask(taskId, DonePatch, now);
    UpdateAllSnoc(st0, taskId, [], DonePatch, now);
    result := Downloaded(chosen.0);
  }

  /**
   * `download_audio(task_id, url)`: `runs[i]` is how strategy i+1 would end and `listing`
   * is the task directory `TEMP_DIR/<task_id>` once the strategies are done.
   */
  method DownloadAudio(store: TaskStoreServer, taskId: string, runs: seq<RunOutcome>, listing: Listing, now: int)
    returns (result: DownloadResult)
    requires |runs| == 4
    modifies store
    ensures result == DownloadPlan(runs, Join(TempDir, taskId), listing).result
    ensures store.State() == UpdateAll(old(store.State()), taskId, DownloadPlan(runs, Join(TempDir, taskId), listing).patches, now)
  {
    ghost var st0 := store.State();
    store.UpdateTask(taskId, InitPatch, now);
    UpdateAllSnoc(st0, taskId, [], InitPatch, now);
    var taskDir := Join(TempDir, taskId);
    store.UpdateTask(taskId, StartPatch, now);
    UpdateAllSnoc(st0, taskId, [InitPatch], StartPatch, now);
    assert [InitPatch] + [StartPatch] == [InitPatch, StartPatch];
    ghost var written := [InitPatch, StartPatch];

    ghost var st1 := store.State();
    var success, lastError := TryStrategies(store, taskId, runs, now);
    UpdateAllAppend(st0, taskId, written, AttemptPatches(Tried(runs)), now);
    written := written + AttemptPatches(Tried(runs));

    if !success {
      var plan := FailurePlan(AllFailedPrefix + lastError, "Download failed: All anti-bot strategies exhausted");
      store.UpdateTask(taskId, plan.patches[0], now);
      UpdateAllSnoc(st0, taskId, written, plan.patches[0], now);
      assert written + [plan.patches[0]] == written + plan.patches;
      return plan.result;
    }

    store.UpdateTask(taskId, LocatingPatch, now);
    UpdateAllSnoc(st0, taskId, written, LocatingPatch, now);
    written := written + [LocatingPatch];

    ghost var plan := SelectionPlan(taskDir, listing);
    result := SelectFile(store, taskId, taskDir, listing, now);
    UpdateAllAppend(st0, taskId, written, plan.patches, now);
  }

  // ---------------------------------------------------------------- properties of a run

  /**
   * First success wins: once strategy k+1 exits with code 0, how the later strategies
   * would have ended changes nothing, since they are never run.
   */
  lemma LaterStrategiesNeverRun(runs: seq<RunOutcome>, runs': seq<RunOutcome>, k: nat, dir: string, listing: Listing)
    requires |runs| == 4 && |runs'| == 4 && FirstSuccess(runs) == Some(k)
    requires runs[..k + 1] == runs'[..k + 1]
    ensures DownloadPlan(runs, dir, listing) == DownloadPlan(runs', dir, listing)
  {
    SamePrefixSameFirst(runs, runs', k);
  }

  /** Outcomes that agree up to the first success have the same first success. */
  lemma SamePrefixSameFirst(runs: seq<RunOutcome>, runs': seq<RunOutcome>, k: nat)
    requires FirstSuccess(runs) == Some(k) && k < |runs'| && runs[..k + 1] == runs'[..k + 1]
    ensures FirstSuccess(runs') == Some(k)
  {
    assert forall j :: 0 <= j <= k ==> runs'[j] == runs[..k + 1][j];
    FirstSuccessIsLeast(runs', k);
  }

  /** When every strategy fails, the error names the last failure. */
  lemma AllFailedReportsLastError(runs: seq<RunOutcome>, dir: string, listing: Listing)
    requires |runs| == 4 && forall j :: 0 <= j < 4 ==> !Succeeded(runs[j])
    ensures DownloadPlan(runs, dir, listing).result == DownloadFailed(AllFailedPrefix + FailureText(4, runs[3]))
    ensures |DownloadPlan(runs, dir, listing).patches| == 7
  {
  }

  /**
   * What the call returns is what the record ends up saying: a failure leaves status
   * failed, progress 0 and the returned, non-empty error; a success leaves status
   * downloading at progress 80.
   */
  lemma ResultAgreesWithRecord(runs: seq<RunOutcome>, dir: string, listing: Listing, r: TaskRecord)
    requires |runs| == 4
    ensures var plan := DownloadPlan(runs, dir, listing);
      var final := ApplyAll(r, plan.patches);
      match plan.result
      case DownloadFailed(e) =>
        |e| > 0 && final.status == Some(Failed) && final.error == Some(e) && final.progress == Some(0.0)
      case Downloaded(_) =>
        final.status == Some(Downloading) && final.progress == Some(80.0)
  {
    match FirstSuccess(runs)
    case None =>
      var error := AllFailedPrefix + FailureText(4, runs[3]);
      FailureClose(r, [InitPatch, StartPatch] + AttemptPatches(4), error,
                   "Download failed: All anti-bot strategies exhausted");
    case Some(k) =>
      SelectionClose(r, [InitPatch, StartPatch] + AttemptPatches(k + 1) + [LocatingPatch], dir, listing);
  }

  /** A failure plan after any writes leaves the record failed with its error. */
  lemma FailureClose(r: TaskRecord, front: seq<Patch>, error: string, message: string)
    ensures var final := ApplyAll(r, front + FailurePlan(error, message).patches);
      final.status == Some(Failed) && final.error == Some(error) && final.progress == Some(0.0)
  {
    var f := FailurePlan(error, message).patches[0];
    assert FailurePlan(error, message).patches == [f];
    ApplyAllSnoc(r, front, f);
  }

  /** Picking the file after any writes: the record agrees with what is returned. */
  lemma SelectionClose(r: TaskRecord, front: seq<Patch>, dir: string, listing: Listing)
    ensures var sel := SelectionPlan(dir, listing);
      var final := ApplyAll(r, front + sel.patches);
      match sel.result
      case DownloadFailed(e) =>
        |e| > 0 && final.status == Some(Failed) && final.error == Some(e) && final.progress == Some(0.0)
      case Downloaded(_) =>
        final.status == Some(Downloading) && final.progress == Some(80.0)
  {
    match PickFile(dir, listing)
    case NothingDownloaded =>
      FailureClose(r, front, "No files were downloaded", "Download failed: No output files");
    case Picked(path, file, bySize) =>
      if bySize && !IsValidAudioFile(Some(file)) {
        FailureClose(r, front, "Downloaded file appears to be invalid (likely MHTML): " + path,
                     "Download failed: Invalid file format");
      } else if !IsValidAudioFile(Some(file)) {
        FailureClose(r, front, "Downloaded file failed validation: " + path, "Download failed: File validation failed");
      } else {
        ApplyAllSnoc(r, front, DonePatch);
      }
  }

  /** The progress a patch writes, 0 where it writes none. */
  function ProgressOf(p: Patch): real {
    p.progress.GetOr(0.0)
  }

  /** On the way to a successful download the progress written only ever rises. */
  lemma ProgressRisesOnSuccess(runs: seq<RunOutcome>, dir: string, listing: Listing)
    requires |runs| == 4 && DownloadPlan(runs, dir, listing).result.Downloaded?
    ensures var ps := DownloadPlan(runs, dir, listing).patches;
      forall i, j :: 0 <= i < j < |ps| ==> ProgressOf(ps[i]) < ProgressOf(ps[j])
  {
    var k := FirstSuccess(runs).value;
    SelectionSucceeded(dir, listing);
    var ps := [InitPatch, StartPatch] + AttemptPatches(k + 1) + [LocatingPatch] + [DonePatch];
    assert DownloadPlan(runs, dir, listing).patches == ps;
    SuccessWrites(k + 1, ps);
    forall i, j | 0 <= i < j < |ps|
      ensures ProgressOf(ps[i]) < ProgressOf(ps[j])
    {
      SuccessProgressRises(k + 1, i, j);
    }
  }

  /** The progress of write `i` of a run whose strategy `m` was the first to succeed. */
  function SuccessProgress(m: nat, i: nat): real {
    if i == 0 then 10.0 else if i == 1 then 20.0
    else if i < m + 2 then (15 + 8 * (i - 1)) as real
    else if i == m + 2 then 60.0 else 80.0
  }

  lemma SuccessProgressRises(m: nat, i: nat, j: nat)
    requires 1 <= m <= 4 && i < j <= m + 3
    ensures SuccessProgress(m, i) < SuccessProgress(m, j)
  {
  }

  /** The writes of a successful run carry the progress `SuccessProgress` gives. */
  lemma SuccessWrites(m: nat, ps: seq<Patch>)
    requires 1 <= m <= 4
    requires ps == [InitPatch, StartPatch] + AttemptPatches(m) + [LocatingPatch] + [DonePatch]
    ensures |ps| == m + 4
    ensures forall i :: 0 <= i < |ps| ==> ProgressOf(ps[i]) == SuccessProgress(m, i)
  {
    var front := [InitPatch, StartPatch] + AttemptPatches(m);
    assert ps == front + [LocatingPatch] + [DonePatch];
    forall i | 0 <= i < |ps|
      ensures ProgressOf(ps[i]) == SuccessProgress(m, i)
    {
      if i < m + 2 {
        assert ps[i] == front[i];
        if 2 <= i {
          assert front[i] == AttemptPatches(m)[i - 2];
        }
      } else if i == m + 2 {
        assert ps[i] == LocatingPatch;
      } else {
        assert ps[i] == DonePatch;
      }
    }
  }

  /** A selection that returns a path makes exactly the one closing write. */
  lemma SelectionSucceeded(dir: string, listing: Listing)
    requires SelectionPlan(dir, listing).result.Downloaded?
    ensures SelectionPlan(dir, listing).patches == [DonePatch]
  {
  }

  lemma FirstSuccessIsLeast(runs: seq<RunOutcome>, k: nat)
    requires k < |runs| && Succeeded(runs[k])
    requires forall j :: 0 <= j < k ==> !Succeeded(runs[j])
    ensures FirstSuccess(runs) == Some(k)
  {
    var f := FirstSuccess(runs);
    assert f.Some?;
    assert !(f.value < k);
    assert !(f.value > k);
  }
}
