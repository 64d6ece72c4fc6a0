/**
 * The single-attempt variant of the download stage (backend/download_service/utils.py):
 * an artifact validator that rejects saved web pages but accepts a file by its audio
 * signature or, failing that, by its extension, and `download_audio`, which runs yt-dlp
 * once, picks and validates the downloaded file, and writes its progress to the task
 * record throughout.
 */
module SingleDownload {
  import opened Wrappers
  import opened Text
  import opened Disk
  import opened TaskStore
  import opened DownloadFiles
  import opened DownloadProgress

  // ---------------------------------------------------------------- validation

  const MhtmlMarkers: seq<string> :=
    ["MIME-Version:", "multipart/related", "From: <nowhere@yt-dlp", "Content-Type: multipart",
     "--ytdlp", "boundary="]

  /** ID3, the three MPEG frame syncs, ftyp, RIFF, OggS and OpusHead. */
  const AudioSignatures: seq<seq<byte>> :=
    [[0x49, 0x44, 0x33], [0xFF, 0xFB], [0xFF, 0xF3], [0xFF, 0xF2], [0x66, 0x74, 0x79, 0x70],
     [0x52, 0x49, 0x46, 0x46], [0x4F, 0x67, 0x67, 0x53], [0x4F, 0x70, 0x75, 0x73, 0x48, 0x65, 0x61, 0x64]]

  const ValidatorExtensions: seq<string> := [".mp3", ".m4a", ".wav", ".ogg", ".opus", ".webm"]

  /**
   * `marker.lower() in header.lower()` for some marker. Lower-casing only A-Z gives the
   * same answer as Python's full `str.lower` here: the only other characters that lower
   * to ASCII are U+0130, which becomes 'i' followed by U+0307, and U+212A, which becomes
   * 'k'; no marker contains 'k', and no marker has an 'i' that ends it or is followed by
   * U+0307.
   */
  predicate HasMarker(header: string) {
    exists i :: 0 <= i < |MhtmlMarkers| && Contains(LowerAscii(header), LowerAscii(MhtmlMarkers[i]))
  }

  predicate BytesAt(s: seq<byte>, sig: seq<byte>, i: nat) {
    i + |sig| <= |s| && s[i..i + |sig|] == sig
  }

  /** `sig in magic` on bytes. */
  predicate BytesContain(s: seq<byte>, sig: seq<byte>) {
    exists i: nat :: i <= |s| && BytesAt(s, sig, i)
  }

  predicate HasSignature(magic: seq<byte>) {
    exists i :: 0 <= i < |AudioSignatures| && BytesContain(magic, AudioSignatures[i])
  }

  /** `file_path.lower().endswith(ext)` for some listed extension, by the same reasoning as `HasMarker`. */
  predicate HasValidatorExtension(path: string) {
    exists i :: 0 <= i < |ValidatorExtensions| && EndsWith(LowerAscii(path), ValidatorExtensions[i])
  }

  /**
   * `is_valid_audio_file(path)`: the file exists, has at least 1024 bytes, its decoded
   * header holds no MHTML marker in any case, and either an audio signature occurs in
   * its first 16 bytes or its path ends with an audio extension in any case.
   */
  predicate IsValidAudioFile(path: string, file: Option<FileEntry>) {
    file.Some? && file.value.Size() >= 1024
    && !HasMarker(Header(file.value))
    && (HasSignature(Head(file.value, 16)) || HasValidatorExtension(path))
  }

  /** The first 1024 bytes, decoded as UTF-8 with undecodable bytes dropped. */
  function Header(f: FileEntry): string {
    DecodeUtf8Ignore(Head(f, 1024))
  }

  /** A marker in the header rejects the file, whatever its signature or name. */
  lemma MarkerRejects(path: string, f: FileEntry, i: nat)
    requires i < |MhtmlMarkers| && Contains(LowerAscii(Header(f)), LowerAscii(MhtmlMarkers[i]))
    ensures !IsValidAudioFile(path, Some(f))
  {
  }

  /** Without a marker, a signature in the first 16 bytes accepts a large enough file under any name. */
  lemma SignatureAccepts(path: string, f: FileEntry, i: nat, at: nat)
    requires f.Size() >= 1024 && !HasMarker(Header(f))
    requires i < |AudioSignatures| && at + |AudioSignatures[i]| <= 16
    requires f.contents[at..at + |AudioSignatures[i]|] == AudioSignatures[i]
    ensures IsValidAudioFile(path, Some(f))
  {
    var magic := Head(f, 16);
    var sig := AudioSignatures[i];
    assert magic[at..at + |sig|] == f.contents[at..at + |sig|];
    assert BytesAt(magic, sig, at);
  }

  /**
   * Without a marker and without a signature, the name alone decides: the file is
   * accepted exactly when its path ends with an audio extension, in any case.
   */
  lemma ExtensionDecidesOtherwise(path: string, f: FileEntry)
    requires f.Size() >= 1024 && !HasMarker(Header(f)) && !HasSignature(Head(f, 16))
    ensures IsValidAudioFile(path, Some(f)) <==> HasValidatorExtension(path)
  {
  }

  /** The extension test ignores case: ".MP3" counts as ".mp3". */
  lemma ExtensionIgnoresCase(stem: string)
    ensures HasValidatorExtension(stem + ".MP3")
  {
    var path := stem + ".MP3";
    var lower := LowerAscii(path);
    assert lower[|lower| - 4..] == ".mp3";
    assert EndsWith(lower, ValidatorExtensions[0]);
  }

  /** Files under 1024 bytes, and missing files, are rejected. */
  lemma SmallFilesRejected(path: string, file: Option<FileEntry>)
    requires file.None? || file.value.Size() < 1024
    ensures !IsValidAudioFile(path, file)
  {
  }

  // ---------------------------------------------------------------- the progress hook

  const UnknownError := "Unknown download error"

  /**
   * The write `ProgressHook.__call__` makes for one event, `elapsed` seconds after the
   * hook was made: downloading progress in the 10-50 band, 50 with the elapsed time
   * once the transfer is finished, a failure that leaves progress and message as they
   * were, and nothing for any other status.
   */
  function HookPatch(e: HookEvent, elapsed: real): (p: Option<Patch>)
  {
    match e
    case Progress(_, _, _, _, _) => Some(DownloadingPatch(e))
    case Finish =>
      Some(Patch(status := Some(TaskStatus.Downloading), progress := Some(50.0),
                 message := Some("Download completed in " + FormatFixed(elapsed, 1)
                                 + " seconds. Preparing for conversion...")))
    case Failure(error) =>
      Some(Patch(status := Some(Failed), error := Some(error.GetOr(UnknownError))))
    case OtherStatus => None
  }

  /**
   * A failure reported by the hook changes only status and error: the progress and
   * message the record held stay, unlike the anti-bot variant's hook, which resets
   * progress to 0.
   */
  lemma HookFailureKeepsProgress(r: TaskRecord, error: Option<string>, elapsed: real)
    ensures var after := ApplyPatch(r, HookPatch(Failure(error), elapsed).value);
      after.status == Some(Failed) && after.error == Some(error.GetOr(UnknownError))
      && after.progress == r.progress && after.message == r.message
  {
  }

  /** The finishing message carries the elapsed time, as `float` would read it back. */
  lemma FinishShowsElapsed(elapsed: real)
    ensures exists t: string ::
      HookPatch(Finish, elapsed).value.message
        == Some("Download completed in " + t + " seconds. Preparing for conversion...")
      && ParseReal(t) == Some(Rounded(elapsed, 1))
  {
    FormatFixedRoundTrip(elapsed, 1);
  }

  /**
   * The hook object: the task it reports on and the `time.time()` reading, in seconds
   * with their fraction, taken when it was made. The hook is defined for yt-dlp's
   * Python interface, but `DownloadAudio` runs the yt-dlp command line and never
   * installs one, so its writes are not part of that run.
   */
  class ProgressHook {
    var taskId: string
    var startTime: real

    constructor (taskId: string, clock: real)
      ensures this.taskId == taskId && startTime == clock
    {
      this.taskId := taskId;
      startTime := clock;
    }

    /**
     * `__call__(d)` when `time.time()` reads `clock`: writes the event's patch to the task
     * record, if it has one; the store applies it at its whole-second instant `now`.
     */
    method Call(store: TaskStoreServer, e: HookEvent, now: int, clock: real)
      modifies store
      ensures store.State() ==
        match HookPatch(e, clock - startTime)
        case None => old(store.State())
        case Some(p) => Update(old(store.State()), taskId, p, now)
    {
      match e {
        case Progress(_, _, _, _, _) =>
          store.UpdateTask(taskId, DownloadingPatch(e), now);
        case Finish =>
          var elapsed := clock - startTime;
          store.UpdateTask(taskId, Patch(status := Some(TaskStatus.Downloading), progress := Some(50.0),
                                         message := Some("Download completed in " + FormatFixed(elapsed, 1)
                                                         + " seconds. Preparing for conversion...")), now);
        case Failure(error) =>
          store.UpdateTask(taskId, Patch(status := Some(Failed), error := Some(error.GetOr(UnknownError))), now);
        case OtherStatus =>
      }
    }
  }

  // ---------------------------------------------------------------- the plan of a run

  const InitPatch := Patch(status := Some(TaskStatus.Downloading), progress := Some(10.0),
                           message := Some("Initializing download..."))
  const StartPatch := Patch(status := Some(TaskStatus.Downloading), progress := Some(20.0),
                            message := Some("Starting download with yt-dlp..."))
  const LocatingPatch := Patch(status := Some(TaskStatus.Downloading), progress := Some(40.0),
                               message := Some("Download completed, locating file..."))
  const DonePatch := Patch(status := Some(TaskStatus.Downloading), progress := Some(50.0),
                           message := Some("Download completed successfully!"))

  const TimeoutError := "Download timeout: Process took longer than 5 minutes"
  const ErrorPrefix := "Download error: "

  /** A failure: only status and error are written. */
  function FailurePlan(error: string): Plan {
    Plan([Patch(status := Some(Failed), error := Some(error))], DownloadFailed(error))
  }

  /** Picking the file out of the task directory and validating it. */
  function SelectionPlan(dir: string, listing: Listing): Plan {
    match PickFile(dir, listing)
    case NothingDownloaded => FailurePlan(ErrorPrefix + "No files were downloaded")
    case Picked(path, file, bySize) =>
      if bySize && !IsValidAudioFile(path, Some(file)) then
        FailurePlan(ErrorPrefix + "Downloaded file appears to be invalid: " + path)
      else if !IsValidAudioFile(path, Some(file)) then
        FailurePlan(ErrorPrefix + "Downloaded file failed validation: " + path)
      else Plan([DonePatch], Downloaded(path))
  }

  /** What the single yt-dlp run leads to, once it has ended with `run`. */
  function AfterRun(run: RunOutcome, dir: string, listing: Listing): Plan {
    match run
    case TimedOut => FailurePlan(TimeoutError)
    case Crashed(reason) => FailurePlan(ErrorPrefix + reason)
    case Exited(code, stderr) =>
      if code != 0 then FailurePlan(ErrorPrefix + "yt-dlp failed: " + stderr)
      else
        var sel := SelectionPlan(dir, listing);
        Plan([LocatingPatch] + sel.patches, sel.result)
  }

  /**
   * `download_audio(task_id, url)` given how the yt-dlp run ends and the task directory
   * as yt-dlp leaves it.
   */
  function DownloadPlan(run: RunOutcome, dir: string, listing: Listing): Plan {
    var after := AfterRun(run, dir, listing);
    Plan([InitPatch, StartPatch] + after.patches, after.result)
  }

  // ---------------------------------------------------------------- the imperative stage

  /**
   * The file selection of `download_audio`: the listing's audio files are collected; with
   * none, the largest file is taken if it validates; the chosen file must validate.
   */
  method SelectFile(store: TaskStoreServer, taskId: string, taskDir: string, listing: Listing, now: int)
    returns (result: DownloadResult)
    modifies store
    ensures result == SelectionPlan(taskDir, listing).result
    ensures store.State() == UpdateAll(old(store.State()), taskId, SelectionPlan(taskDir, listing).patches, now)
  {
    ghost var st0 := store.State();
    var downloaded := CollectAudioFiles(taskDir, listing);
    if |downloaded| == 0 {
      if |listing| > 0 {
        var k := FirstLargest(listing);
        var largest := (Join(taskDir, listing[k].0), listing[k].1);
        if IsValidAudioFile(largest.0, Some(largest.1)) {
          downloaded := downloaded + [largest];
        } else {
          var plan := FailurePlan(ErrorPrefix + "Downloaded file appears to be invalid: " + largest.0);
          store.UpdateTask(taskId, plan.patches[0], now);
          UpdateAllSnoc(st0, taskId, [], plan.patches[0], now);
          return plan.result;
        }
      } else {
        var plan := FailurePlan(ErrorPrefix + "No files were downloaded");
        store.UpdateTask(taskId, plan.patches[0], now);
        UpdateAllSnoc(st0, taskId, [], plan.patches[0], now);
        return plan.result;
      }
    }

    var chosen := downloaded[0];
    if !IsValidAudioFile(chosen.0, Some(chosen.1)) {
      var plan := FailurePlan(ErrorPrefix + "Downloaded file failed validation: " + chosen.0);
      store.UpdateTask(taskId, plan.patches[0], now);
      UpdateAllSnoc(st0, taskId, [], plan.patches[0], now);
      return plan.result;
    }

    store.UpdateTask(taskId, DonePatch, now);
    UpdateAllSnoc(st0, taskId, [], DonePatch, now);
    result := Downloaded(chosen.0);
  }

  /**
   * `download_audio(task_id, url)`: `run` is how the yt-dlp process ends and `listing`
   * is the task directory `TEMP_DIR/<task_id>` afterwards.
   */
  method DownloadAudio(store: TaskStoreServer, taskId: string, run: RunOutcome, listing: Listing, now: int)
    returns (result: DownloadResult)
    modifies store
    ensures result == DownloadPlan(run, Join(TempDir, taskId), listing).result
    ensures store.State() == UpdateAll(old(store.State()), taskId, DownloadPlan(run, Join(TempDir, taskId), listing).patches, now)
  {
    ghost var st0 := store.State();
    store.UpdateTask(taskId, InitPatch, now);
    UpdateAllSnoc(st0, taskId, [], InitPatch, now);
    var taskDir := Join(TempDir, taskId);
    store.UpdateTask(taskId, StartPatch, now);
    UpdateAllSnoc(st0, taskId, [InitPatch], StartPatch, now);
    assert [InitPatch] + [StartPatch] == [InitPatch, StartPatch];
    ghost var written := [InitPatch, StartPatch];

    var error: Option<string> := None;
    match run {
      case TimedOut => error := Some(TimeoutError);
      case Crashed(reason) => error := Some(ErrorPrefix + reason);
      case Exited(code, stderr) =>
        if code != 0 {
          error := Some(ErrorPrefix + "yt-dlp failed: " + stderr);
        }
    }
    if error.Some? {
      var plan := FailurePlan(error.value);
      store.UpdateTask(taskId, plan.patches[0], now);
      UpdateAllSnoc(st0, taskId, written, plan.patches[0], now);
      assert written + [plan.patches[0]] == written + plan.patches;
      return plan.result;
    }

    store.UpdateTask(taskId, LocatingPatch, now);
    UpdateAllSnoc(st0, taskId, written, LocatingPatch, now);
    written := written + [LocatingPatch];

    ghost var plan := SelectionPlan(taskDir, listing);
    result := SelectFile(store, taskId, taskDir, listing, now);
    UpdateAllAppend(st0, taskId, written, plan.patches, now);
    AppendAssoc([InitPatch, StartPatch], [LocatingPatch], plan.patches);
  }

  // ---------------------------------------------------------------- properties of a run

  /**
   * What the call returns is what the record ends up saying: a failure leaves status
   * failed and the returned error, which is the timeout text or starts with "Download
   * error: "; a success leaves status downloading at progress 50.
   */
  lemma ResultAgreesWithRecord(run: RunOutcome, dir: string, listing: Listing, r: TaskRecord)
    ensures var plan := DownloadPlan(run, dir, listing);
      var final := ApplyAll(r, plan.patches);
      match plan.result
      case DownloadFailed(e) =>
        final.status == Some(Failed) && final.error == Some(e)
        && (e == TimeoutError || StartsWith(e, ErrorPrefix))
      case Downloaded(_) =>
        final.status == Some(TaskStatus.Downloading) && final.progress == Some(50.0)
        && final.message == Some("Download completed successfully!")
  {
    var front := [InitPatch, StartPatch];
    match run
    case TimedOut =>
      FailureClose(r, front, TimeoutError);
    case Crashed(reason) =>
      FailureClose(r, front, ErrorPrefix + reason);
      StartsWithAppend(ErrorPrefix, reason, "");
    case Exited(code, stderr) =>
      if code != 0 {
        FailureClose(r, front, ErrorPrefix + "yt-dlp failed: " + stderr);
        StartsWithAppend(ErrorPrefix, "yt-dlp failed: ", stderr);
      } else {
        var sel := SelectionPlan(dir, listing);
        AppendAssoc(front, [LocatingPatch], sel.patches);
        SelectionClose(r, front + [LocatingPatch], dir, listing);
      }
  }

  /** A failure after any writes leaves the record failed with its error; progress stays. */
  lemma FailureClose(r: TaskRecord, front: seq<Patch>, error: string)
    ensures var final := ApplyAll(r, front + FailurePlan(error).patches);
      final.status == Some(Failed) && final.error == Some(error)
      && final.progress == ApplyAll(r, front).progress
  {
    var f := FailurePlan(error).patches[0];
    assert FailurePlan(error).patches == [f];
    ApplyAllSnoc(r, front, f);
  }

  /** Picking the file after any writes: the record agrees with what is returned. */
  lemma SelectionClose(r: TaskRecord, front: seq<Patch>, dir: string, listing: Listing)
    ensures var sel := SelectionPlan(dir, listing);
      var final := ApplyAll(r, front + sel.patches);
      match sel.result
      case DownloadFailed(e) =>
        final.status == Some(Failed) && final.error == Some(e) && StartsWith(e, ErrorPrefix)
        && final.progress == ApplyAll(r, front).progress
      case Downloaded(_) =>
        final.status == Some(TaskStatus.Downloading) && final.progress == Some(50.0)
        && final.message == Some("Download completed successfully!")
  {
    match PickFile(dir, listing)
    case NothingDownloaded =>
      FailureClose(r, front, ErrorPrefix + "No files were downloaded");
      StartsWithAppend(ErrorPrefix, "No files were downloaded", "");
    case Picked(path, file, bySize) =>
      if bySize && !IsValidAudioFile(path, Some(file)) {
        FailureClose(r, front, ErrorPrefix + "Downloaded file appears to be invalid: " + path);
        StartsWithAppend(ErrorPrefix, "Downloaded file appears to be invalid: ", path);
      } else if !IsValidAudioFile(path, Some(file)) {
        FailureClose(r, front, ErrorPrefix + "Downloaded file failed validation: " + path);
        StartsWithAppend(ErrorPrefix, "Downloaded file failed validation: ", path);
      } else {
        ApplyAllSnoc(r, front, DonePatch);
      }
  }

  /**
   * A failure does not reset the progress: the record keeps the progress of the last
   * step reached, 20 when yt-dlp itself failed and 40 when the file was at fault.
   */
  lemma FailureKeepsLastProgress(run: RunOutcome, dir: string, listing: Listing, r: TaskRecord)
    requires DownloadPlan(run, dir, listing).result.DownloadFailed?
    ensures var final := ApplyAll(r, DownloadPlan(run, dir, listing).patches);
      final.progress == Some(if run.Exited? && run.code == 0 then 40.0 else 20.0)
  {
    var front := [InitPatch, StartPatch];
    ApplyAllSnoc(r, [InitPatch], StartPatch);
    assert [InitPatch] + [StartPatch] == front;
    if run.Exited? && run.code == 0 {
      var sel := SelectionPlan(dir, listing);
      AppendAssoc(front, [LocatingPatch], sel.patches);
      ApplyAllSnoc(r, front, LocatingPatch);
      SelectionClose(r, front + [LocatingPatch], dir, listing);
    } else {
      var error := DownloadPlan(run, dir, listing).result.error;
      assert DownloadPlan(run, dir, listing).patches == front + FailurePlan(error).patches;
      FailureClose(r, front, error);
    }
  }

  /** A process that does not end in time fails the download whatever the directory holds. */
  lemma TimeoutIgnoresListing(dir: string, listing: Listing, listing': Listing)
    ensures DownloadPlan(TimedOut, dir, listing) == DownloadPlan(TimedOut, dir, listing')
    ensures DownloadPlan(TimedOut, dir, listing).result == DownloadFailed(TimeoutError)
  {
  }

  /** The progress a patch writes, 0 where it writes none. */
  function ProgressOf(p: Patch): real {
    p.progress.GetOr(0.0)
  }

  /** A successful run writes progress 10, 20, 40 and 50, in that order. */
  lemma ProgressOnSuccess(run: RunOutcome, dir: string, listing: Listing)
    requires DownloadPlan(run, dir, listing).result.Downloaded?
    ensures var ps := DownloadPlan(run, dir, listing).patches;
      |ps| == 4 && forall i, j :: 0 <= i < j < |ps| ==> ProgressOf(ps[i]) < ProgressOf(ps[j])
  {
    var ps := DownloadPlan(run, dir, listing).patches;
    assert ps == [InitPatch, StartPatch, LocatingPatch, DonePatch];
  }

  /** Success returns the picked file, which passed validation. */
  lemma SuccessReturnsValidFile(run: RunOutcome, dir: string, listing: Listing)
    requires DownloadPlan(run, dir, listing).result.Downloaded?
    ensures var pick := PickFile(dir, listing);
      pick.Picked? && DownloadPlan(run, dir, listing).result.path == pick.path
      && IsValidAudioFile(pick.path, Some(pick.file))
  {
  }
}
