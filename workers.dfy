/**
 * The orchestration of the two stages: the sequential `process_task` of the polling
 * worker, and the Celery tasks that run the download, hand the audio file on to the
 * conversion, and hand the original audio file on to the cleanup; with the progress
 * callbacks of both stages.
 */
module Workers {
  import opened Wrappers
  import opened Text
  import opened Disk
  import opened TaskStore
  import opened Jobs
  import opened DownloadFiles
  import SingleDownload
  import Converter

  // ---------------------------------------------------------------- reading the stage results

  /** `error or "Download failed"` where `not success or not audio_file`, and None where the download gave a file. */
  function DownloadError(r: DownloadResult): (e: Option<string>)
    ensures e.None? <==> r.Downloaded? && r.path != ""
    ensures e.Some? ==> e.value != ""
  {
    if r.Downloaded? && r.path != "" then None
    else if r.DownloadFailed? && r.error != "" then Some(r.error)
    else Some("Download failed")
  }

  /** `error or "Conversion failed"` where `not success or not mp3_file`, and None where the conversion gave a file. */
  function ConversionError(r: Converter.ConversionResult): (e: Option<string>)
    ensures e.None? <==> r.Converted? && r.path != ""
    ensures e.Some? ==> e.value != ""
  {
    if r.Converted? && r.path != "" then None
    else if r.ConversionFailed? && r.error != "" then Some(r.error)
    else Some("Conversion failed")
  }

  /**
   * The downloader never fails with an empty error, so the "Download failed" fallback is
   * never written: a failure reports the downloader's own text.
   */
  lemma DownloadFallbackUnused(run: RunOutcome, dir: string, listing: Listing)
    ensures var d := SingleDownload.DownloadPlan(run, dir, listing);
      d.result.DownloadFailed? ==> DownloadError(d.result) == Some(d.result.error)
  {
    SingleDownload.ResultAgreesWithRecord(run, dir, listing, TaskRecord());
  }

  /**
   * The converter never fails with an empty error and always names its output, so the
   * "Conversion failed" fallback is never written, and a conversion that reports success
   * is always taken as one.
   */
  lemma ConversionFallbackUnused(input: string, installed: bool, probe: Converter.ProbeOutcome, reading: Converter.Reading,
                                 exitCode: int, elapsed: real)
    ensures var c := Converter.ConvertPlan(input, installed, probe, reading, exitCode, elapsed);
      (c.result.ConversionFailed? ==> ConversionError(c.result) == Some(c.result.error))
      && (c.result.Converted? ==> ConversionError(c.result) == None && c.result.path == Converter.OutputPath(input))
  {
    Converter.ResultAgreesWithRecord(input, installed, probe, reading, exitCode, elapsed, TaskRecord());
  }

  /** The write that records a failure: status failed and the error, nothing else. */
  function FailedPatch(error: string): Patch {
    Patch(status := Some(Failed), error := Some(error))
  }

  /** The write that records a finished task. */
  function CompletedPatch(mp3File: string): Patch {
    Patch(status := Some(Completed), progress := Some(100.0), message := Some("Conversion completed successfully!"),
          filePath := Some(mp3File))
  }

  // ---------------------------------------------------------------- process_task

  /** How `process_task` ends: the task is missing, a step failed with `error`, or both files were made. */
  datatype Ending = NotFound | Stopped(error: string) | Finished(audioFile: string, mp3File: string)

  /** The writes one `process_task` call makes to the task record, and how it ends. */
  datatype Outcome = Outcome(patches: seq<Patch>, ending: Ending)

  const NoUrlError := "Invalid task data: No YouTube URL provided"

  /**
   * `process_task(task_id)` on the record `r` it reads, given how the download and the
   * conversion go (see `SingleDownload.DownloadAudio` and `Converter.ConvertToMp3`).
   */
  function ProcessPlan(r: TaskRecord, taskId: string, run: RunOutcome, listing: Listing, installed: bool,
                       probe: Converter.ProbeOutcome, reading: Converter.Reading, exitCode: int, elapsed: real): Outcome
  {
    if r.IsEmpty() then Outcome([], NotFound)
    else if r.youtubeUrl.None? || r.youtubeUrl.value == "" then Outcome([FailedPatch(NoUrlError)], Stopped(NoUrlError))
    else
      var d := SingleDownload.DownloadPlan(run, Join(TempDir, taskId), listing);
      match DownloadError(d.result)
      case Some(e) => Outcome(d.patches + [FailedPatch(e)], Stopped(e))
      case None =>
        var c := Converter.ConvertPlan(d.result.path, installed, probe, reading, exitCode, elapsed);
        match ConversionError(c.result)
        case Some(e) => Outcome(d.patches + c.patches + [FailedPatch(e)], Stopped(e))
        case None => Outcome(d.patches + c.patches + [CompletedPatch(c.result.path)], Finished(d.result.path, c.result.path))
  }

  /** The downloaded file `process_task` hands to the converter, when it gets that far. */
  function ConversionInput(r: TaskRecord, taskId: string, run: RunOutcome, listing: Listing): Option<string> {
    if r.IsEmpty() || r.youtubeUrl.None? || r.youtubeUrl.value == "" then None
    else
      var d := SingleDownload.DownloadPlan(run, Join(TempDir, taskId), listing);
      if DownloadError(d.result).Some? then None else Some(d.result.path)
  }

  /**
   * `process_task(task_id)`: `run` and `listing` say how the download goes; `installed`,
   * `probe`, `lines`, `exitCode`, `encoded` and `elapsed` how the conversion goes. The
   * files change only once the converter is reached, and then as it says.
   */
  method ProcessTask(store: TaskStoreServer, fs: FileSystem, taskId: string, run: RunOutcome, listing: Listing,
                     installed: bool, probe: Converter.ProbeOutcome, lines: seq<string>, exitCode: int,
                     encoded: Option<FileEntry>, elapsed: real, now: int)
    returns (ok: bool)
    modifies store, fs
    ensures var plan := ProcessPlan(Lookup(old(store.State()), taskId, now), taskId, run, listing, installed, probe,
                                    Converter.Readings(lines), exitCode, elapsed);
      var audio := ConversionInput(Lookup(old(store.State()), taskId, now), taskId, run, listing);
      ok == plan.ending.Finished?
      && store.State() == UpdateAll(old(store.State()), taskId, plan.patches, now)
      && fs.files == if audio.None? then old(fs.files)
        else Converter.FilesAfter(old(fs.files), audio.value, installed, probe, encoded, ok, fs.undeletable)
    ensures fs.undeletable == old(fs.undeletable)
  {
    ghost var st0 := store.State();
    var record := store.GetTask(taskId, now);
    if record.IsEmpty() {
      return false;
    }
    if record.youtubeUrl.None? || record.youtubeUrl.value == "" {
      store.UpdateTask(taskId, FailedPatch(NoUrlError), now);
      UpdateAllSnoc(st0, taskId, [], FailedPatch(NoUrlError), now);
      return false;
    }
    ghost var d := SingleDownload.DownloadPlan(run, Join(TempDir, taskId), listing);
    var downloaded := SingleDownload.DownloadAudio(store, taskId, run, listing, now);
    var downloadError := DownloadError(downloaded);
    if downloadError.Some? {
      store.UpdateTask(taskId, FailedPatch(downloadError.value), now);
      UpdateAllSnoc(st0, taskId, d.patches, FailedPatch(downloadError.value), now);
      return false;
    }
    ghost var c := Converter.ConvertPlan(downloaded.path, installed, probe, Converter.Readings(lines), exitCode, elapsed);
    assert ConversionInput(record, taskId, run, listing) == Some(downloaded.path);
    var converted := Converter.ConvertToMp3(store, fs, taskId, downloaded.path, installed, probe, lines, exitCode,
                                            encoded, elapsed, now);
    UpdateAllAppend(st0, taskId, d.patches, c.patches, now);
    ConversionFallbackUnused(downloaded.path, installed, probe, Converter.Readings(lines), exitCode, elapsed);
    var conversionError := ConversionError(converted);
    if conversionError.Some? {
      store.UpdateTask(taskId, FailedPatch(conversionError.value), now);
      UpdateAllSnoc(st0, taskId, d.patches + c.patches, FailedPatch(conversionError.value), now);
      return false;
    }
    store.UpdateTask(taskId, CompletedPatch(converted.path), now);
    UpdateAllSnoc(st0, taskId, d.patches + c.patches, CompletedPatch(converted.path), now);
    return true;
  }

  /**
   * What `process_task` leaves in the record: a missing task is not written to at all; a
   * finished one reads completed at progress 100 with the MP3 as its file; a stopped one
   * reads failed with a non-empty error, and that error is the one the call stopped with.
   */
  lemma ProcessTaskRecord(r: TaskRecord, taskId: string, run: RunOutcome, listing: Listing, installed: bool,
                          probe: Converter.ProbeOutcome, reading: Converter.Reading, exitCode: int, elapsed: real)
    ensures var plan := ProcessPlan(r, taskId, run, listing, installed, probe, reading, exitCode, elapsed);
      var final := ApplyAll(r, plan.patches);
      (plan.ending.NotFound? <==> r.IsEmpty())
      && (plan.ending.NotFound? ==> plan.patches == [])
      && (plan.ending.Stopped? ==> final.status == Some(Failed) && final.error == Some(plan.ending.error)
                                   && plan.ending.error != "")
      && (plan.ending.Finished? ==> final.status == Some(Completed) && final.progress == Some(100.0)
                                    && final.filePath == Some(plan.ending.mp3File))
  {
    if r.IsEmpty() {
    } else if r.youtubeUrl.None? || r.youtubeUrl.value == "" {
      ApplyAllSnoc(r, [], FailedPatch(NoUrlError));
    } else {
      var d := SingleDownload.DownloadPlan(run, Join(TempDir, taskId), listing);
      match DownloadError(d.result)
      case Some(e) =>
        ApplyAllSnoc(r, d.patches, FailedPatch(e));
      case None =>
        var c := Converter.ConvertPlan(d.result.path, installed, probe, reading, exitCode, elapsed);
        match ConversionError(c.result)
        case Some(e) =>
          ApplyAllSnoc(r, d.patches + c.patches, FailedPatch(e));
        case None =>
          ApplyAllSnoc(r, d.patches + c.patches, CompletedPatch(c.result.path));
    }
  }

  /**
   * The conversion runs only on a downloaded file, and `process_task` finishes exactly when
   * both the download and the conversion succeed, with the converter's output path.
   */
  lemma FinishedIffBothStages(r: TaskRecord, taskId: string, run: RunOutcome, listing: Listing, installed: bool,
                              probe: Converter.ProbeOutcome, reading: Converter.Reading, exitCode: int, elapsed: real)
    requires !r.IsEmpty() && r.youtubeUrl.Some? && r.youtubeUrl.value != ""
    ensures var plan := ProcessPlan(r, taskId, run, listing, installed, probe, reading, exitCode, elapsed);
      var d := SingleDownload.DownloadPlan(run, Join(TempDir, taskId), listing);
      plan.ending.Finished? <==>
        d.result.Downloaded? && d.result.path != ""
        && Converter.ConvertPlan(d.result.path, installed, probe, reading, exitCode, elapsed).result.Converted?
    ensures var plan := ProcessPlan(r, taskId, run, listing, installed, probe, reading, exitCode, elapsed);
      plan.ending.Finished? ==> plan.ending.mp3File == Converter.OutputPath(plan.ending.audioFile)
  {
    var d := SingleDownload.DownloadPlan(run, Join(TempDir, taskId), listing);
    if d.result.Downloaded? && d.result.path != "" {
      ConversionFallbackUnused(d.result.path, installed, probe, reading, exitCode, elapsed);
    }
  }

  // ---------------------------------------------------------------- the Celery stages

  /** The dictionary a stage task returns. */
  datatype StageReply = StageSucceeded(file: string) | StageFailed(error: string)

  /** The writes one stage task makes to the task record, what it returns, and the job it queues, if any. */
  datatype Stage = Stage(patches: seq<Patch>, reply: StageReply, next: Option<Job>)

  const DownloadStartPatch := Patch(status := Some(TaskStatus.Downloading), progress := Some(10.0),
                                    message := Some("Starting download..."))
  const HandOffPatch := Patch(progress := Some(50.0), message := Some("Download completed, starting conversion..."))
  const ConvertStartPatch := Patch(status := Some(Converting), progress := Some(60.0),
                                   message := Some("Converting to MP3..."))

  /** `download_audio_task(task_id, youtube_url)`, given how the download goes. */
  function DownloadStage(taskId: string, run: RunOutcome, listing: Listing): Stage {
    var d := SingleDownload.DownloadPlan(run, Join(TempDir, taskId), listing);
    var front := [DownloadStartPatch] + d.patches;
    match DownloadError(d.result)
    case Some(e) => Stage(front + [FailedPatch(e)], StageFailed(e), None)
    case None => Stage(front + [HandOffPatch], StageSucceeded(d.result.path), Some(ConvertJob(taskId, d.result.path)))
  }

  /** `convert_to_mp3_task(task_id, audio_file)`, given how the conversion goes. */
  function ConvertStage(taskId: string, audioFile: string, installed: bool, probe: Converter.ProbeOutcome,
                        reading: Converter.Reading, exitCode: int, elapsed: real): Stage
  {
    var c := Converter.ConvertPlan(audioFile, installed, probe, reading, exitCode, elapsed);
    var front := [ConvertStartPatch] + c.patches;
    match ConversionError(c.result)
    case Some(e) => Stage(front + [FailedPatch(e)], StageFailed(e), None)
    case None => Stage(front + [CompletedPatch(c.result.path)], StageSucceeded(c.result.path),
                       Some(CleanupJob(taskId, audioFile)))
  }

  /** The jobs a stage adds to the queue: its next job, if it has one. */
  function Queued(next: Option<Job>): (js: seq<Job>)
    ensures |js| <= 1
  {
    if next.Some? then [next.value] else []
  }

  /** The Celery task `download_audio_task`; `youtubeUrl` reaches the process only through `run`. */
  method DownloadAudioTask(store: TaskStoreServer, queue: JobQueue, taskId: string, youtubeUrl: string,
                           run: RunOutcome, listing: Listing, now: int)
    returns (reply: StageReply)
    modifies store, queue
    ensures var stage := DownloadStage(taskId, run, listing);
      reply == stage.reply
      && store.State() == UpdateAll(old(store.State()), taskId, stage.patches, now)
      && queue.jobs == old(queue.jobs) + Queued(stage.next)
  {
    ghost var st0 := store.State();
    ghost var d := SingleDownload.DownloadPlan(run, Join(TempDir, taskId), listing);
    store.UpdateTask(taskId, DownloadStartPatch, now);
    var downloaded := SingleDownload.DownloadAudio(store, taskId, run, listing, now);
    UpdateAllAppend(st0, taskId, [DownloadStartPatch], d.patches, now);
    var error := DownloadError(downloaded);
    if error.Some? {
      store.UpdateTask(taskId, FailedPatch(error.value), now);
      UpdateAllSnoc(st0, taskId, [DownloadStartPatch] + d.patches, FailedPatch(error.value), now);
      return StageFailed(error.value);
    }
    store.UpdateTask(taskId, HandOffPatch, now);
    UpdateAllSnoc(st0, taskId, [DownloadStartPatch] + d.patches, HandOffPatch, now);
    queue.Enqueue(ConvertJob(taskId, downloaded.path));
    return StageSucceeded(downloaded.path);
  }

  /** The Celery task `convert_to_mp3_task`, with the conversion's inputs as for `Converter.ConvertToMp3`. */
  method ConvertToMp3Task(store: TaskStoreServer, fs: FileSystem, queue: JobQueue, taskId: string, audioFile: string,
                          installed: bool, probe: Converter.ProbeOutcome, lines: seq<string>, exitCode: int,
                          encoded: Option<FileEntry>, elapsed: real, now: int)
    returns (reply: StageReply)
    modifies store, fs, queue
    ensures var stage := ConvertStage(taskId, audioFile, installed, probe, Converter.Readings(lines), exitCode, elapsed);
      reply == stage.reply
      && store.State() == UpdateAll(old(store.State()), taskId, stage.patches, now)
      && queue.jobs == old(queue.jobs) + Queued(stage.next)
      && fs.files == Converter.FilesAfter(old(fs.files), audioFile, installed, probe, encoded, reply.StageSucceeded?,
                                          fs.undeletable)
    ensures fs.undeletable == old(fs.undeletable)
  {
    ghost var st0 := store.State();
    ghost var c := Converter.ConvertPlan(audioFile, installed, probe, Converter.Readings(lines), exitCode, elapsed);
    store.UpdateTask(taskId, ConvertStartPatch, now);
    var converted := Converter.ConvertToMp3(store, fs, taskId, audioFile, installed, probe, lines, exitCode,
                                            encoded, elapsed, now);
    UpdateAllAppend(st0, taskId, [ConvertStartPatch], c.patches, now);
    ConversionFallbackUnused(audioFile, installed, probe, Converter.Readings(lines), exitCode, elapsed);
    var error := ConversionError(converted);
    if error.Some? {
      store.UpdateTask(taskId, FailedPatch(error.value), now);
      UpdateAllSnoc(st0, taskId, [ConvertStartPatch] + c.patches, FailedPatch(error.value), now);
      return StageFailed(error.value);
    }
    store.UpdateTask(taskId, CompletedPatch(converted.path), now);
    UpdateAllSnoc(st0, taskId, [ConvertStartPatch] + c.patches, CompletedPatch(converted.path), now);
    queue.Enqueue(CleanupJob(taskId, audioFile));
    return StageSucceeded(converted.path);
  }

  /**
   * The download stage hands on exactly when it succeeds: then it queues the conversion of
   * the file it returns, and the record reads progress 50 with the hand-off message; a
   * failure queues nothing and leaves the record failed with the non-empty error it returns.
   */
  lemma DownloadStageHandsOn(r: TaskRecord, taskId: string, run: RunOutcome, listing: Listing)
    ensures var stage := DownloadStage(taskId, run, listing);
      var final := ApplyAll(r, stage.patches);
      (stage.next.Some? <==> stage.reply.StageSucceeded?)
      && (stage.reply.StageSucceeded? ==>
            stage.next == Some(ConvertJob(taskId, stage.reply.file)) && stage.reply.file != ""
            && final.progress == Some(50.0) && final.message == Some("Download completed, starting conversion..."))
      && (stage.reply.StageFailed? ==>
            final.status == Some(Failed) && final.error == Some(stage.reply.error) && stage.reply.error != "")
  {
    var stage := DownloadStage(taskId, run, listing);
    var front := stage.patches[..|stage.patches| - 1];
    assert stage.patches == front + [stage.patches[|stage.patches| - 1]];
    ApplyAllSnoc(r, front, stage.patches[|stage.patches| - 1]);
  }

  /**
   * The conversion stage hands on exactly when it succeeds: then the record reads completed
   * at progress 100 with the MP3 as its file, and the cleanup of the original audio file,
   * not of the MP3, is queued; a failure queues nothing and leaves the record failed.
   */
  lemma ConvertStageHandsOn(r: TaskRecord, taskId: string, audioFile: string, installed: bool,
                            probe: Converter.ProbeOutcome, reading: Converter.Reading, exitCode: int, elapsed: real)
    ensures var stage := ConvertStage(taskId, audioFile, installed, probe, reading, exitCode, elapsed);
      var final := ApplyAll(r, stage.patches);
      (stage.next.Some? <==> stage.reply.StageSucceeded?)
      && (stage.reply.StageSucceeded? ==>
            stage.next == Some(CleanupJob(taskId, audioFile)) && stage.reply.file == Converter.OutputPath(audioFile)
            && final.status == Some(Completed) && final.progress == Some(100.0)
            && final.filePath == Some(stage.reply.file))
      && (stage.reply.StageFailed? ==>
            final.status == Some(Failed) && final.error == Some(stage.reply.error) && stage.reply.error != "")
  {
    var stage := ConvertStage(taskId, audioFile, installed, probe, reading, exitCode, elapsed);
    ConversionFallbackUnused(audioFile, installed, probe, reading, exitCode, elapsed);
    var front := stage.patches[..|stage.patches| - 1];
    assert stage.patches == front + [stage.patches[|stage.patches| - 1]];
    ApplyAllSnoc(r, front, stage.patches[|stage.patches| - 1]);
  }

  /**
   * The Celery chain and `process_task` agree: for a record with a URL, the chain runs the
   * conversion exactly when `process_task` would, finishes exactly when it finishes, and
   * leaves the same status, the same error on failure and the same file on completion.
   */
  lemma ChainAgreesWithProcessTask(r: TaskRecord, taskId: string, run: RunOutcome, listing: Listing, installed: bool,
                                   probe: Converter.ProbeOutcome, reading: Converter.Reading, exitCode: int, elapsed: real)
    requires !r.IsEmpty() && r.youtubeUrl.Some? && r.youtubeUrl.value != ""
    ensures var plan := ProcessPlan(r, taskId, run, listing, installed, probe, reading, exitCode, elapsed);
      var ds := DownloadStage(taskId, run, listing);
      var afterDownload := ApplyAll(r, ds.patches);
      match ds.reply
      case StageFailed(e) =>
        plan.ending == Stopped(e) && ApplyAll(r, plan.patches).status == afterDownload.status
        && ApplyAll(r, plan.patches).error == afterDownload.error
      case StageSucceeded(audio) =>
        var cs := ConvertStage(taskId, audio, installed, probe, reading, exitCode, elapsed);
        var afterConvert := ApplyAll(afterDownload, cs.patches);
        (plan.ending.Finished? <==> cs.reply.StageSucceeded?)
        && ApplyAll(r, plan.patches).status == afterConvert.status
        && (cs.reply.StageFailed? ==> plan.ending == Stopped(cs.reply.error)
                                      && ApplyAll(r, plan.patches).error == afterConvert.error)
        && (cs.reply.StageSucceeded? ==> plan.ending == Finished(audio, cs.reply.file)
                                         && ApplyAll(r, plan.patches).filePath == afterConvert.filePath)
  {
    var ds := DownloadStage(taskId, run, listing);
    ProcessTaskRecord(r, taskId, run, listing, installed, probe, reading, exitCode, elapsed);
    DownloadStageHandsOn(r, taskId, run, listing);
    if ds.reply.StageSucceeded? {
      ConvertStageHandsOn(ApplyAll(r, ds.patches), taskId, ds.reply.file, installed, probe, reading, exitCode, elapsed);
    }
  }

  // ---------------------------------------------------------------- progress callbacks

  /** `int(x)` on a float: truncation toward zero. */
  function Truncate(x: real): (n: int)
    ensures x >= 0.0 ==> n as real <= x < n as real + 1.0
    ensures x < 0.0 ==> n as real - 1.0 < x <= n as real
  {
    if x >= 0.0 then x.Floor else -((-x).Floor)
  }

  /** `progress_data.get("_percent_str", "0%").strip("%")`. */
  function PercentText(percentField: Option<string>): string {
    StripChar(percentField.GetOr("0%"), '%')
  }

  /** `int(10 + progress * 0.4)`, with the product taken exactly. */
  function DownloadScale(progress: int): int {
    Truncate(10.0 + progress as real * 0.4)
  }

  /** The write of `download_progress_callback` once the text has parsed as `x`. */
  function DownloadProgressPatch(x: real): Patch {
    var progress := Truncate(x);
    Patch(progress := Some(DownloadScale(progress) as real),
          message := Some("Downloading... " + IntToText(progress) + "%"))
  }

  /**
   * The write of `download_progress_callback`: the percentage truncated to a whole number
   * and scaled into 10..50, or only the message where the text is not a number.
   */
  function DownloadCallbackPatch(percentField: Option<string>): (p: Patch)
    ensures p.progress.None? <==> ParseReal(PercentText(percentField)).None?
    ensures p.status.None? && p.filePath.None? && p.error.None? && p.message.Some?
  {
    match ParseReal(PercentText(percentField))
    case None => Patch(message := Some("Downloading..."))
    case Some(x) => DownloadProgressPatch(x)
  }

  /** A whole percentage from 0 to 100 lands in the download's band, 10 to 50. */
  lemma DownloadScaleInBand(progress: int)
    requires 0 <= progress <= 100
    ensures 10 <= DownloadScale(progress) <= 50
  {
    var y := 10.0 + progress as real * 0.4;
    assert 10.0 <= y <= 50.0;
    assert DownloadScale(progress) as real <= y < DownloadScale(progress) as real + 1.0;
  }

  /** A percentage from 0 to 100 is reported inside the download's band, 10 to 50. */
  lemma DownloadCallbackInBand(x: real)
    requires 0.0 <= x <= 100.0
    ensures 10.0 <= DownloadProgressPatch(x).progress.value <= 50.0
  {
    DownloadScaleInBand(Truncate(x));
  }

  /** A larger whole percentage is never scaled to less progress. */
  lemma DownloadScaleMonotone(m: int, n: int)
    requires 0 <= m <= n
    ensures DownloadScale(m) <= DownloadScale(n)
  {
    var ym := 10.0 + m as real * 0.4;
    var yn := 10.0 + n as real * 0.4;
    assert 0.0 <= ym <= yn;
    assert ym.Floor <= yn.Floor;
  }

  /** A larger percentage never reports less progress. */
  lemma DownloadCallbackMonotone(x: real, y: real)
    requires 0.0 <= x <= y
    ensures DownloadProgressPatch(x).progress.value <= DownloadProgressPatch(y).progress.value
  {
    assert x.Floor <= y.Floor;
    DownloadScaleMonotone(Truncate(x), Truncate(y));
  }

  /** The `"percentage"` entry of the conversion's progress data. */
  datatype PercentageField = Absent | Whole(n: int) | NotNumber

  /** `int(60 + percentage * 0.3)`, with the product taken exactly. */
  function ConversionScale(percentage: int): int {
    Truncate(60.0 + percentage as real * 0.3)
  }

  /**
   * The write of `conversion_progress_callback`: the percentage, 0 when absent, scaled
   * into 60..90; a value that cannot be multiplied writes only the message.
   */
  function ConversionCallbackPatch(field: PercentageField): (p: Patch)
    ensures p.progress.None? <==> field.NotNumber?
    ensures p.status.None? && p.filePath.None? && p.error.None? && p.message.Some?
  {
    match field
    case NotNumber => Patch(message := Some("Converting to MP3..."))
    case Absent => Patch(progress := Some(ConversionScale(0) as real), message := Some("Converting... 0%"))
    case Whole(n) => Patch(progress := Some(ConversionScale(n) as real), message := Some("Converting... " + IntToText(n) + "%"))
  }

  /** A percentage from 0 to 100 lands in the conversion's band, 60 to 90, and an absent one at 60. */
  lemma ConversionCallbackInBand(field: PercentageField)
    requires field.Whole? ==> 0 <= field.n <= 100
    requires !field.NotNumber?
    ensures 60.0 <= ConversionCallbackPatch(field).progress.value <= 90.0
    ensures field.Absent? ==> ConversionCallbackPatch(field).progress == Some(60.0)
  {
    var n := if field.Whole? then field.n else 0;
    assert 60.0 <= 60.0 + n as real * 0.3 <= 90.0;
  }

  /** A larger percentage never reports less progress. */
  lemma ConversionCallbackMonotone(m: int, n: int)
    requires 0 <= m <= n
    ensures ConversionCallbackPatch(Whole(m)).progress.value <= ConversionCallbackPatch(Whole(n)).progress.value
  {
    assert 60.0 + m as real * 0.3 <= 60.0 + n as real * 0.3;
  }

  /** The Celery task `download_progress_callback`: one write to the task record. */
  method DownloadProgressCallback(store: TaskStoreServer, taskId: string, percentField: Option<string>, now: int)
    modifies store
    ensures store.State() == Update(old(store.State()), taskId, DownloadCallbackPatch(percentField), now)
  {
    store.UpdateTask(taskId, DownloadCallbackPatch(percentField), now);
  }

  /** The Celery task `conversion_progress_callback`: one write to the task record. */
  method ConversionProgressCallback(store: TaskStoreServer, taskId: string, field: PercentageField, now: int)
    modifies store
    ensures store.State() == Update(old(store.State()), taskId, ConversionCallbackPatch(field), now)
  {
    store.UpdateTask(taskId, ConversionCallbackPatch(field), now);
  }
}
