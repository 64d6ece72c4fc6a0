/**
 * The three endpoints of the API gateway (backend/api_gateway/routers/download.py):
 * accepting a link and queueing a task, reporting a task's status, and serving its file.
 * The Redis `ping`, the fresh UUID, the clock and the API's answer about the video are
 * parameters; whether the Celery task could be imported is the flag `celery`.
 */
module StatusApi {
  import opened Wrappers
  import opened Text
  import opened Disk
  import opened MetadataCodec
  import opened TaskStore
  import opened Storage
  import opened Jobs
  import opened YoutubeUrl

  // ---------------------------------------------------------------- POST /download

  predicate IsLowerHex(c: char) {
    '0' <= c <= '9' || 'a' <= c <= 'f'
  }

  /** `f"task-{uuid.uuid4().hex[:8]}"`, with `hex` the 32 lower-case hex digits of the UUID. */
  function NewTaskId(hex: string): (id: string)
    requires |hex| == 32 && forall i :: 0 <= i < |hex| ==> IsLowerHex(hex[i])
    ensures StartsWith(id, "task-") && '_' !in id && |id| == 13
  {
    var id := "task-" + hex[..8];
    assert id[..5] == "task-";
    forall i | 0 <= i < 13
      ensures id[i] != '_'
    {
      if i >= 5 {
        assert id[i] == hex[..8][i - 5] == hex[i - 5];
        assert IsLowerHex(hex[i - 5]);
      }
    }
    id
  }

  /**
   * A file whose name is a new task's id, '_' and anything else is traced back to that task
   * by the output sweep and by the file lookup. Outputs are named `<title>.mp3`, so this
   * applies only to a title that itself starts with the id and '_'.
   */
  lemma NewTaskIdRecoverable(hex: string, rest: string)
    requires |hex| == 32 && forall i :: 0 <= i < |hex| ==> IsLowerHex(hex[i])
    ensures TaskIdOf(NewTaskId(hex) + "_" + rest) == Some(NewTaskId(hex))
  {
    TaskIdRoundTrip(NewTaskId(hex), rest);
  }

  /** An output `<title>.mp3` whose title does not start with "task-" is traced back to no task. */
  lemma TitledOutputNotRecovered(title: string)
    requires !StartsWith(title, "task-")
    ensures TaskIdOf(title + ".mp3") == None
  {
    var name := title + ".mp3";
    if |title| < 5 {
      assert name[|title|] == '.';
    }
  }

  /** The reply of `POST /download`: the new task, or the HTTP error raised. */
  datatype DownloadReply = Accepted(taskId: string, status: string) | Refused(code: int, detail: string)

  /** The message written when no Celery task can be queued. */
  const NoWorkerMessage := "Task queued (Celery worker required for processing)"

  /**
   * `download_video`: 503 when Redis does not answer, 400 with the validator's message
   * when the link or the video is refused, else the new task id, "pending".
   */
  function DownloadReplyOf(url: string, answer: ApiAnswer, hex: string, redisUp: bool): (reply: DownloadReply)
    requires |hex| == 32 && forall i :: 0 <= i < |hex| ==> IsLowerHex(hex[i])
    ensures reply.Accepted? <==> redisUp && ValidateYoutubeUrl(url, answer).Ok?
    ensures reply.Accepted? ==> reply == Accepted(NewTaskId(hex), "pending")
    ensures !redisUp ==> reply == Refused(503, "Queue service unavailable")
    ensures redisUp && ValidateYoutubeUrl(url, answer).Err? ==>
      reply == Refused(400, ValidateYoutubeUrl(url, answer).message)
  {
    if !redisUp then Refused(503, "Queue service unavailable")
    else
      match ValidateYoutubeUrl(url, answer)
      case Err(message) => Refused(400, if message == "" then "Invalid YouTube URL" else message)
      case Ok(_) => Accepted(NewTaskId(hex), Pending.Value())
  }

  /** The store after a task is accepted: created, and told when no worker will take it. */
  function AcceptedState(st: StoreState, id: string, url: string, data: VideoData, celery: bool, now: int): StoreState {
    var created := Create(st, id, url, data.title, data.channel, data.thumbnail, now);
    if celery then created else Update(created, id, Patch(message := Some(NoWorkerMessage)), now)
  }

  /**
   * `download_video(request)`: a refused request changes nothing; an accepted one creates
   * the task and either queues the download job or records that no worker is available.
   */
  method DownloadVideo(store: TaskStoreServer, queue: JobQueue, url: string, answer: ApiAnswer, hex: string,
                       redisUp: bool, celery: bool, now: int)
    returns (reply: DownloadReply)
    requires |hex| == 32 && forall i :: 0 <= i < |hex| ==> IsLowerHex(hex[i])
    modifies store, queue
    ensures reply == DownloadReplyOf(url, answer, hex, redisUp)
    ensures reply.Refused? ==> store.State() == old(store.State()) && queue.jobs == old(queue.jobs)
    ensures reply.Accepted? ==>
      store.State() == AcceptedState(old(store.State()), reply.taskId, url, ValidateYoutubeUrl(url, answer).value, celery, now)
      && queue.jobs == old(queue.jobs) + (if celery then [DownloadJob(reply.taskId, url)] else [])
  {
    if !redisUp {
      return Refused(503, "Queue service unavailable");
    }
    var validation := ValidateYoutubeUrl(url, answer);
    if validation.Err? {
      var detail := if validation.message == "" then "Invalid YouTube URL" else validation.message;
      return Refused(400, detail);
    }
    var data := validation.value;
    var id := NewTaskId(hex);
    store.CreateTask(id, url, data.title, data.channel, data.thumbnail, now);
    if celery {
      queue.Enqueue(DownloadJob(id, url));
    } else {
      store.UpdateTask(id, Patch(message := Some(NoWorkerMessage)), now);
      assert queue.jobs == old(queue.jobs) + [];
    }
    reply := Accepted(id, Pending.Value());
  }

  /**
   * An accepted task reads back, for the record's lifetime, as pending with its link and
   * the video's title; its message says whether a worker will pick it up.
   */
  lemma AcceptedTaskIsPending(st: StoreState, id: string, url: string, data: VideoData, celery: bool, now: int, t: int)
    requires now <= t < now + RecordTtl
    ensures var r := Lookup(AcceptedState(st, id, url, data, celery, now), id, t);
      r.status == Some(Pending) && r.youtubeUrl == Some(url) && r.progress == Some(0.0)
      && (data.title.Some? && data.title.value != "" ==> r.title == data.title)
      && r.message == Some(if celery then "Task queued for processing" else NoWorkerMessage)
  {
    CreateThenLookup(st, id, url, data.title, data.channel, data.thumbnail, now, t);
    if !celery {
      NoWorkerRewritesMessage(st, id, url, data, now, t);
    }
  }

  /** Without a worker the accepted task differs from the created one in its message only. */
  lemma NoWorkerRewritesMessage(st: StoreState, id: string, url: string, data: VideoData, now: int, t: int)
    requires now <= t < now + RecordTtl
    ensures var created := Create(st, id, url, data.title, data.channel, data.thumbnail, now);
      Lookup(AcceptedState(st, id, url, data, false, now), id, t)
      == Lookup(created, id, t).(message := Some(NoWorkerMessage))
  {
    var created := Create(st, id, url, data.title, data.channel, data.thumbnail, now);
    var p := Patch(message := Some(NoWorkerMessage));
    UpdateThenLookup(created, id, p, now);
    assert Live(created, id, now) && Live(created, id, t);
  }

  // ---------------------------------------------------------------- GET /status

  /** The fields added for a completed task. */
  datatype CompletedInfo = CompletedInfo(fileSize: int, fileSizeFormatted: string, downloadUrl: string,
                                         downloadCount: int, expiresText: Option<string>)

  /** `TaskStatusResponse`, the completed-task fields grouped; None where the response leaves a field out. */
  datatype StatusResponse = StatusResponse(taskId: string, status: string, progress: real, message: string,
                                           title: Option<string>, channel: Option<string>, thumbnail: Option<string>,
                                           completed: Option<CompletedInfo>, error: Option<string>)

  datatype StatusReply = StatusOk(response: StatusResponse) | StatusError(code: int, detail: string)

  /** A reply and the writes to the task record made on the way to it, in order. */
  datatype StatusPlan = StatusPlan(reply: StatusReply, patches: seq<Patch>)

  function Plural(n: nat): string {
    if n > 1 then "s" else ""
  }

  /** The expiry sentence for whole days and hours left. */
  function DescribeExpiry(days: nat, hours: nat): string {
    if days > 0 then
      "File expires in " + NatToText(days) + " day" + Plural(days)
      + (if hours > 0 then " and " + NatToText(hours) + " hour" + Plural(hours) else "")
    else "File expires in " + NatToText(hours) + " hour" + Plural(hours)
  }

  /** The expiry sentence for `seconds` left: none once nothing is left. */
  function ExpiryText(seconds: int): (t: Option<string>)
    ensures t.Some? <==> seconds > 0
  {
    if seconds <= 0 then None
    else Some(DescribeExpiry(seconds / (24 * 3600), (seconds % (24 * 3600)) / 3600))
  }

  /** Whole days and hours: the quotients of a number of seconds, proved for the bounds that pin them. */
  lemma DaysAndHours(seconds: int, days: nat, hours: nat)
    requires hours < 24
    requires days * 86400 + hours * 3600 <= seconds < days * 86400 + (hours + 1) * 3600
    ensures seconds / (24 * 3600) == days && (seconds % (24 * 3600)) / 3600 == hours
  {
    var rem := seconds - days * 86400;
    assert 0 <= rem < 86400;
    assert seconds == days * 86400 + rem;
    assert seconds / 86400 == days && seconds % 86400 == rem;
    assert hours * 3600 <= rem < hours * 3600 + 3600;
    assert rem / 3600 == hours;
  }

  /** Between `days` days `hours` hours and one hour more left, the sentence names exactly those. */
  lemma ExpiryDescribesRemaining(seconds: int, days: nat, hours: nat)
    requires hours < 24 && seconds > 0
    requires days * 86400 + hours * 3600 <= seconds < days * 86400 + (hours + 1) * 3600
    ensures ExpiryText(seconds) == Some(DescribeExpiry(days, hours))
  {
    DaysAndHours(seconds, days, hours);
  }

  /** In the last hour the sentence reads "0 hour". */
  lemma LastHourReadsZeroHour(seconds: int)
    requires 0 < seconds < 3600
    ensures ExpiryText(seconds) == Some("File expires in 0 hour")
  {
    DaysAndHours(seconds, 0, 0);
    assert NatToText(0) == "0";
    assert DescribeExpiry(0, 0) == "File expires in " + "0" + " hour" + "";
    assert "File expires in " + "0" + " hour" + "" == "File expires in 0 hour";
  }

  /** A task completed just after it was created reports seven days left. */
  lemma NewFileExpiresInSevenDays()
    ensures ExpiryText(FileRetention) == Some("File expires in 7 days")
  {
    DaysAndHours(FileRetention, 7, 0);
    assert NatToText(7) == "7";
    assert DescribeExpiry(7, 0) == "File expires in " + "7" + " day" + "s" + "";
    assert "File expires in " + "7" + " day" + "s" + "" == "File expires in 7 days";
  }

  /** The status as the response writes it: "pending" when the record has none. */
  function StatusName(s: Option<TaskStatus>): string {
    match s
    case None => Pending.Value()
    case Some(v) => v.Value()
  }

  /** The metadata the completed fields are taken from, and the writes made to find it. */
  datatype MetadataLookup = MetadataLookup(meta: FileMetadata, patches: seq<Patch>)

  /**
   * The stored metadata when it is non-empty; otherwise the file is looked for, with the
   * recovered path written back, and the metadata of a file found is computed and saved.
   */
  function StatusMetadata(r: TaskRecord, files: map<string, FileEntry>, id: string, names: seq<string>,
                          isoformat: int -> string): (m: MetadataLookup)
    ensures ReadFileMetadata(r).GetOr(NoMetadata).Metadata? ==> m == MetadataLookup(ReadFileMetadata(r).value, [])
    ensures ReadFileMetadata(r).GetOr(NoMetadata).NoMetadata? ==>
      var res := ResolveFile(r, files, id, names);
      m.patches == RecoveryPatches(res) + MetadataPatches(m.meta)
      && (m.meta.Metadata? <==> res.path.Some?)
      && (res.path.Some? ==> m.meta == FileMetadataOf(res.path.value, files, isoformat))
  {
    var stored := ReadFileMetadata(r).GetOr(NoMetadata);
    if stored.Metadata? then MetadataLookup(stored, [])
    else
      var res := ResolveFile(r, files, id, names);
      if res.path.None? then MetadataLookup(NoMetadata, RecoveryPatches(res))
      else
        var meta := FileMetadataOf(res.path.value, files, isoformat);
        MetadataLookup(meta, RecoveryPatches(res) + MetadataPatches(meta))
  }

  /** The completed-task fields of the response. */
  function CompletedFields(r: TaskRecord, meta: FileMetadata, id: string, now: int): CompletedInfo {
    CompletedInfo(if meta.Metadata? then meta.fileSize else 0,
                  if meta.Metadata? then meta.fileSizeFormatted else "Unknown size",
                  "/api/download/" + id,
                  ReadDownloadCount(r).GetOr(0),
                  ExpiryText(r.createdAt.GetOr(now) + FileRetention - now))
  }

  /** The response for a record that exists, `meta` being the metadata found for a completed task. */
  function ResponseOf(r: TaskRecord, meta: FileMetadata, id: string, now: int): StatusResponse {
    StatusResponse(
      id, StatusName(r.status), r.progress.GetOr(0.0), r.message.GetOr("Task is queued for processing"),
      r.title, r.channel, r.thumbnail,
      if r.status == Some(Completed) then Some(CompletedFields(r, meta, id, now)) else None,
      if r.status == Some(Failed) then Some(r.error.GetOr("Unknown error occurred")) else None)
  }

  /** The two records agree on every field the response reads. */
  predicate SameForResponse(r: TaskRecord, r': TaskRecord) {
    r'.status == r.status && r'.progress == r.progress && r'.message == r.message && r'.title == r.title
    && r'.channel == r.channel && r'.thumbnail == r.thumbnail && r'.error == r.error
    && r'.downloadCount == r.downloadCount && r'.createdAt == r.createdAt
  }

  /** The response reads neither the stored path nor the stored metadata of the record. */
  lemma ResponseIgnoresPathAndMetadata(r: TaskRecord, r': TaskRecord, meta: FileMetadata, id: string, now: int)
    requires SameForResponse(r, r')
    ensures ResponseOf(r', meta, id, now) == ResponseOf(r, meta, id, now)
  {
    assert ReadDownloadCount(r') == ReadDownloadCount(r);
    assert CompletedFields(r', meta, id, now) == CompletedFields(r, meta, id, now);
  }

  /** The prefix of a 500 detail: every failure to read the task becomes this. */
  const ServerError := "Server error while retrieving task status: "

  /**
   * `get_task_status(task_id)` on the record `r`: a 500 when Redis is down or the task is
   * missing (the 503 and 404 raised inside the `try` are caught and wrapped); otherwise the
   * record's fields, the completed fields for a completed task and the error for a
   * failed one.
   */
  function StatusOf(r: TaskRecord, files: map<string, FileEntry>, id: string, names: seq<string>,
                    isoformat: int -> string, redisUp: bool, now: int): (plan: StatusPlan)
    ensures plan.reply.StatusError? <==> !redisUp || r.IsEmpty()
    ensures plan.reply.StatusError? ==> plan.reply.code == 500 && StartsWith(plan.reply.detail, ServerError)
    ensures plan.reply.StatusOk? ==>
      var resp := plan.reply.response;
      resp.taskId == id && resp.title == r.title
      && (resp.completed.Some? <==> r.status == Some(Completed))
      && (resp.error.Some? <==> r.status == Some(Failed))
      && (resp.error.Some? && r.error.Some? ==> resp.error == r.error)
    ensures plan.patches != [] ==>
      redisUp && r.status == Some(Completed) && ReadFileMetadata(r).GetOr(NoMetadata).NoMetadata?
  {
    if !redisUp then
      StatusPlan(StatusError(500, ServerError + "503: Queue service unavailable"), [])
    else if r.IsEmpty() then
      StatusPlan(StatusError(500, ServerError + "404: Task " + id + " not found"), [])
    else
      var lookup := if r.status == Some(Completed) then StatusMetadata(r, files, id, names, isoformat)
                    else MetadataLookup(NoMetadata, []);
      StatusPlan(StatusOk(ResponseOf(r, lookup.meta, id, now)), lookup.patches)
  }

  /**
   * `get_task_status(task_id)`, with `names` the listing of the output directory: the
   * reply of `StatusOf` on the record as read, and the store holding its writes.
   */
  method GetTaskStatus(store: TaskStoreServer, fs: FileSystem, id: string, names: seq<string>,
                       isoformat: int -> string, redisUp: bool, now: int)
    returns (reply: StatusReply)
    modifies store
    ensures var plan := StatusOf(Lookup(old(store.State()), id, now), fs.files, id, names, isoformat, redisUp, now);
      reply == plan.reply && store.State() == UpdateAll(old(store.State()), id, plan.patches, now)
  {
    if !redisUp {
      return StatusError(500, ServerError + "503: Queue service unavailable");
    }
    ghost var st0 := store.State();
    var r := store.GetTask(id, now);
    if r.IsEmpty() {
      return StatusError(500, ServerError + "404: Task " + id + " not found");
    }
    var completed: Option<CompletedInfo> := None;
    var meta := NoMetadata;
    if r.status == Some(Completed) {
      meta := ReadFileMetadata(r).GetOr(NoMetadata);
      if meta.NoMetadata? {
        var path := GetFileForTask(store, fs, id, names, now);
        ghost var res := ResolveFile(r, fs.files, id, names);
        if path.Some? {
          meta := FileMetadataOf(path.value, fs.files, isoformat);
          if meta.Metadata? {
            store.UpdateTask(id, Patch(fileMetadata := Some(meta)), now);
            UpdateAllSnoc(st0, id, RecoveryPatches(res), Patch(fileMetadata := Some(meta)), now);
          }
        } else {
          assert RecoveryPatches(res) + MetadataPatches(meta) == RecoveryPatches(res);
        }
      }
      completed := Some(CompletedFields(r, meta, id, now));
    }
    var error := if r.status == Some(Failed) then Some(r.error.GetOr("Unknown error occurred")) else None;
    reply := StatusOk(StatusResponse(
      id, StatusName(r.status), r.progress.GetOr(0.0), r.message.GetOr("Task is queued for processing"),
      r.title, r.channel, r.thumbnail, completed, error));
    assert reply == StatusOk(ResponseOf(r, meta, id, now));
  }

  /** The writes of the status endpoint leave every field the response reads but the metadata alone. */
  lemma StatusWritesRead(r: TaskRecord, res: Resolution, meta: FileMetadata)
    requires meta.Metadata?
    ensures var after := ApplyAll(r, RecoveryPatches(res) + MetadataPatches(meta));
      ReadFileMetadata(after) == Some(meta) && SameForResponse(r, after)
  {
    var found := RecoveryPatches(res);
    var metaPatch := Patch(fileMetadata := Some(meta));
    ApplyAllSnoc(r, found, metaPatch);
    var withPath := ApplyAll(r, found);
    if res.recovered.Some? {
      assert found[1..] == [];
      assert withPath == ApplyPatch(r, Patch(filePath := res.recovered));
    } else {
      assert withPath == r;
    }
    FileMetadataRoundTrip(withPath, metaPatch);
  }

  /**
   * Once the file has been found, asking again at the same instant gives the same reply
   * and writes nothing: the metadata saved by the first request is read back.
   */
  lemma StatusSettles(st: StoreState, files: map<string, FileEntry>, id: string, names: seq<string>,
                      isoformat: int -> string, now: int)
    requires var r := Lookup(st, id, now);
      r.status == Some(Completed) && ResolveFile(r, files, id, names).path.Some?
    ensures var first := StatusOf(Lookup(st, id, now), files, id, names, isoformat, true, now);
      var second := StatusOf(Lookup(UpdateAll(st, id, first.patches, now), id, now), files, id, names, isoformat, true, now);
      second == StatusPlan(first.reply, [])
  {
    var r := Lookup(st, id, now);
    var lookup := StatusMetadata(r, files, id, names, isoformat);
    var first := StatusOf(r, files, id, names, isoformat, true, now);
    assert first == StatusPlan(StatusOk(ResponseOf(r, lookup.meta, id, now)), lookup.patches);
    UpdateAllThenLookup(st, id, first.patches, now);
    var after := ApplyAll(r, lookup.patches);
    SettledRecord(r, files, id, names, isoformat);
    ResponseIgnoresPathAndMetadata(r, after, lookup.meta, id, now);
  }

  /** After the status writes, the record holds the metadata found and is otherwise the same for the response. */
  lemma SettledRecord(r: TaskRecord, files: map<string, FileEntry>, id: string, names: seq<string>,
                      isoformat: int -> string)
    requires r.status == Some(Completed) && ResolveFile(r, files, id, names).path.Some?
    ensures var lookup := StatusMetadata(r, files, id, names, isoformat);
      var after := ApplyAll(r, lookup.patches);
      lookup.meta.Metadata? && ReadFileMetadata(after) == Some(lookup.meta) && SameForResponse(r, after)
      && StatusMetadata(after, files, id, names, isoformat) == MetadataLookup(lookup.meta, [])
  {
    var lookup := StatusMetadata(r, files, id, names, isoformat);
    if ReadFileMetadata(r).GetOr(NoMetadata).NoMetadata? {
      var res := ResolveFile(r, files, id, names);
      StatusWritesRead(r, res, lookup.meta);
    } else {
      assert ApplyAll(r, []) == r;
    }
  }

  // ---------------------------------------------------------------- GET /download

  /** `download_file(task_id)`: 503 when Redis does not answer, else what `serve_file` returns. */
  method DownloadFile(store: TaskStoreServer, fs: FileSystem, id: string, names: seq<string>,
                      isoformat: int -> string, redisUp: bool, now: int)
    returns (outcome: ServeOutcome)
    modifies store, fs
    ensures !redisUp ==>
      outcome == HttpError(503, "Queue service unavailable")
      && store.State() == old(store.State()) && fs.files == old(fs.files)
    ensures redisUp ==>
      var plan := Serving(Lookup(old(store.State()), id, now), old(fs.files), id, names, isoformat);
      outcome == plan.outcome && store.State() == UpdateAll(old(store.State()), id, plan.patches, now)
    ensures fs.undeletable == old(fs.undeletable)
  {
    if !redisUp {
      return HttpError(503, "Queue service unavailable");
    }
    outcome := ServeFile(store, fs, id, names, isoformat, now);
  }
}
