/**
 * The task records every service shares (backend/shared/redis_client.py): one hash per
 * task with a time-to-live, and the list `tasks:pending` of queued task ids.
 *
 * Redis is modelled by its contents: a map from task id to the record, a map from task
 * id to the instant its key expires, and the pending list. The clock is a parameter; a
 * key whose deadline has passed reads as absent, as Redis makes it.
 */
module TaskStore {
  import opened Wrappers
  import opened Text
  import opened MetadataCodec

  /** The `TaskStatus` enum and the text stored for each value. */
  datatype TaskStatus = Pending | Downloading | Converting | Completed | Failed | Expired {
    function Value(): (v: string)
      ensures |v| > 0
    {
      match this
      case Pending => "pending"
      case Downloading => "downloading"
      case Converting => "converting"
      case Completed => "completed"
      case Failed => "failed"
      case Expired => "expired"
    }
  }

  /** `TaskStatus(text)`: the member whose value is `text`, if any. */
  function ParseStatus(text: string): (r: Option<TaskStatus>)
    ensures r.Some? ==> r.value.Value() == text
  {
    if text == "pending" then Some(Pending)
    else if text == "downloading" then Some(Downloading)
    else if text == "converting" then Some(Converting)
    else if text == "completed" then Some(Completed)
    else if text == "failed" then Some(Failed)
    else if text == "expired" then Some(Expired)
    else None
  }

  /** Every status survives being stored as text and read back, so no two share a value. */
  lemma StatusRoundTrip(s: TaskStatus)
    ensures ParseStatus(s.Value()) == Some(s)
  {
  }

  /** Seven days and one hour: the key lifetime set at creation and on completion. */
  const RecordTtl: int := 7 * 24 * 3600 + 3600

  /** Seven days: how long a converted file is kept (backend/file_service/storage.py). */
  const FileRetention: int := 7 * 24 * 3600

  /**
   * The fields of a `task:<id>` hash; None where the hash has no such field.
   * `download_count` and `file_metadata` are kept as the text Redis holds, since reading
   * them back is a parse with a fallback.
   */
  datatype TaskRecord = TaskRecord(
    youtubeUrl: Option<string> := None,
    status: Option<TaskStatus> := None,
    progress: Option<real> := None,
    message: Option<string> := None,
    createdAt: Option<int> := None,
    downloadCount: Option<string> := None,
    title: Option<string> := None,
    channel: Option<string> := None,
    thumbnail: Option<string> := None,
    filePath: Option<string> := None,
    error: Option<string> := None,
    fileMetadata: Option<string> := None)
  {
    /** `not task_data`: what `hgetall` returns for a missing key. */
    predicate IsEmpty() {
      this == TaskRecord()
    }
  }

  /** The keyword arguments of `update_task`; None where the caller passed none. */
  datatype Patch = Patch(
    status: Option<TaskStatus> := None,
    progress: Option<real> := None,
    message: Option<string> := None,
    filePath: Option<string> := None,
    error: Option<string> := None,
    fileMetadata: Option<FileMetadata> := None,
    downloadCount: Option<int> := None)
  {
    /** `update_data` stays empty: `update_task` then writes nothing. */
    predicate IsEmpty() {
      this == Patch()
    }
  }

  function Override<T>(current: Option<T>, written: Option<T>): (r: Option<T>)
    ensures written.Some? ==> r == written
    ensures written.None? ==> r == current
  {
    if written.Some? then written else current
  }

  /**
   * `hset(key, mapping=update_data)`: every field the patch carries overwrites the
   * record's, the count stored as `str(n)` and the metadata as `json.dumps(m)`.
   */
  function ApplyPatch(r: TaskRecord, p: Patch): TaskRecord {
    r.(status := Override(r.status, p.status),
       progress := Override(r.progress, p.progress),
       message := Override(r.message, p.message),
       filePath := Override(r.filePath, p.filePath),
       error := Override(r.error, p.error),
       downloadCount := Override(r.downloadCount, if p.downloadCount.Some? then Some(IntToText(p.downloadCount.value)) else None),
       fileMetadata := Override(r.fileMetadata, if p.fileMetadata.Some? then Some(EncodeMetadata(p.fileMetadata.value)) else None))
  }

  /** One patch followed by another: the later value of each field wins. */
  function Merge(p: Patch, q: Patch): (m: Patch)
    ensures p.IsEmpty() ==> m == q
    ensures q.IsEmpty() ==> m == p
  {
    Patch(Override(p.status, q.status), Override(p.progress, q.progress),
          Override(p.message, q.message), Override(p.filePath, q.filePath),
          Override(p.error, q.error), Override(p.fileMetadata, q.fileMetadata),
          Override(p.downloadCount, q.downloadCount))
  }

  lemma EmptyPatchIsIdentity(r: TaskRecord)
    ensures ApplyPatch(r, Patch()) == r
  {
  }

  /** Two successive writes equal one write of the merged fields. */
  lemma ApplyMerge(r: TaskRecord, p: Patch, q: Patch)
    ensures ApplyPatch(ApplyPatch(r, p), q) == ApplyPatch(r, Merge(p, q))
  {
  }

  /** Repeating a write changes nothing more. */
  lemma ApplyIdempotent(r: TaskRecord, p: Patch)
    ensures ApplyPatch(ApplyPatch(r, p), p) == ApplyPatch(r, p)
  {
    ApplyMerge(r, p, p);
    assert Merge(p, p) == p;
  }

  /** The fields a patch does not name keep their values. */
  lemma ApplyKeepsUnnamed(r: TaskRecord, p: Patch)
    ensures var r' := ApplyPatch(r, p);
      r'.youtubeUrl == r.youtubeUrl && r'.createdAt == r.createdAt && r'.title == r.title
      && r'.channel == r.channel && r'.thumbnail == r.thumbnail
      && (p.status.None? ==> r'.status == r.status)
      && (p.progress.None? ==> r'.progress == r.progress)
      && (p.message.None? ==> r'.message == r.message)
      && (p.filePath.None? ==> r'.filePath == r.filePath)
      && (p.error.None? ==> r'.error == r.error)
      && (p.downloadCount.None? ==> r'.downloadCount == r.downloadCount)
      && (p.fileMetadata.None? ==> r'.fileMetadata == r.fileMetadata)
  {
  }

  /** The fields a patch names take the values passed (the count and metadata as text: see their round trips). */
  lemma ApplyWritesNamed(r: TaskRecord, p: Patch)
    ensures var r' := ApplyPatch(r, p);
      (p.status.Some? ==> r'.status == p.status)
      && (p.progress.Some? ==> r'.progress == p.progress)
      && (p.message.Some? ==> r'.message == p.message)
      && (p.filePath.Some? ==> r'.filePath == p.filePath)
      && (p.error.Some? ==> r'.error == p.error)
      && (p.downloadCount.Some? ==> r'.downloadCount == Some(IntToText(p.downloadCount.value)))
      && (p.fileMetadata.Some? ==> r'.fileMetadata == Some(EncodeMetadata(p.fileMetadata.value)))
  {
  }

  // ---------------------------------------------------------------- reading back

  /**
   * `get_task`'s conversion of `download_count`: `int(text)`, or 0 where that raises;
   * None where the hash has no such field.
   */
  function ReadDownloadCount(r: TaskRecord): (c: Option<int>)
    ensures c.Some? <==> r.downloadCount.Some?
    ensures r.downloadCount.Some? && ParseInt(r.downloadCount.value).Some? ==> c == ParseInt(r.downloadCount.value)
    ensures r.downloadCount.Some? && ParseInt(r.downloadCount.value).None? ==> c == Some(0)
  {
    match r.downloadCount
    case None => None
    case Some(text) => Some(ParseInt(text).GetOr(0))
  }

  /** `get_task`'s conversion of `file_metadata`: `json.loads(text)`, or `{}` where that raises. */
  function ReadFileMetadata(r: TaskRecord): (m: Option<FileMetadata>)
    ensures m.Some? <==> r.fileMetadata.Some?
  {
    match r.fileMetadata
    case None => None
    case Some(text) => Some(ReadMetadata(text))
  }

  /** A count written through `update_task` reads back unchanged. */
  lemma DownloadCountRoundTrip(r: TaskRecord, p: Patch)
    requires p.downloadCount.Some?
    ensures ReadDownloadCount(ApplyPatch(r, p)) == p.downloadCount
  {
    IntTextRoundTrip(p.downloadCount.value);
  }

  /** A stored count `int()` rejects, such as one holding no digit at all, reads back as 0. */
  lemma CountWithoutDigitsReadsZero(r: TaskRecord)
    requires r.downloadCount.Some?
    requires forall i :: 0 <= i < |r.downloadCount.value| ==> !IsDigit(r.downloadCount.value[i])
    ensures ReadDownloadCount(r) == Some(0)
  {
    ParseIntChars(r.downloadCount.value);
  }

  /** Metadata written through `update_task` reads back unchanged. */
  lemma FileMetadataRoundTrip(r: TaskRecord, p: Patch)
    requires p.fileMetadata.Some?
    ensures ReadFileMetadata(ApplyPatch(r, p)) == p.fileMetadata
  {
    ReadWrittenMetadata(p.fileMetadata.value);
  }

  // ---------------------------------------------------------------- the store

  /**
   * The Redis contents: task hashes, the deadline of each key that has a time-to-live,
   * and the `tasks:pending` list, whose left end is index 0.
   */
  datatype StoreState = StoreState(
    records: map<string, TaskRecord>,
    expiry: map<string, int>,
    pending: seq<string>)

  /** The key of task `id` exists at instant `now`. */
  predicate Live(st: StoreState, id: string, now: int) {
    id in st.records && (id in st.expiry ==> now < st.expiry[id])
  }

  /** `hgetall("task:<id>")` at instant `now`: the record, or the empty hash. */
  function Lookup(st: StoreState, id: string, now: int): (r: TaskRecord)
    ensures !Live(st, id, now) ==> r.IsEmpty()
    ensures Live(st, id, now) ==> r == st.records[id]
  {
    if Live(st, id, now) then st.records[id] else TaskRecord()
  }

  /** `hset` on a key: fields are merged into a live hash; an expired or missing key starts empty and has no time-to-live. */
  function HSet(st: StoreState, id: string, fields: TaskRecord -> TaskRecord, now: int): StoreState {
    if Live(st, id, now) then st.(records := st.records[id := fields(st.records[id])])
    else st.(records := st.records[id := fields(TaskRecord())], expiry := st.expiry - {id})
  }

  /** The fields `create_task` writes: the optional ones only when given and non-empty. */
  function CreationFields(url: string, title: Option<string>, channel: Option<string>,
                          thumbnail: Option<string>, now: int): (fields: TaskRecord -> TaskRecord)
  {
    (r: TaskRecord) =>
      r.(youtubeUrl := Some(url), status := Some(Pending), progress := Some(0.0),
         message := Some("Task queued for processing"), createdAt := Some(now),
         downloadCount := Some("0"),
         title := if title.Some? && title.value != "" then title else r.title,
         channel := if channel.Some? && channel.value != "" then channel else r.channel,
         thumbnail := if thumbnail.Some? && thumbnail.value != "" then thumbnail else r.thumbnail)
  }

  /** `create_task`: write the hash, push the id on the left of the pending list, set the time-to-live. */
  function Create(st: StoreState, id: string, url: string, title: Option<string>,
                  channel: Option<string>, thumbnail: Option<string>, now: int): StoreState
  {
    var written := HSet(st, id, CreationFields(url, title, channel, thumbnail, now), now);
    written.(pending := [id] + st.pending, expiry := written.expiry[id := now + RecordTtl])
  }

  /** `update_task`: nothing for an empty patch; otherwise `hset`, and a fresh time-to-live on completion. */
  function Update(st: StoreState, id: string, p: Patch, now: int): StoreState {
    if p.IsEmpty() then st
    else
      var written := HSet(st, id, (r: TaskRecord) => ApplyPatch(r, p), now);
      if p.status == Some(Completed) then written.(expiry := written.expiry[id := now + RecordTtl])
      else written
  }

  /**
   * `rpop("tasks:pending")`: None exactly on an empty list, which stays as it is; otherwise
   * the id at the right end, taken off the list. Task hashes and their time-to-live are untouched.
   */
  function Pop(st: StoreState): (r: (Option<string>, StoreState))
    ensures r.1.records == st.records && r.1.expiry == st.expiry
    ensures r.0.None? <==> |st.pending| == 0
    ensures r.0.None? ==> r.1 == st
    ensures r.0.Some? ==> st.pending == r.1.pending + [r.0.value]
  {
    if |st.pending| == 0 then (None, st)
    else (Some(st.pending[|st.pending| - 1]), st.(pending := st.pending[..|st.pending| - 1]))
  }

  /** `delete("task:<id>")`. */
  function Delete(st: StoreState, id: string): StoreState {
    st.(records := st.records - {id}, expiry := st.expiry - {id})
  }

  // ---------------------------------------------------------------- properties of the store

  /** A freshly created task reads back as queued, with the optional fields it was given. */
  lemma CreateThenLookup(st: StoreState, id: string, url: string, title: Option<string>,
                         channel: Option<string>, thumbnail: Option<string>, now: int, t: int)
    requires now <= t < now + RecordTtl
    ensures var r := Lookup(Create(st, id, url, title, channel, thumbnail, now), id, t);
      r.youtubeUrl == Some(url) && r.status == Some(Pending) && r.progress == Some(0.0)
      && r.message == Some("Task queued for processing") && r.createdAt == Some(now)
      && ReadDownloadCount(r) == Some(0)
      && (title.Some? && title.value != "" ==> r.title == title)
      && (channel.Some? && channel.value != "" ==> r.channel == channel)
      && (thumbnail.Some? && thumbnail.value != "" ==> r.thumbnail == thumbnail)
  {
    var st2 := Create(st, id, url, title, channel, thumbnail, now);
    var base := Lookup(st, id, now);
    assert st2.records[id] == CreationFields(url, title, channel, thumbnail, now)(base);
    assert Live(st2, id, t);
    ZeroCountReadsZero();
  }

  lemma ZeroCountReadsZero()
    ensures ParseInt("0") == Some(0)
  {
    IntTextRoundTrip(0);
    assert IntToText(0) == "0";
  }

  /** A created task is gone once its time-to-live has run out, unless written again. */
  lemma CreatedTaskExpires(st: StoreState, id: string, url: string, title: Option<string>,
                           channel: Option<string>, thumbnail: Option<string>, now: int, t: int)
    requires t >= now + RecordTtl
    ensures Lookup(Create(st, id, url, title, channel, thumbnail, now), id, t).IsEmpty()
  {
  }

  /**
   * Reading your own write: after `update_task` the record is the old one with the patch
   * applied, the empty hash standing for an absent or expired key.
   */
  lemma UpdateThenLookup(st: StoreState, id: string, p: Patch, now: int)
    ensures Lookup(Update(st, id, p, now), id, now) == ApplyPatch(Lookup(st, id, now), p)
  {
    if p.IsEmpty() {
      EmptyPatchIsIdentity(Lookup(st, id, now));
    }
  }

  /** `update_task` on one task leaves every other task and the pending list alone. */
  lemma UpdateFrames(st: StoreState, id: string, other: string, p: Patch, now: int, t: int)
    requires other != id
    ensures Lookup(Update(st, id, p, now), other, t) == Lookup(st, other, t)
    ensures Update(st, id, p, now).pending == st.pending
  {
  }

  /** Repeating an update changes nothing more. */
  lemma UpdateIdempotent(st: StoreState, id: string, p: Patch, now: int)
    ensures Update(Update(st, id, p, now), id, p, now) == Update(st, id, p, now)
  {
    if !p.IsEmpty() {
      var s1 := Update(st, id, p, now);
      assert Live(s1, id, now);
      ApplyIdempotent(Lookup(st, id, now), p);
      assert s1.records[id] == ApplyPatch(Lookup(st, id, now), p);
    }
  }

  /**
   * A task marked completed keeps its record through the whole file retention window
   * that follows, and one hour beyond it.
   */
  lemma CompletedOutlivesRetention(st: StoreState, id: string, p: Patch, now: int, t: int)
    requires p.status == Some(Completed)
    requires now <= t < now + FileRetention + 3600
    ensures Lookup(Update(st, id, p, now), id, t) == ApplyPatch(Lookup(st, id, now), p)
  {
  }

  /**
   * Writing to a task whose key has expired recreates it with only the patched fields,
   * and without a time-to-live unless the write marks it completed: the record then
   * never expires.
   */
  lemma RewriteOfExpiredKeyNeverExpires(st: StoreState, id: string, p: Patch, now: int, t: int)
    requires !p.IsEmpty() && p.status != Some(Completed) && !Live(st, id, now) && t >= now
    ensures Lookup(Update(st, id, p, now), id, t) == ApplyPatch(TaskRecord(), p)
  {
  }

  lemma DeleteRemoves(st: StoreState, id: string, t: int)
    ensures Lookup(Delete(st, id), id, t).IsEmpty()
    ensures forall other :: other != id ==> Lookup(Delete(st, id), other, t) == Lookup(st, other, t)
  {
  }

  /** `update_task` calls for one task made one after another at the instant `now`. */
  function UpdateAll(st: StoreState, id: string, ps: seq<Patch>, now: int): StoreState
    decreases |ps|
  {
    if |ps| == 0 then st else UpdateAll(Update(st, id, ps[0], now), id, ps[1..], now)
  }

  /** The record after a run of writes: each patch applied in turn. */
  function ApplyAll(r: TaskRecord, ps: seq<Patch>): TaskRecord
    decreases |ps|
  {
    if |ps| == 0 then r else ApplyAll(ApplyPatch(r, ps[0]), ps[1..])
  }

  lemma {:induction false} UpdateAllAppend(st: StoreState, id: string, ps: seq<Patch>, qs: seq<Patch>, now: int)
    ensures UpdateAll(st, id, ps + qs, now) == UpdateAll(UpdateAll(st, id, ps, now), id, qs, now)
    decreases |ps|
  {
    if |ps| > 0 {
      assert (ps + qs)[1..] == ps[1..] + qs;
      UpdateAllAppend(Update(st, id, ps[0], now), id, ps[1..], qs, now);
    } else {
      assert ps + qs == qs;
    }
  }

  lemma UpdateAllSnoc(st: StoreState, id: string, ps: seq<Patch>, p: Patch, now: int)
    ensures UpdateAll(st, id, ps + [p], now) == Update(UpdateAll(st, id, ps, now), id, p, now)
  {
    UpdateAllAppend(st, id, ps, [p], now);
    assert [p][1..] == [];
  }

  /** After a run of writes the record reads as the old one with every patch applied in order. */
  lemma {:induction false} UpdateAllThenLookup(st: StoreState, id: string, ps: seq<Patch>, now: int)
    ensures Lookup(UpdateAll(st, id, ps, now), id, now) == ApplyAll(Lookup(st, id, now), ps)
    decreases |ps|
  {
    if |ps| > 0 {
      UpdateThenLookup(st, id, ps[0], now);
      UpdateAllThenLookup(Update(st, id, ps[0], now), id, ps[1..], now);
    }
  }

  /** A run of writes to one task leaves every other task and the pending list alone. */
  lemma {:induction false} UpdateAllFrames(st: StoreState, id: string, other: string, ps: seq<Patch>, now: int, t: int)
    requires other != id
    ensures Lookup(UpdateAll(st, id, ps, now), other, t) == Lookup(st, other, t)
    ensures UpdateAll(st, id, ps, now).pending == st.pending
    decreases |ps|
  {
    if |ps| > 0 {
      UpdateFrames(st, id, other, ps[0], now, t);
      UpdateAllFrames(Update(st, id, ps[0], now), id, other, ps[1..], now, t);
    }
  }

  /** The last write of a run is applied on top of all the earlier ones. */
  lemma {:induction false} ApplyAllSnoc(r: TaskRecord, ps: seq<Patch>, q: Patch)
    ensures ApplyAll(r, ps + [q]) == ApplyPatch(ApplyAll(r, ps), q)
    decreases |ps|
  {
    if |ps| > 0 {
      assert (ps + [q])[1..] == ps[1..] + [q];
      ApplyAllSnoc(ApplyPatch(r, ps[0]), ps[1..], q);
    } else {
      assert ps + [q] == [q];
    }
  }

  /** The arguments of one `create_task` call. */
  datatype Creation = Creation(id: string, url: string, title: Option<string>, channel: Option<string>,
                               thumbnail: Option<string>, at: int)

  /** The ids of successive creations, in the order they were created. */
  function Ids(cs: seq<Creation>): (ids: seq<string>)
    ensures |ids| == |cs|
    ensures forall i :: 0 <= i < |cs| ==> ids[i] == cs[i].id
  {
    if |cs| == 0 then [] else [cs[0].id] + Ids(cs[1..])
  }

  /** `create_task` called for each creation in turn. */
  function CreateAll(st: StoreState, cs: seq<Creation>): StoreState
    decreases |cs|
  {
    if |cs| == 0 then st
    else CreateAll(Create(st, cs[0].id, cs[0].url, cs[0].title, cs[0].channel, cs[0].thumbnail, cs[0].at), cs[1..])
  }

  /** What `n` successive calls of `get_next_pending_task` return. */
  function PopN(st: StoreState, n: nat): (out: seq<Option<string>>)
    ensures |out| == n
    decreases n
  {
    if n == 0 then [] else [Pop(st).0] + PopN(Pop(st).1, n - 1)
  }

  /** Each id as a successful `rpop` returns it. */
  function Yielded(ids: seq<string>): (out: seq<Option<string>>)
    ensures |out| == |ids|
    ensures forall i :: 0 <= i < |ids| ==> out[i] == Some(ids[i])
  {
    if |ids| == 0 then [] else [Some(ids[0])] + Yielded(ids[1..])
  }

  function Reverse(s: seq<string>): (r: seq<string>)
    ensures |r| == |s|
    ensures forall i :: 0 <= i < |s| ==> r[i] == s[|s| - 1 - i]
  {
    if |s| == 0 then [] else Reverse(s[1..]) + [s[0]]
  }

  /** Every creation pushes its id on the left, so the list holds the new ids newest first, before the old ones. */
  lemma {:induction false} CreateAllPending(st: StoreState, cs: seq<Creation>)
    ensures CreateAll(st, cs).pending == Reverse(Ids(cs)) + st.pending
    decreases |cs|
  {
    if |cs| > 0 {
      var c := cs[0];
      var st1 := Create(st, c.id, c.url, c.title, c.channel, c.thumbnail, c.at);
      CreateAllPending(st1, cs[1..]);
      assert Ids(cs)[1..] == Ids(cs[1..]);
      assert Reverse(Ids(cs)) == Reverse(Ids(cs[1..])) + [c.id];
    }
  }

  /** A list holding `ids` newest first pops them oldest first, then None. */
  lemma {:induction false} PopsInOrder(st: StoreState, ids: seq<string>)
    requires st.pending == Reverse(ids)
    ensures PopN(st, |ids| + 1) == Yielded(ids) + [None]
    decreases |ids|
  {
    if |ids| == 0 {
      assert PopN(st, 1) == [None] + PopN(st, 0);
    } else {
      var (id, st1) := Pop(st);
      assert Reverse(ids) == Reverse(ids[1..]) + [ids[0]];
      assert id == Some(ids[0]) && st1.pending == Reverse(ids[1..]);
      PopsInOrder(st1, ids[1..]);
      assert PopN(st, |ids| + 1) == [Some(ids[0])] + PopN(st1, |ids[1..]| + 1);
      assert Yielded(ids) == [Some(ids[0])] + Yielded(ids[1..]);
    }
  }

  /**
   * The pending list is first-in first-out: tasks created one after another on an empty
   * list come out of successive `rpop`s in the order they were created, and then None.
   */
  lemma PendingIsFifo(st: StoreState, cs: seq<Creation>)
    requires st.pending == []
    ensures PopN(CreateAll(st, cs), |cs| + 1) == Yielded(Ids(cs)) + [None]
  {
    CreateAllPending(st, cs);
    assert Reverse(Ids(cs)) + st.pending == Reverse(Ids(cs));
    PopsInOrder(CreateAll(st, cs), Ids(cs));
  }

  /**
   * The Redis server behind `RedisTaskManager`, its contents held in fields that each
   * operation updates in place.
   */
  class TaskStoreServer {
    var records: map<string, TaskRecord>
    var expiry: map<string, int>
    var pending: seq<string>

    function State(): StoreState
      reads this
    {
      StoreState(records, expiry, pending)
    }

    constructor ()
      ensures State() == StoreState(map[], map[], [])
    {
      records, expiry, pending := map[], map[], [];
    }

    method CreateTask(id: string, url: string, title: Option<string>, channel: Option<string>,
                      thumbnail: Option<string>, now: int)
      modifies this
      ensures State() == Create(old(State()), id, url, title, channel, thumbnail, now)
    {
      var fields := CreationFields(url, title, channel, thumbnail, now);
      if Live(State(), id, now) {
        records := records[id := fields(records[id])];
      } else {
        records := records[id := fields(TaskRecord())];
      }
      pending := [id] + pending;
      expiry := expiry[id := now + RecordTtl];
    }

    method UpdateTask(id: string, p: Patch, now: int)
      modifies this
      ensures State() == Update(old(State()), id, p, now)
    {
      if !p.IsEmpty() {
        if Live(State(), id, now) {
          records := records[id := ApplyPatch(records[id], p)];
        } else {
          records := records[id := ApplyPatch(TaskRecord(), p)];
          expiry := expiry - {id};
        }
        if p.status == Some(Completed) {
          expiry := expiry[id := now + RecordTtl];
        }
      }
    }

    method GetTask(id: string, now: int) returns (r: TaskRecord)
      ensures r == Lookup(State(), id, now)
    {
      if id in records && (id in expiry ==> now < expiry[id]) {
        r := records[id];
      } else {
        r := TaskRecord();
      }
    }

    method GetNextPendingTask() returns (id: Option<string>)
      modifies this
      ensures (id, State()) == Pop(old(State()))
    {
      if |pending| == 0 {
        id := None;
      } else {
        id := Some(pending[|pending| - 1]);
        pending := pending[..|pending| - 1];
      }
    }

    method DeleteTask(id: string)
      modifies this
      ensures State() == Delete(old(State()), id)
    {
      records := records - {id};
      expiry := expiry - {id};
    }
  }
}
