# YouTube to MP3: a Dafny model of the task pipeline

This project models the backend of a service that turns a YouTube link into a downloadable
MP3. The backend is a Python system. A FastAPI gateway accepts a link, checks it against the
YouTube Data API and records a task in Redis. Celery workers then run the steps in order:
yt-dlp downloads the audio, ffmpeg converts it to MP3, and the temporary file is cleaned up.
The client polls the task's status and downloads the result. Periodic sweeps delete stale
temporary files and expire published files after seven days.

The model consists of these modules:

- `TaskStore`: the Redis task record and the pending list. It covers field patches, key
  time-to-live and the reads with their conversions. The class `TaskStoreServer` is the
  mutable store.
- `MetadataCodec`: the JSON text that `json.dumps` writes for the file metadata, and a reader
  for it.
- `Disk`: files as byte contents with a modification time and a change time. The class
  `FileSystem` is a mutable map of paths. Its set of undeletable paths stands for
  `os.remove` raising.
- `Jobs`: the Celery queue as a list of `.delay` calls.
- `YoutubeUrl`: `extract_video_id` with `urlparse` and `parse_qs`, and
  `validate_youtube_url`. The API's answer is a parameter.
- `DownloadFiles`, `DownloadProgress`, `SingleDownload` and `StrategyDownload`: the two
  variants of the download stage (`utils.py`, with one yt-dlp run, and `utils_new.py`, with
  four anti-bot strategies), their file validators and their progress hooks.
- `Converter`: `convert_to_mp3`. This covers the output path, the ffprobe duration, the
  parsing of ffmpeg's `time=` reports, the throttled progress writes and the final record.
- `Storage`: the file service. It covers task-file resolution, file metadata, serving with
  the title sanitiser, the temporary sweep and the output sweep.
- `Cleanup`: `cleanup_task` and `run_scheduled_cleanup`.
- `Workers`: the synchronous `process_task` and the Celery stages. These are download, then
  convert, then queue the cleanup, plus the progress callbacks.
- `StatusApi`: the three HTTP endpoints.

Each stage is specified by a function that gives its writes to the task record, in order,
together with its result (a "plan"). The methods that change the store, the filesystem or
the queue are proved against these plans. The plans' properties are proved as lemmas: what
the record reads after the writes, round trips, bands and monotonicity of progress,
idempotence of the sweeps, and frames.

Some inputs come from outside the program: the clock, the UUID, the Redis ping, yt-dlp's and
ffmpeg's outcomes, the listing of a directory and the API's answer. Each of these is a
parameter of the member that needs it. The task store keeps time in whole seconds, as Redis
expiry does. The download progress hook reads `time.time()` as a real number of seconds, so
its "Download completed in N.N seconds" message keeps the fraction. File times and the
sweeps' cutoffs are whole seconds, which the source reads as floats ("## Left out").

Outputs are named after the video title, `<title>.mp3`: yt-dlp writes `%(title)s.%(ext)s`
and the converter keeps the stem. So the file service's two ways of finding a task's file by
name work only when the title happens to carry the task's id. The output sweep reads the id
as the text before the first '_' of a name starting with "task-", so it needs a title that
starts with the id and '_'. `StatusApi.TitledOutputNotRecovered` states that any other title
is traced back to no task. `get_file_for_task` looks for an MP3 whose name contains the id.

## Model

| member | source | states |
|---|---|---|
| Text.ParseInt | backend/shared/redis_client.py:133-136 | `int(text)` succeeds only on text that is not blank once stripped, and a negative value comes from a leading '-' |
| Text.ParseIntChars | backend/shared/redis_client.py:133-136 | `int(text)` succeeds only on text holding a digit and nothing but digits, signs and whitespace |
| TaskStore.ParseStatus | backend/shared/redis_client.py:21-28 | a text read back as a status is that status's stored value |
| TaskStore.StatusRoundTrip | backend/shared/redis_client.py:21-28 | every status survives being stored as text and read back, so no two statuses share a value |
| TaskStore.EmptyPatchIsIdentity | backend/shared/redis_client.py:87-108 | an `update_task` call that names no field leaves the record as it is |
| TaskStore.ApplyMerge | backend/shared/redis_client.py:87-108 | two successive updates equal one update of the merged fields, the later value of each field winning |
| TaskStore.ApplyIdempotent | backend/shared/redis_client.py:87-108 | repeating an update changes nothing more |
| TaskStore.ApplyKeepsUnnamed | backend/shared/redis_client.py:87-108 | every field an update does not name keeps its value (status, progress, message, file path, error, count and metadata alike); link, creation time, title, channel and thumbnail are never touched |
| TaskStore.ApplyWritesNamed | backend/shared/redis_client.py:87-108 | every field an update names takes the value passed: status, progress, message, file path and error as given, the count as `str(n)` and the metadata as `json.dumps(m)` |
| TaskStore.ReadDownloadCount | backend/shared/redis_client.py:131-136 | a count is read exactly when the hash holds the `download_count` field; it is `int(text)` when that parses and 0 when it raises |
| TaskStore.CountWithoutDigitsReadsZero | backend/shared/redis_client.py:133-136 | a stored count holding no digit reads back as 0 |
| TaskStore.ReadFileMetadata | backend/shared/redis_client.py:138-143 | metadata is read exactly when the hash holds the field |
| TaskStore.DownloadCountRoundTrip | backend/shared/redis_client.py:100-101 | a count written through `update_task` reads back unchanged through `get_task` |
| TaskStore.FileMetadataRoundTrip | backend/shared/redis_client.py:103-105 | metadata written through `update_task` reads back unchanged through `get_task` |
| TaskStore.Pop | backend/shared/redis_client.py:155 | `rpop` yields None exactly on an empty list, which it leaves as it is; otherwise the list is what remains with the id yielded put back on its right end; task hashes and time-to-live are never touched |
| TaskStore.CreateThenLookup | backend/shared/redis_client.py:45-69 | within its lifetime a created task reads back as pending, progress 0, the queued message, its link, creation time, download count 0 and the non-empty optional fields it was given |
| TaskStore.CreatedTaskExpires | backend/shared/redis_client.py:68-69 | a created task that is not written again is gone seven days and one hour after creation |
| TaskStore.UpdateThenLookup | backend/shared/redis_client.py:71-112 | after `update_task` the record reads as the old one with the patch applied; an absent key starts from the empty hash |
| TaskStore.UpdateFrames | backend/shared/redis_client.py:107-108 | an update of one task leaves every other task and the pending list unchanged |
| TaskStore.UpdateIdempotent | backend/shared/redis_client.py:71-112 | repeating an update at the same instant leaves the store as after the first |
| TaskStore.CompletedOutlivesRetention | backend/shared/redis_client.py:110-112 | a record marked completed reads back for the whole seven-day file retention and one hour more |
| TaskStore.RewriteOfExpiredKeyNeverExpires | backend/shared/redis_client.py:107-112 | a non-completing update of an expired key recreates it holding only the patch, with no time-to-live |
| TaskStore.DeleteRemoves | backend/shared/redis_client.py:158-166 | a deleted task reads as empty and every other task is unchanged |
| TaskStore.UpdateAllThenLookup | backend/shared/redis_client.py:71-112 | after a run of updates the record reads as the old one with every patch applied in order |
| TaskStore.UpdateAllFrames | backend/shared/redis_client.py:107-108 | a run of updates to one task leaves every other task and the pending list unchanged |
| TaskStore.CreateAllPending | backend/shared/redis_client.py:66 | successive `create_task` calls push their ids on the left of the pending list: newest first, in front of what was there |
| TaskStore.PopsInOrder | backend/shared/redis_client.py:155 | a pending list holding ids newest first yields them to successive `rpop`s oldest first, and then None |
| TaskStore.PendingIsFifo | backend/shared/redis_client.py:34-156 | tasks created one after another with `create_task` on an empty pending list come out of successive `get_next_pending_task` calls in the order they were created, and then None |
| TaskStore.TaskStoreServer.constructor | backend/shared/redis_client.py:18-19 | a new store holds no task and an empty pending list |
| TaskStore.TaskStoreServer.CreateTask | backend/shared/redis_client.py:34-69 | the new state is `Create` of the old: hash written, id pushed, time-to-live set |
| TaskStore.TaskStoreServer.UpdateTask | backend/shared/redis_client.py:71-112 | the new state is `Update` of the old |
| TaskStore.TaskStoreServer.GetTask | backend/shared/redis_client.py:114-145 | the record returned is the lookup of the id at that instant |
| TaskStore.TaskStoreServer.GetNextPendingTask | backend/shared/redis_client.py:147-156 | the id returned and the new state are those of `Pop`, so successive calls after `CreateTask` calls return the ids first-in first-out (`PendingIsFifo`) |
| TaskStore.TaskStoreServer.DeleteTask | backend/shared/redis_client.py:158-166 | the new state is the old one without the task's key |
| MetadataCodec.EscapeIsAscii | backend/shared/redis_client.py:105 | the escaped text of any string is ASCII, as `ensure_ascii` promises |
| MetadataCodec.DecodeEscapedChar | backend/shared/redis_client.py:104-143 | every character, once escaped, reads back as itself and consumes exactly its escape |
| MetadataCodec.StringRoundTrip | backend/shared/redis_client.py:104-143 | reading an escaped string back stops exactly at its closing quote and yields the string |
| MetadataCodec.NatRoundTrip | backend/shared/redis_client.py:104-143 | a file size written as decimal digits reads back as itself |
| MetadataCodec.MetadataRoundTrip | backend/shared/redis_client.py:103-143 | `json.loads(json.dumps(m)) == m` for every metadata dictionary, `{}` included |
| MetadataCodec.ReadMetadata | backend/shared/redis_client.py:139-143 | text that does not decode reads as `{}` |
| MetadataCodec.ReadWrittenMetadata | backend/shared/redis_client.py:103-143 | the metadata read from the text written for `m` is `m` |
| MetadataCodec.UnparseableMetadataReadsEmpty | backend/shared/redis_client.py:140-143 | every stored text that `json.loads` rejects at its first character, the empty text included, reads as `{}` |
| Disk.DecodeUtf8Ignore | backend/download_service/utils.py:49-50 | decoding with undecodable bytes dropped never yields more characters than bytes |
| Disk.DecodeAscii | backend/download_service/utils.py:49-50 | ASCII bytes decode to the same characters one for one |
| Disk.Head | backend/download_service/utils.py:49-50 | `f.read(n)` yields the first `n` bytes, or the whole file when shorter |
| Disk.FileSystem.constructor | backend/file_service/storage.py:24-25 | the filesystem starts with the given files and undeletable paths |
| Disk.FileSystem.Remove | backend/file_service/cleanup.py:62-63 | `os.remove` succeeds exactly on an existing deletable path and then removes only it; on failure nothing changes |
| Disk.FileSystem.Touch | backend/file_service/storage.py:183-185 | `os.utime(path, None)` sets the file's modification time, and with it its change time, to now and changes nothing else |
| Disk.FileSystem.Write | backend/conversion_service/converter.py:107-125 | the encoder's output replaces whatever was at the path, and nothing else changes |
| Jobs.JobQueue.constructor | backend/download_service/worker.py:67-68 | the queue starts empty |
| Jobs.JobQueue.Enqueue | backend/download_service/worker.py:68 | `.delay` appends exactly one job at the end |
| YoutubeUrl.Without | backend/shared/youtube_api.py:45 | the tabs and newlines `urlparse` drops from a link are absent from what it parses, and nothing is added |
| YoutubeUrl.WithoutAbsent | backend/shared/youtube_api.py:45 | a link free of tabs and newlines is parsed as written |
| YoutubeUrl.StripC0Left | backend/shared/youtube_api.py:45 | what `urlparse` parses starts after the leading control characters and spaces |
| YoutubeUrl.QueryValue | backend/shared/youtube_api.py:46-47 | the first non-empty value of the parameter, as `parse_qs(...).get(name, [None])[0]` gives it; empty values are dropped |
| YoutubeUrl.EmbedMatch | backend/shared/youtube_api.py:50-51 | a match of `/v/([^/\?]+)` is a non-empty run free of '/' and '?' |
| YoutubeUrl.ExtractVideoId | backend/shared/youtube_api.py:31-58 | no id without "youtube.com" or "youtu.be"; with "youtube.com" and "v=", exactly the query's `v` value; from "/v/", a run free of '/' and '?' |
| YoutubeUrl.Validate | backend/shared/youtube_api.py:70-81 | the link goes to the API exactly when it is non-empty, names a YouTube host and yields a non-empty id, which is the one asked about; every rejection has a message |
| YoutubeUrl.ReadAnswer | backend/shared/youtube_api.py:93-124 | a video is accepted exactly when the API returns an item that is embeddable and not private; the metadata is the item's fields with the asked id; every refusal has a message |
| YoutubeUrl.ValidateYoutubeUrl | backend/shared/youtube_api.py:60-124 | valid exactly when the link passes and the API accepts the video; the metadata's id is the one extracted from the link; a rejected link is reported without asking the API |
| YoutubeUrl.WatchLinkRoundTrip | backend/shared/youtube_api.py:42-47 | `https://www.youtube.com/watch?v=<id>`, followed by any further parameters, gives back the id and is sent to the API |
| YoutubeUrl.ShortLinkRoundTrip | backend/shared/youtube_api.py:54-56 | `https://youtu.be/<id>` gives back the id and is sent to the API |
| YoutubeUrl.EmbedLinkRoundTrip | backend/shared/youtube_api.py:49-51 | `https://www.youtube.com/v/<id>` gives back the id and is sent to the API |
| YoutubeUrl.EmptyShortLinkRejected | backend/shared/youtube_api.py:54-81 | `https://youtu.be/` yields the empty id and is rejected as having no video id |
| YoutubeUrl.EmptyVParameterWins | backend/shared/youtube_api.py:44-51 | an embed link followed by "?v=" is rejected although the "/v/" search would find the id: the empty `v` parameter is all that is read |
| YoutubeUrl.FromQuery | backend/shared/youtube_api.py:42-47 | with "youtube.com" and "v=" in the link, the id depends on the parsed query alone |
| YoutubeUrl.FromPath | backend/shared/youtube_api.py:54-56 | for a youtu.be link the id is the path stripped of slashes, or none for an empty path |
| YoutubeUrl.FromEmbed | backend/shared/youtube_api.py:49-51 | a YouTube link with "/v/" and no "v=" takes its id from the "/v/" search |
| DownloadFiles.AudioFiles | backend/download_service/utils.py:260-263 | the files collected are at most as many as the listing holds |
| DownloadFiles.FirstAudio | backend/download_service/utils.py:260-281 | the index of the first listed name with an audio extension, or none when no name has one |
| DownloadFiles.AudioFilesStart | backend/download_service/utils.py:260-281 | the collected list is empty exactly when no name has an audio extension, and its head is the first such name joined to the directory |
| DownloadFiles.AudioFilesSound | backend/download_service/utils.py:261-263 | every collected path is a listed name with an audio extension, joined to the directory |
| DownloadFiles.CollectAudioFiles | backend/download_service/utils.py:260-263 | the loop collects exactly the audio files of the listing, in listing order |
| DownloadFiles.FirstLargest | backend/download_service/utils.py:270 | `max(..., key=os.path.getsize)`: an entry of greatest size, the first among equals |
| DownloadFiles.PickFile | backend/download_service/utils.py:265-281 | nothing is picked exactly when the directory is empty |
| DownloadFiles.PickPrefersAudio | backend/download_service/utils.py:265-281 | with an audio file present, the first one is picked |
| DownloadFiles.PickLargestOtherwise | backend/download_service/utils.py:266-274 | with no audio file, the first of the largest files is picked, marked as picked by size |
| DownloadProgress.Percent | backend/download_service/utils.py:110-115 | the percentage is never negative |
| DownloadProgress.ScaledProgress | backend/download_service/utils.py:132-139 | `int(10 + p * 0.4)` is at least 10 and is the whole part of the scaled value |
| DownloadProgress.DownloadingPatch | backend/download_service/utils.py:108-141 | a downloading event writes status downloading |
| DownloadProgress.ProgressInBand | backend/download_service/utils.py:110-141 | with no more bytes downloaded than the total, the percentage is 0 to 100 and the progress written lies in the download's band, 10 to 50 |
| DownloadProgress.ProgressMonotone | backend/download_service/utils.py:110-139 | against the same total, more bytes downloaded never write less progress |
| DownloadProgress.MessageShowsPercent | backend/download_service/utils.py:117-135 | the message shows the percentage rounded to one decimal, then the speed and ETA texts |
| SingleDownload.MarkerRejects | backend/download_service/utils.py:52-64 | a header holding any MHTML marker, in any case, makes the file invalid |
| SingleDownload.SignatureAccepts | backend/download_service/utils.py:66-84 | a file of at least 1 KB without a marker whose first 16 bytes hold an audio signature is valid |
| SingleDownload.ExtensionDecidesOtherwise | backend/download_service/utils.py:86-91 | without a marker or a signature, the file is valid exactly when its path ends with an audio extension |
| SingleDownload.ExtensionIgnoresCase | backend/download_service/utils.py:88 | the extension check ignores case |
| SingleDownload.SmallFilesRejected | backend/download_service/utils.py:41-46 | a missing file, or one under 1024 bytes, is invalid |
| SingleDownload.HookFailureKeepsProgress | backend/download_service/utils.py:167-174 | an error event marks the task failed with its error, or "Unknown download error", and leaves progress and message as they were |
| SingleDownload.FinishShowsElapsed | backend/download_service/utils.py:150-158 | the finished event's message shows the elapsed seconds rounded to one decimal |
| SingleDownload.ProgressHook.constructor | backend/download_service/utils.py:102-105 | the hook remembers its task and the `time.time()` reading, with its fraction, when it was made |
| SingleDownload.ProgressHook.Call | backend/download_service/utils.py:107-181 | the store changes by the event's patch, with the real elapsed time since the hook was made, or not at all for any other status |
| SingleDownload.SelectFile | backend/download_service/utils.py:259-293 | the file chosen and the writes made are those of the selection plan |
| SingleDownload.DownloadAudio | backend/download_service/utils.py:184-316 | the result and the store after the call are those of the download plan for the run and the task directory |
| SingleDownload.ResultAgreesWithRecord | backend/download_service/utils.py:184-316 | a failure leaves the record failed with the very error returned, either the timeout text or "Download error: ..."; a success leaves it downloading at 50 with the completion message |
| SingleDownload.FailureKeepsLastProgress | backend/download_service/utils.py:297-316 | a failed download leaves the progress last written: 40 after a clean yt-dlp exit, else 20 |
| SingleDownload.TimeoutIgnoresListing | backend/download_service/utils.py:297-304 | a timed-out run fails with the timeout text, whatever the directory holds |
| SingleDownload.ProgressOnSuccess | backend/download_service/utils.py:198-293 | a successful run writes four updates with strictly rising progress |
| SingleDownload.SuccessReturnsValidFile | backend/download_service/utils.py:280-295 | the path returned is the one picked, and its file passes validation |
| StrategyDownload.VerdictDependsOnHeaderOnly | backend/download_service/utils_new.py:44-74 | two files of at least 1 KB with the same first 1024 bytes get the same verdict |
| StrategyDownload.IndicatorRejects | backend/download_service/utils_new.py:56-72 | any MHTML or HTML indicator in the header makes the file invalid |
| StrategyDownload.HookWritesInBand | backend/download_service/utils_new.py:89-160 | only downloading, finished and error events write; an error writes failed at 0, and a download writes progress in the 10 to 50 band |
| StrategyDownload.ProgressHook.constructor | backend/download_service/utils_new.py:84-87 | the hook remembers its task and the `time.time()` reading when it was made |
| StrategyDownload.ProgressHook.Call | backend/download_service/utils_new.py:89-167 | the store changes by the event's patch, or not at all for any other status |
| StrategyDownload.AttemptPatch | backend/download_service/utils_new.py:280-285 | the attempt of strategy `n` writes progress 15 + 8n |
| StrategyDownload.AttemptPatches | backend/download_service/utils_new.py:274-285 | the first `k` attempts write one update each, in order |
| StrategyDownload.FirstSuccess | backend/download_service/utils_new.py:274-312 | the first strategy whose run exits 0, every earlier one having failed; none when all fail |
| StrategyDownload.Tried | backend/download_service/utils_new.py:274-300 | between one and four strategies are tried |
| StrategyDownload.TryStrategies | backend/download_service/utils_new.py:270-312 | the loop succeeds exactly when some strategy does, reports the last strategy's failure text otherwise, and writes one attempt update per strategy tried |
| StrategyDownload.SelectFile | backend/download_service/utils_new.py:334-387 | the file chosen and the writes made are those of the selection plan |
| StrategyDownload.DownloadAudio | backend/download_service/utils_new.py:170-398 | the result and the store after the call are those of the download plan for the runs and the task directory |
| StrategyDownload.LaterStrategiesNeverRun | backend/download_service/utils_new.py:297-300 | the outcome depends on no run after the first success |
| StrategyDownload.AllFailedReportsLastError | backend/download_service/utils_new.py:314-324 | when all four fail, the error carries the fourth strategy's failure text, after seven writes |
| StrategyDownload.ResultAgreesWithRecord | backend/download_service/utils_new.py:170-398 | a failure leaves the record failed at progress 0 with the non-empty error returned; a success leaves it downloading at 80 |
| StrategyDownload.ProgressRisesOnSuccess | backend/download_service/utils_new.py:183-395 | on the way to a successful download, the progress written only ever rises |
| StrategyDownload.SuccessWrites | backend/download_service/utils_new.py:183-395 | a success after `m` attempts writes 10, 20, the attempt values, 60 and 80 |
| Converter.OutputPath | backend/conversion_service/converter.py:70-73 | the output ends in ".mp3", and its base name is the input's base name without its extension, plus ".mp3" |
| Converter.OutputKeepsTitle | backend/conversion_service/converter.py:70-73 | a downloaded `<dir>/<title>.<ext>` becomes `STORAGE_DIR/<title>.mp3` |
| Converter.Progress | backend/conversion_service/converter.py:147-151 | progress is at most 100, not negative for a non-negative time, and 50 when the duration is unknown |
| Converter.ProgressMonotone | backend/conversion_service/converter.py:147-151 | a later time never gives less progress |
| Converter.ClockRoundTrip | backend/conversion_service/converter.py:141-145 | the clock ffmpeg prints, HH:MM:SS.cc, reads back as its number of seconds |
| Converter.ClockFields | backend/conversion_service/converter.py:144-145 | three fields joined by ':' stand for h*3600 + m*60 + s seconds |
| Converter.SampleOfStatusLine | backend/conversion_service/converter.py:139-145 | an ffmpeg status line yields its clock as the sample time |
| Converter.NotAvailableFails | backend/conversion_service/converter.py:141-145 | a "time=N/A" report fails the unpacking with Python's error text |
| Converter.Readings | backend/conversion_service/converter.py:132-162 | at most one sample time is read per line |
| Converter.Throttle | backend/conversion_service/converter.py:153-162 | at most one write per sample |
| Converter.OneInThree | backend/conversion_service/converter.py:153-162 | below 100, exactly the 1st, 4th, 7th, ... samples are written: (n + 2) / 3 writes |
| Converter.FullSampleWritten | backend/conversion_service/converter.py:154 | a sample that reaches 100 is written whatever the counter |
| Converter.ThrottleBounded | backend/conversion_service/converter.py:147-160 | every progress written is at most 100, 50 for an unknown duration and not negative for non-negative times |
| Converter.ThrottleNeverFalls | backend/conversion_service/converter.py:147-160 | with ffmpeg's clock moving forward, the progress written never falls |
| Converter.SkipsOtherLines | backend/conversion_service/converter.py:139 | lines without "time=" are passed over |
| Converter.BadSampleStops | backend/conversion_service/converter.py:141-145 | a sample that fails to parse ends the reading with its error |
| Converter.FollowProgress | backend/conversion_service/converter.py:127-162 | the loop reports the reading's error and writes exactly the throttled sample updates |
| Converter.ConvertToMp3 | backend/conversion_service/converter.py:46-203 | the result and store are those of the conversion plan; no file changes unless ffmpeg is started; once it is, what it leaves at the output path stays there, on failure too, and on success the input is removed where the filesystem allows |
| Converter.Encode | backend/conversion_service/converter.py:106-190 | from the start of ffmpeg: the result and writes of the encoding plan; ffmpeg's output, complete or partial, replaces the output path, and only success removes the input |
| Converter.WithOutput | backend/conversion_service/converter.py:107-125 | ffmpeg run with `-y` leaves its output at the output path, overwriting what was there, and no other path changes |
| Converter.FailedConversionKeepsFiles | backend/conversion_service/converter.py:141-170 | a conversion that fails after ffmpeg started leaves ffmpeg's output in the output directory and keeps the input; one that fails before touches no file |
| Converter.FailureRecord | backend/conversion_service/converter.py:192-203 | a failure leaves the record failed with the error returned, which starts with "Conversion error: " |
| Converter.ResultAgreesWithRecord | backend/conversion_service/converter.py:46-203 | a failure leaves the record failed with the error returned; a success leaves it completed at 100 holding the output path |
| Converter.EncoderErrorOmitsDiagnostics | backend/conversion_service/converter.py:164-170 | a failing ffmpeg is reported with its code and an empty stderr text, since the loop has already read stderr |
| Converter.MissingEncoderFailsAtOnce | backend/conversion_service/converter.py:57-60 | without ffmpeg, the only write is the failure: the record never says converting |
| Converter.NotANumberDuration | backend/conversion_service/converter.py:100-104 | ffprobe's "N/A" duration counts as unknown |
| Converter.UnknownDurationReportsHalf | backend/conversion_service/converter.py:148-151 | with the duration unknown, every sample written reports 50 |
| Storage.SizeTextReadsBack | backend/file_service/storage.py:91-97 | the size text ends in " MB" exactly from 1 MiB on, and its number reads back as the size in that unit rounded to two decimals |
| Storage.FileMetadataOf | backend/file_service/storage.py:72-109 | `{}` exactly for an empty or missing path; otherwise the file's size and its base name |
| Storage.SanitisedWithIsSafe | backend/file_service/storage.py:148-163 | with any list of problem texts that holds `? * " < > \|`, the sanitised title is ASCII, at most 100 characters and free of `/ \ : ? * " < > \|` |
| Storage.SanitisedIsSafe | backend/file_service/storage.py:148-163 | the title sanitised with the list as written, which `serve_file` runs, is ASCII, at most 100 characters and free of `/ \ : ? * " < > \|`; so is the title sanitised with the list as meant |
| Storage.SafeTitleUnchanged | backend/file_service/storage.py:148-163 | with the list as meant, a safe ASCII title of at most 100 characters is its own sanitised name |
| Storage.CommaSpaceReplacedAsWritten | backend/file_service/storage.py:154 | with the list as written, "a, b" is served as "a_b"; with the list as meant, it is kept |
| Storage.TitleAlwaysUsed | backend/file_service/storage.py:145-173 | for a non-blank title, the download name is the title sanitised with the list as written plus ".mp3"; the `audio_<id>.mp3` fallback is never taken, because that name is always ASCII |
| Storage.FirstCandidate | backend/file_service/storage.py:59-65 | there is a candidate exactly when some listed name contains the id and ends in ".mp3", and the first candidate is the first such name |
| Storage.ResolveFile | backend/file_service/storage.py:35-70 | the path returned exists and is non-empty; an empty record yields nothing; a stored existing path is kept; a recovered path is the first candidate |
| Storage.RecoveryWritesBack | backend/file_service/storage.py:54-70 | without a usable stored path, the first candidate is written back, and it is returned exactly when its file exists |
| Storage.RecoveredPathStored | backend/file_service/storage.py:67-68 | after the write-back, the record holds the recovered path |
| Storage.GetFileForTask | backend/file_service/storage.py:35-70 | the path returned and the store after the call are those the resolution gives |
| Storage.Serving | backend/file_service/storage.py:111-217 | a file is served exactly for a completed task whose file is found; errors are 400 or 404 and write at most the recovered path |
| Storage.ServeFile | backend/file_service/storage.py:111-217 | the outcome and the writes are those of the serving plan; the served file's modification and change times become now and nothing else changes on disk |
| Storage.ServeRecordsDownload | backend/file_service/storage.py:177-188 | after a serve, the record is completed, holds the served path and its metadata, and reads a download count one above the one before |
| Storage.ServePatchesAre | backend/file_service/storage.py:145-188 | a serve writes the recovered path, then the metadata, then the counter |
| Storage.ServedNameIsSafe | backend/file_service/storage.py:145-175 | the name `serve_file` gives, with the list as written, is a safe ASCII ".mp3" name of at most 104 characters for a titled task, and the file's base name otherwise |
| Storage.SweepRemovesStale | backend/file_service/storage.py:253-276 | a sweep removes exactly the stale, deletable files on its paths, each once, leaves every other file as it was, and frees the sum of their sizes |
| Storage.SweepCounts | backend/file_service/storage.py:253-276 | the files removed plus the files left make up the files before |
| Storage.SweepOfNothing | backend/file_service/storage.py:253-276 | a sweep that finds nothing to remove changes nothing |
| Storage.SweepIdempotent | backend/file_service/storage.py:253-276 | sweeping again with the same cutoff removes nothing more |
| Storage.CleanupTempFiles | backend/file_service/storage.py:219-278 | the walk removes the files last modified over 24 hours ago and reports their number and total size |
| Storage.TaskIdOf | backend/file_service/storage.py:311-314 | a task id read from a file name starts with "task-" and holds no '_' |
| Storage.TaskIdRoundTrip | backend/file_service/storage.py:313-314 | a name written as `<id>_<rest>` yields the id back |
| Storage.OutputSweepIsSweep | backend/file_service/storage.py:293-320 | the output sweep removes what the generic sweep over the output paths removes, by last change |
| Storage.ExpiredAtMostGone | backend/file_service/storage.py:311-330 | at most one task is marked per removed file |
| Storage.OutputSweepIdempotent | backend/file_service/storage.py:280-338 | a second run at the same instant removes nothing and marks no task |
| Storage.ExpiredNamedByRemoved | backend/file_service/storage.py:311-330 | every task marked expired is named by a file the sweep removed |
| Storage.ExpireAllMarks | backend/file_service/storage.py:325-330 | every marked task reads as expired with the expiry message, and every other task is unchanged |
| Storage.SweepOutputFile | backend/file_service/storage.py:296-330 | one listed name: the file is removed exactly when it is stale and deletable, and then its task, if the name carries one, is marked expired |
| Storage.ScheduledCleanup | backend/file_service/storage.py:280-338 | the files left, the count, the bytes freed and the expired tasks are those of the output sweep seven days before now |
| Cleanup.CleanupOf | backend/file_service/cleanup.py:51-73 | success exactly when the file is absent or deletable; removed exactly when it is present and deletable; an error names the file |
| Cleanup.CleanupLeaves | backend/file_service/cleanup.py:62-65 | only the named file can go, and only when it is deletable |
| Cleanup.CleanupTask | backend/file_service/cleanup.py:51-73 | the reply and the files left are those `CleanupOf` and `CleanupLeaves` give |
| Cleanup.RunScheduledCleanup | backend/file_service/cleanup.py:90-123 | the temporary sweep, then the output sweep over what it left; the report holds both counts and sizes, and the store the expired tasks |
| Cleanup.TempSweepTakesOutputFiles | backend/file_service/storage.py:253-276 | an output file unmodified for a day is removed by the temporary sweep |
| Cleanup.OutputSweepFindsNothing | backend/file_service/cleanup.py:104-105 | when the walk lists every output file, the output sweep that follows removes nothing and marks no task |
| Cleanup.WorkingPaths | backend/file_service/storage.py:257-258 | the walk without the output directory keeps exactly the paths outside it |
| Cleanup.WorkingSweepKeepsRetention | backend/file_service/storage.py:280-330 | with the output directory left out of the temporary sweep, output files reach the output sweep unchanged, and it removes exactly those past the seven-day retention |
| Workers.DownloadError | backend/worker.py:72-79 | no error exactly when the download gave a non-empty path; otherwise a non-empty error |
| Workers.ConversionError | backend/worker.py:86-93 | no error exactly when the conversion gave a non-empty path; otherwise a non-empty error |
| Workers.DownloadFallbackUnused | backend/worker.py:72-79 | the "Download failed" fallback is never written: the downloader's own error is reported |
| Workers.ConversionFallbackUnused | backend/worker.py:86-93 | the "Conversion failed" fallback is never written, and a converted file is the output path |
| Workers.ProcessTask | backend/worker.py:39-107 | the return value and the writes are those of the process plan for the task as read; the files change only once the download has succeeded, and then as the converter leaves them, on failure too |
| Workers.ProcessTaskRecord | backend/worker.py:39-107 | a missing task writes nothing; a stop leaves the record failed with the non-empty error; a finish leaves it completed at 100 with the MP3 path |
| Workers.FinishedIffBothStages | backend/worker.py:67-107 | a task with a link finishes exactly when the download and then the conversion both succeed, and the MP3 is the converter's output path |
| Workers.DownloadAudioTask | backend/download_service/worker.py:18-70 | the reply, the writes and the job queued are those of the download stage |
| Workers.ConvertToMp3Task | backend/conversion_service/worker.py:17-71 | the reply, the writes and the job queued are those of the conversion stage; the files are as the converter leaves them, on failure too |
| Workers.DownloadStageHandsOn | backend/download_service/worker.py:33-70 | a conversion job is queued exactly on success, for the file downloaded, leaving the record at 50; a failure queues nothing and leaves it failed |
| Workers.ConvertStageHandsOn | backend/conversion_service/worker.py:32-71 | a cleanup job for the downloaded file is queued exactly on success, leaving the record completed at 100 with the MP3 path; a failure queues nothing |
| Workers.ChainAgreesWithProcessTask | backend/worker.py:39-107 | the Celery chain ends as `process_task` does: the same status and error on failure, completion on the same condition and with the same file |
| Workers.Truncate | backend/download_service/worker.py:106 | `int(x)` truncates toward zero |
| Workers.DownloadCallbackPatch | backend/download_service/worker.py:96-115 | progress is written exactly when the percentage text is a number; the message is always written, and nothing else |
| Workers.DownloadCallbackInBand | backend/download_service/worker.py:99-107 | a percentage from 0 to 100 is reported between 10 and 50 |
| Workers.DownloadCallbackMonotone | backend/download_service/worker.py:99-107 | a larger percentage never reports less progress |
| Workers.ConversionCallbackPatch | backend/conversion_service/worker.py:98-116 | progress is written exactly when the percentage can be scaled; the message is always written, and nothing else |
| Workers.ConversionCallbackInBand | backend/conversion_service/worker.py:98-108 | a percentage from 0 to 100 is reported between 60 and 90, and an absent one at 60 |
| Workers.ConversionCallbackMonotone | backend/conversion_service/worker.py:98-108 | a larger percentage never reports less progress |
| Workers.DownloadProgressCallback | backend/download_service/worker.py:85-118 | one update of the task with the callback's patch |
| Workers.ConversionProgressCallback | backend/conversion_service/worker.py:86-119 | one update of the task with the callback's patch |
| StatusApi.NewTaskId | backend/api_gateway/routers/download.py:46 | a new id is "task-" and eight hex digits: 13 characters without '_' |
| StatusApi.NewTaskIdRecoverable | backend/api_gateway/routers/download.py:46 | a file named with a new task's id, '_' and anything after is traced back to that task |
| StatusApi.TitledOutputNotRecovered | backend/file_service/storage.py:311-314 | an output `<title>.mp3` whose title does not start with "task-" is traced back to no task |
| StatusApi.DownloadReplyOf | backend/api_gateway/routers/download.py:29-80 | accepted exactly when Redis answers and the link validates, with the new id and "pending"; otherwise 503, or 400 with the validator's message |
| StatusApi.DownloadVideo | backend/api_gateway/routers/download.py:29-80 | a refused request changes nothing; an accepted one creates the task and either queues the download job or records that no worker is available |
| StatusApi.AcceptedTaskIsPending | backend/api_gateway/routers/download.py:62-78 | an accepted task reads back as pending at 0 with its link and title, and its message says whether a worker will take it |
| StatusApi.NoWorkerRewritesMessage | backend/api_gateway/routers/download.py:73-78 | without a worker, the task differs from the created one in its message only |
| StatusApi.ExpiryText | backend/api_gateway/routers/download.py:144-157 | an expiry sentence is given exactly while time is left |
| StatusApi.ExpiryDescribesRemaining | backend/api_gateway/routers/download.py:144-155 | between `d` days `h` hours and one hour more left, the sentence names exactly `d` and `h` |
| StatusApi.LastHourReadsZeroHour | backend/api_gateway/routers/download.py:154-155 | in the last hour, the sentence reads "File expires in 0 hour" |
| StatusApi.NewFileExpiresInSevenDays | backend/api_gateway/routers/download.py:139-153 | a task completed when it was created reports "File expires in 7 days" |
| StatusApi.StatusMetadata | backend/api_gateway/routers/download.py:121-131 | stored metadata is used when non-empty; otherwise the file is looked for and, when found, its metadata is computed and saved |
| StatusApi.ResponseIgnoresPathAndMetadata | backend/api_gateway/routers/download.py:108-161 | the response reads neither the stored path nor the stored metadata of the record |
| StatusApi.StatusOf | backend/api_gateway/routers/download.py:82-163 | an error exactly when Redis is down or the task is missing, and always as a 500; otherwise completed fields exactly for a completed task, and an error field exactly for a failed one |
| StatusApi.GetTaskStatus | backend/api_gateway/routers/download.py:82-163 | the reply and the writes are those of `StatusOf` on the record as read |
| StatusApi.StatusWritesRead | backend/api_gateway/routers/download.py:126-131 | the status writes store the metadata and leave every field the response reads alone |
| StatusApi.StatusSettles | backend/api_gateway/routers/download.py:119-131 | once the file has been found, asking again gives the same reply and writes nothing |
| StatusApi.DownloadFile | backend/api_gateway/routers/download.py:165-188 | 503 when Redis does not answer, with nothing changed; otherwise what `serve_file` gives and does |

## Left out

- Exception handlers are not modelled. These are `process_task`'s handler
  (backend/worker.py:109-120), the download and conversion tasks' handlers
  (download_service/worker.py:72-83, conversion_service/worker.py:73-84) and the handler of
  `scheduled_cleanup_task` (file_service/cleanup.py:85-88). The model's store, filesystem and
  queue never raise. The failures the source does expect (subprocess outcomes, `os.remove`,
  JSON and number parsing) are modelled as values.
- The worker's main loop (backend/worker.py:122-149), the scheduler and the command line of
  file_service/cleanup.py:125-175, and the Celery and FastAPI wiring are not modelled.
  They only call the modelled operations repeatedly.
- The Redis check in `run_scheduled_cleanup` (file_service/cleanup.py:100-101) only logs a
  warning. It is not an input of `Cleanup.RunScheduledCleanup`.
- The two sweeps of a scheduled run read the clock at one instant, `now`. The source reads
  it once per sweep.
- Disk.FileEntry, Disk.FileSystem.Touch, Storage.Stale, Storage.CleanupTempFiles and
  Storage.ScheduledCleanup: file times, `now` and the sweep cutoffs are whole seconds. The
  source compares float `os.path.getmtime` / `getctime` against float `time.time()` minus
  24 hours or seven days (file_service/storage.py:254-263, 292-306). `os.utime(path, None)`
  stamps a float time (file_service/storage.py:185). So a file within a second of a cutoff
  may be judged differently.
- Floating point elsewhere is modelled with exact reals. `Rounded` uses round-half-even on the exact
  value, where Python rounds the binary double. `float()` texts with an exponent,
  underscores, "inf" or "nan" are not accepted by `ParseReal`. An "inf" percentage would
  raise OverflowError in `int()`, which the callbacks do not catch.
- DownloadFiles: the listing holds files only. `os.listdir(task_dir)` also returns
  sub-directories (download_service/utils.py:261, 267-270), and `max(..., key=os.path.getsize)`
  could pick one of them.
- Text.ParseInt: only ASCII digits are read, with no '_' between them. Python's `int()` also
  accepts underscores between digits ("1_000" gives 1000) and any Unicode decimal digit
  (the Arabic-Indic digit U+0663 gives 3). The model returns None for both, so such a stored count reads as 0.
- Text.ParseIntChars: inherits that gap. Python also succeeds on texts holding '_' between
  digits or non-ASCII decimal digits.
- TaskStore.CountWithoutDigitsReadsZero: inherits that gap. A count made only of non-ASCII
  decimal digits reads as that number in Python, and as 0 in the model.
- SingleDownload.ProgressHook and StrategyDownload.ProgressHook are modelled, but nothing in
  the pipeline installs them. Both `download_audio` functions run the yt-dlp command line
  through `subprocess.run` (download_service/utils.py:239, download_service/utils_new.py:289).
- Workers.ConversionCallbackPatch: only whole-number or absent percentages are modelled. A
  float percentage is left out.
- `cleanup_temp_files(task_id)` (file_service/storage.py:232-251) is left out because
  nothing calls it with a task id.
- `urlparse`: `urlsplit`'s checks are left out. These are the ValueError for a
  malformed IPv6 host and the NFKC netloc check. `%XX` escapes at or above 0x80, which
  Python decodes as UTF-8, are kept as text.
- The unused `task_data` dictionary in `download_video` (api_gateway/routers/download.py:49-59)
  has no effect and is left out. The "Untitled Video" and "Unknown Channel" defaults of
  api_gateway/routers/download.py:65-66 never take effect. `validate_youtube_url` always puts
  the 'title' and 'channel' keys into its metadata (shared/youtube_api.py:108-114), though
  their values may be None. The model passes the title and channel through as options, as
  the source does. `create_task` then skips a missing one.
- The Content-Disposition header, URL quoting and the `FileResponse` itself
  (file_service/storage.py:192-217) are left out. `Storage.Serving` returns the path and
  the download name.
- The YouTube Data API call is the `ApiAnswer` parameter. The API key check in
  `get_youtube_client` is folded into `ApiOtherError`.
- Celery's `update_state` calls in the progress hooks only report to Celery and are left
  out. So are the log and print calls.
- The "/v/" form is read with the regular expression the code uses, `/v/([^/\?]+)`. This
  also matches after a '#'.
- `check_ffmpeg_installed` is the flag `installed`. ffmpeg's stderr is a list of lines
  given in advance. The model does not capture interleaving with the process.
- The metadata reader decodes the documents `json.dumps` writes for file metadata, and `{}`.
  Any other text reads as `{}`. Python's `json.loads` would return other well-formed JSON,
  such as a number or a reordered object, as it stands. Only the texts it rejects at the
  first character are stated (`MetadataCodec.UnparseableMetadataReadsEmpty`).
- The `.mp3`, `.m4a`, ... extensions are checked on the exact case in `DownloadFiles`, as
  `str.endswith` does. The validator's extension check lower-cases only A-Z. The
  `HasMarker` comment explains why that agrees with Python here.

## Findings

| source | as written | input that shows it | evidently intended | confidence | as-written member | corrected member |
|---|---|---|---|---|---|---|
| backend/file_service/storage.py:24-25, 253-276 | the 24-hour temporary sweep walks all of TEMP_DIR, which contains STORAGE_DIR | a published MP3 not downloaded for 25 hours is removed by the temporary sweep; its task is not marked expired, and the scheduled output sweep then finds nothing | published files are kept for the seven-day retention and then expired by the output sweep | medium, not executed | Cleanup.TempSweepTakesOutputFiles, Cleanup.OutputSweepFindsNothing | Cleanup.WorkingSweepKeepsRetention |
| backend/file_service/storage.py:154 | the list of problem characters holds `''', '''`, which Python reads as the single text ", " | a title "Live, Loud" is served as "Live_Loud.mp3" | the typographic quotes are replaced, and ", " is kept | medium, not executed | Storage.CommaSpaceReplacedAsWritten | Storage.SafeTitleUnchanged |
