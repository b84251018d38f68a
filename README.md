# Udemy downloader: resumable-download bookkeeping, in Dafny

This project models the deterministic core of a command-line downloader for Udemy courses. The downloader walks a course curriculum and hands a bounded number of lectures at a time to worker threads. Each lecture's captions, supplementary assets and main media are fetched, and the progress of every lecture is recorded in a per-course JSON cache, so an interrupted run can resume.

The model covers the following. Network traffic, subprocesses and threads are abstracted away.

- the download cache (`DownloadCache`): per-lecture records keyed by a 12-character hash slice; aggregate counters bumped in place; a summary recomputed from the records; and a completeness check that combines a record with the file size on disk;
- the orchestration decisions of `main.py`:
  - the `--chapter` parser and the curriculum grouping;
  - run-configuration normalisation;
  - the per-lecture lifecycle against the cache, with the media-source dispatch;
  - the bounded worker pool, as a sequential claim/complete state machine;
  - the JSON-to-Netscape cookie conversion run at start-up;
- the fetcher decisions:
  - HLS variant selection and the n_m3u8dl-re command in `utils/process_m3u8.py`;
  - the command and the output-file preference in `utils/process_mpd.py`;
- `clean_url` in `get_course.py`.

Modules, one per file:

| file | module | models |
|---|---|---|
| text.dfy | Text | `str(n)`, `f"{n:02}"`, `str.strip`, `int(s)`, `str.split`/`join`, `in`, `startswith`/`endswith` |
| paths.dfy | Paths | `os.path.join` and `os.path.dirname` (POSIX) |
| cache.dfy | Cache | `download_cache.py`: records as datatypes, the store as a class `DownloadCache` |
| curriculum.dfy | Curriculum | `organize_curriculum` and `count_total_lectures` |
| chapter_filter.dfy | ChapterFilter | `parse_chapter_filter` |
| run_config.dfy | RunConfig | concurrency clamp, course and key checks, start/end bounds |
| dispatch.dfy | Dispatch | caption/asset gating and the DASH → HLS → MP4 → unsupported choice |
| lecture.dfy | Lecture | `download_lecture`'s sequence of cache updates |
| scheduler.dfy | Scheduler | the task generator, the chapter folders and the bounded pool of `download_course` |
| cookies.dfy | Cookies | the cookies.json → cookies.txt conversion |
| stream.dfy | Stream | the progress loop over n_m3u8dl-re's stdout shared by both fetchers |
| hls.dfy | Hls | `download_and_merge_m3u8`, `merge_segments_into_mp4` |
| mpd.dfy | Mpd | `process_mpd` |
| course_url.dfy | CourseUrl | `clean_url` |

Abstractions:

- **Inputs.** The md5 digest is a function parameter returning 32 hex digits. Timestamps are opaque strings, one per cache operation or lecture.
- **Filesystem.** The filesystem is a `map<Path, nat>` from path to size.
- **Persistence.** Each `save_cache` ends in one of three ways (`Cache.Save`): the document is written; `open(..., 'w')` fails and the file is untouched; or the write fails after `open` has emptied the file, which leaves a file that is not valid JSON. Both failures are swallowed. The lecture lifecycle takes one such outcome per save it triggers (`saves(k)` for its k-th cache call).
- **Parameters for helpers that are not shown.** `is_valid_chapter`, `is_valid_lecture`, `sanitize_filename` and `remove_emojis_and_binary` are parameters.
- **Exceptions.** Exceptions raised by fetchers are inputs: an `Option<message>` per phase.
- **Parameters for external outcomes.** The following are parameters: subprocess results (stderr text and return code), directory listings, HTTP success or failure, and the order in which the pool completes work.

Behaviour of the code that a reader might not expect, which the model keeps:

- the success and failure counters are bumped on every call, even for a record already in that state, so they drift from the record counts (`Cache.RepeatedCompletionDrifts`, `Cache.FailThenCompleteDrifts`);
- a record that was only `started` (size 0) counts as complete when a file over 1024 bytes exists (`Cache.CheckAfterStart`);
- an exception from captions or assets skips the main fetch and marks the lecture failed. There is no per-phase recovery (`Lecture.MarkShape`);
- an explicit `file_size` of 0 is stored as 0, with no lookup on disk (`Cache.StoredSize`);
- the key is always a string (the environment default is `''`), so a run without a key is rejected by the `':'` check, and the DRM warning guarded by `key is None` never fires (`RunConfig.MissingKeyRejected`, `Dispatch.NoDrmWarningWithStringKey`);
- the HLS command saves into the parent of the download folder, while the MPD command saves into the download folder itself (`Hls.CommandDirectories`, `Mpd.CommandOptions`);
- a cache save that fails after `open` has truncated the file loses every record: the next load finds no valid JSON and starts a fresh store (`Cache.TruncatedSaveLosesProgress`, `Lecture.LectureFile`);
- both progress loops read `stripped_output` before it is first assigned when the tool's output ends before its first line while the process is still running, which raises `UnboundLocalError` out of the fetcher (`Stream.ReadOutput`, `Hls.RaisingRuns`, `Mpd.FailedDownloadStops`).

## Model

| member | source | states |
|---|---|---|
| Cache.DownloadKey | download_cache.py:61-65 | the key is exactly 12 hex characters, the first 12 of the digest of `"{chapter}_{lecture}_{title}"`, and depends on nothing else |
| Cache.KeyStringInjective | download_cache.py:64 | with a digit-only lecture index (as main.py passes it), distinct (chapter, lecture, title) triples give distinct key strings |
| Cache.NewCache | download_cache.py:39-50 | the empty document `create_new_cache` builds; its contents are stated by `Cache.FreshWithoutReadableFile` |
| Cache.LoadCache | download_cache.py:25-37 | the stored document when the file holds one, else a new one; stated by `Cache.FreshWithoutReadableFile` and `Cache.ResumeAfterStart` |
| Cache.FreshWithoutReadableFile | download_cache.py:25-50 | a missing cache file, or one that is not valid JSON, yields a fresh store: no records, all counters 0, no curriculum, the course id |
| Cache.AfterSave | download_cache.py:52-59 | a completed write stores the document; a failed `open` leaves the file as it was; a failure after `open` leaves a file that is not valid JSON |
| Cache.TruncatedSaveLosesProgress | download_cache.py:25-59 | after a save that fails past `open`, the next load starts a fresh store with no records |
| Cache.IsDownloadCompleted | download_cache.py:67-84 | true iff a record exists, the file exists, its size is over 1024, and the cached size is 0 or within 1024 of it; the record is returned exactly when true |
| Cache.MarkStarted | download_cache.py:86-104 | the record for the key is replaced by a `started` record with size 0, empty path and attempts = previous + 1 (1 if new); other records, counters and curriculum unchanged |
| Cache.StoredSize | download_cache.py:110-118 | the stored size is the supplied size when given, else the size on disk when the path exists, else 0 |
| Cache.MarkCompleted | download_cache.py:106-121 | no change for an unknown key; otherwise only that record becomes `completed` with the path and stored size, and the completed counter grows by exactly 1 |
| Cache.MarkFailed | download_cache.py:123-133 | no change for an unknown key; otherwise only that record becomes `failed` with the message, and the failed counter grows by exactly 1 |
| Cache.StatusCountsBound | download_cache.py:137-140 | records counted as completed plus records counted as failed never exceed the total, so `in_progress` is never negative |
| Cache.DownloadSummary | download_cache.py:135-148 | the total is the number of records; completed and failed are counted by status, not taken from the counters; in-progress is the remainder and is non-negative; the rate is 0 without records |
| Cache.FailedDownloads | download_cache.py:150-155 | exactly the records whose status is `failed`, unchanged |
| Cache.ResetRecord | download_cache.py:160-163 | a failed record becomes pending without error or failure time; other records are untouched |
| Cache.ResetFailed | download_cache.py:157-166 | every record is reset as above, the key set is kept, the failed counter becomes 0, and nothing else changes |
| Cache.NoFailedAfterReset | download_cache.py:157-166 | after a reset no record is failed, and the failed counter agrees with the record count |
| Cache.ResetIdempotent | download_cache.py:157-166 | a second reset changes nothing but the timestamp |
| Cache.CheckAfterStart | download_cache.py:67-101 | right after a start, the completeness check depends only on the file: it exists and is over 1024 bytes |
| Cache.CheckAfterComplete | download_cache.py:76-118 | after completing with the size read from disk, the check holds iff that file is over 1024 bytes |
| Cache.CountStatusUpdate | download_cache.py:138-139 | replacing one record changes each status count by the old and new status of that record only |
| Cache.CompletionCounts | download_cache.py:113-120 | completing a known key adds 1 to the counter, while the completed record count grows only if it was not already completed |
| Cache.FailureCounts | download_cache.py:126-132 | failing a known key adds 1 to the counter, while the failed record count grows only if it was not already failed |
| Cache.RepeatedCompletionDrifts | download_cache.py:120 | completing an already completed record breaks agreement between counters and record counts |
| Cache.FailThenCompleteDrifts | download_cache.py:106-133 | fail then complete of a started record leaves the failed counter one above the failed record count |
| Cache.ResumeAfterStart | download_cache.py:25-104 | a start whose save is written (`AfterSave` with `Written`, over any earlier file) reloads as a `started` record |
| Cache.CountTotalLectures | download_cache.py:174-180 | the accumulator loop returns the number of lecture children across chapters |
| Cache.DownloadCache.constructor | download_cache.py:14-23 | the store holds the cache file's data, or a fresh store when the file is missing or not valid JSON |
| Cache.DownloadCache.Persist | download_cache.py:52-59 | the file ends as `AfterSave` of the old file and the data for the given save outcome; the data is unchanged and no error escapes |
| Cache.DownloadCache.MarkDownloadStarted | download_cache.py:86-104 | returns the lecture's key; the data becomes `MarkStarted` of the old data, and the file is saved with the given outcome |
| Cache.DownloadCache.MarkDownloadCompleted | download_cache.py:106-121 | the data becomes `MarkCompleted` of the old data; the file is saved only for a known key, with the given outcome |
| Cache.DownloadCache.MarkDownloadFailed | download_cache.py:123-133 | the data becomes `MarkFailed` of the old data; the file is saved only for a known key, with the given outcome |
| Cache.DownloadCache.ResetFailedDownloads | download_cache.py:157-166 | the loop leaves the data equal to `ResetFailed` of the old data, then saves it with the given outcome |
| Cache.DownloadCache.SaveCurriculum | download_cache.py:168-172 | stores the curriculum and sets the total to its lecture count, then saves with the given outcome |
| Cache.DownloadCache.ClearCache | download_cache.py:204-209 | the cache file is removed and the data is a fresh store |
| Curriculum.OrganizeStep | main.py:194-208 | one pass of the grouping loop; stated by `Curriculum.GroupedSnoc` |
| Curriculum.Grouped | main.py:188-208 | the grouping of a whole item list; there is no chapter exactly when the list has no `chapter` item |
| Curriculum.GroupedSnoc | main.py:194-208 | one more item changes the grouping as one loop step: a chapter opens a new chapter, a lecture joins the last chapter (and is dropped when there is none), anything else is dropped |
| Curriculum.GroupedChapters | main.py:194-201 | one chapter per `chapter` item, in input order, with its id, title and published flag; every child is a lecture |
| Curriculum.GroupedLectureCount | main.py:202-206 | the lecture total equals the lectures after the first chapter |
| Curriculum.OrganizeCurriculum | main.py:188-216 | the loop returns the grouping, and its counter equals the sum of the children counts |
| ChapterFilter.Range | main.py:86 | `range(a, b + 1)`: exactly the integers from a to b, empty when a > b |
| ChapterFilter.CollectMembers | main.py:80-94 | a number is in the union iff some token contributes it |
| ChapterFilter.ParseChapterFilter | main.py:75-94 | the loop returns the union over the comma-separated tokens of what each token contributes |
| ChapterFilter.NumberToken | main.py:90-92 | an integer token contributes itself |
| ChapterFilter.RangeToken | main.py:81-86 | an `a-b` token contributes a..b inclusive |
| ChapterFilter.LeadingDashToken | main.py:83-88 | a token starting with `-` contributes nothing |
| ChapterFilter.TwoDashToken | main.py:83-88 | a token with two or more dashes contributes nothing |
| ChapterFilter.MalformedTokenSkipped | main.py:87-94 | a token contributing nothing leaves the result as if it were absent; parsing goes on |
| ChapterFilter.ExampleFilter | main.py:77 | `"1,3-5,7"` gives {1, 3, 4, 5, 7} |
| RunConfig.ClampConcurrency | main.py:476-483 | the effective concurrency lies in [1, 25], is the request inside that range, and 25 or 1 outside |
| RunConfig.ClampProperties | main.py:476-483 | clamping is idempotent and monotone |
| RunConfig.EffectiveKey | main.py:474 | the key is the argument when truthy and otherwise the environment default, so always a string |
| RunConfig.ChooseSource | main.py:472-506 | no id and no URL (argument or environment) is an error; an id is preferred over a URL |
| RunConfig.Normalise | main.py:472-493 | course check first, then the key check; a run is accepted exactly when both pass, and accepted settings have the chosen source, the effective key (which contains `:`) and exactly `ClampConcurrency` of the request |
| RunConfig.MissingKeyRejected | main.py:474-493 | without a key argument and with the empty default, the run is rejected as a malformed key |
| RunConfig.StartBounds | main.py:611-623 | a start lecture without a start chapter exits; defaults are 0 for each missing bound |
| RunConfig.EndBoundsAsWritten | main.py:625-637 | the end bounds as the code binds them; stated by `RunConfig.EndLectureAloneUnbound` and `RunConfig.EndBoundsAgree` |
| RunConfig.EndLectureAloneUnbound | main.py:625-637 | as written, the exit branch is unreachable: an end lecture without an end chapter binds neither end bound |
| RunConfig.EndBounds | main.py:625-637 | corrected: an end lecture without an end chapter is an error; defaults are the chapter count and 1000 |
| RunConfig.EndBoundsAgree | main.py:625-637 | as written and corrected agree wherever as written binds the bounds |
| RunConfig.ChapterFilterOf | main.py:639-642 | a filter exists iff `--chapter` is given, and it is the parser's union |
| Dispatch.FirstSource | main.py:279-281 | `next(...)` over the sources: the first source of that type, or none when no source has it |
| Dispatch.PrimaryFetch | main.py:278-297 | the main fetch chosen from the asset type, the sources and the skip flags; stated by `Dispatch.DispatchPriority` and `Dispatch.SkipFlagsRespected` |
| Dispatch.DispatchPriority | main.py:278-295 | a video uses DASH if present, else HLS, else MP4, else is unsupported, each with the first URL of its type |
| Dispatch.SkipFlagsRespected | main.py:278-297 | skipped lectures never fetch media, skipped articles never fetch articles, and no other asset type fetches anything |
| Dispatch.NoDrmWarningWithStringKey | main.py:293-294 | with a string key the DRM warning never fires |
| Dispatch.LecturePlan | main.py:271-297 | captions and assets run only when not skipped and non-empty; the primary fetch follows the dispatch |
| Lecture.CompletionPath | main.py:299-304 | the expected `.mp4` path when it exists afterwards, else `"{folder}/{lindex}. {title}"` |
| Lecture.TryMarks | main.py:271-308 | all marks are for the lecture's key: one failure for the first step that raises, otherwise a completion, preceded by an "Unsupported format" failure exactly when no fetcher applies |
| Lecture.LectureMarks | main.py:252-308 | every cache call of one lecture; stated by `Lecture.MarkShape` |
| Lecture.FileAfterMarks | download_cache.py:52-59 | the cache file after a sequence of cache calls, each save ending as its outcome says; stated by `Lecture.LectureFile` |
| Lecture.LectureFile | main.py:252-308 | the last save of a lecture decides its file: written gives the final document, a failed `open` keeps what earlier saves left, a failure after `open` leaves no valid JSON; a skipped lecture leaves the file alone |
| Lecture.MarkShape | main.py:257-308 | no cache update for a completed lecture; otherwise a start, then either one failure, or completion, or (unsupported) failure and completion |
| Lecture.UnsupportedFailsThenCompletes | main.py:283-304 | an unsupported video is marked failed with "Unsupported format" and then completed |
| Lecture.UnsupportedRecord | main.py:283-304 | such a record ends `completed` and keeps the error; both counters grow by one |
| Lecture.CompletedLectureSkippedNextTime | main.py:254-301 | a lecture completed with a file over 1024 bytes at the expected path is skipped on the next run |
| Lecture.StartKeepsKey | main.py:267-308 | after the start, the record exists whatever follows |
| Lecture.RunTry | main.py:271-308 | the try block issues exactly the failure/completion marks of the plan and exceptions; the data follows them, and the file follows their saves, each with its own outcome |
| Lecture.DownloadLecture | main.py:252-308 | the cache data is the old data with exactly the lifecycle's marks applied, and the file is what their saves leave, the k-th save ending as `saves(k)`; it is skipped iff already complete; an escape outside the try happens only past the check |
| Scheduler.LectureTasksSound | main.py:343-344 | every task of a chapter is an eligible lecture of it |
| Scheduler.LectureTasksOrdered | main.py:343-344 | a chapter's tasks come lecture-ascending |
| Scheduler.LectureTasksComplete | main.py:343-344 | every eligible lecture of a chapter is among its tasks |
| Scheduler.EligibleUpToSound | main.py:341-344 | every generated task is a genuine eligible lecture |
| Scheduler.EligibleUpToOrdered | main.py:341-344 | tasks come chapter-ascending, then lecture-ascending |
| Scheduler.EligibleUpToComplete | main.py:341-344 | every genuine eligible lecture is generated |
| Scheduler.EligibleSpec | main.py:336-345 | the generator lists exactly the eligible (chapter, lecture) pairs, in order |
| Scheduler.Label | main.py:337-339 | chapter and lecture labels are at least two digits and read back as the number they label, so distinct lecture indices give distinct labels |
| Scheduler.JoinPathInjective | main.py:351 | joining distinct relative names onto one directory gives distinct paths |
| Scheduler.ClaimFolderAsWritten | main.py:351-382 | the chapter folder as the code names it, up front and on refill; stated by `Scheduler.ClaimTimeSplitsChapter` |
| Scheduler.ClaimTimeSplitsChapter | main.py:351-382 | as written, a chapter whose sanitised title holds emojis gets one folder up front and another on refill |
| Scheduler.ClaimFolder | main.py:351 | corrected: the folder is always the emoji-stripped one |
| Scheduler.ChapterSharesFolder | main.py:351-382 | corrected: all lectures of one chapter share one folder |
| Scheduler.RemoveAt | main.py:378 | dropping the completed future keeps every other one |
| Scheduler.Pool.constructor | main.py:348-368 | min(N, eligible) tasks are claimed up front, in order |
| Scheduler.Pool.Finish | main.py:371-378 | `future.result()` and the removal: the picked in-flight task moves to finished and nothing is claimed; each task stays in exactly one place, leaving one free place while lectures remain |
| Scheduler.Pool.Refill | main.py:380-399 | after a non-raising result, the next lecture (if any) is claimed into the free place, restoring a full pool |
| Scheduler.RunCourse | main.py:348-399 | without an escape every eligible lecture finishes exactly once; an escaping lecture is the last finished and ends the loop before the refill, so exactly min(N + finished − 1, eligible) lectures were claimed |
| Cookies.CookieLine | main.py:57-65 | one cookie's tab-separated line; stated by `Cookies.LineColumns` |
| Cookies.Lines | main.py:57-65 | the lines of the cookies before the first non-object; stated by `Cookies.OneLinePerCookie` and `Cookies.WriteCookieFile` |
| Cookies.LineColumns | main.py:57-65 | a line splits back into the seven columns with their defaults; the host flag is TRUE iff `hostOnly` is absent or false, secure TRUE iff truthy |
| Cookies.WriteCookieFile | main.py:55-65 | the header, then one line per cookie in input order; a non-object stops it, keeping the lines before it |
| Cookies.OneLinePerCookie | main.py:57-65 | with newline-free values, the file holds exactly one line per cookie |
| Cookies.PrepareCookies | main.py:50-72 | a non-empty cookie file is kept; a missing or undecodable JSON exits, and so does a cookie file that cannot be opened for writing, each leaving it untouched; otherwise the file is rewritten, exiting when the conversion fails |
| Cookies.ConversionNotRepeated | main.py:50-56 | any conversion leaves a non-empty file starting with the header, which the next start keeps |
| Hls.SelectPlaylist | utils/process_m3u8.py:19-29 | the first playlist of maximal area when that area is positive; none when every area is 0 or missing |
| Hls.MergeCommand | utils/process_m3u8.py:47-64 | the base command into the parent folder, plus the key and decryption flags iff the key is truthy |
| Hls.CommandDirectories | utils/process_m3u8.py:47-56 | `--save-dir` and `--tmp-dir` both name the parent of the download folder |
| Stream.ReadOutput | utils/process_m3u8.py:66-80 | the progress loop raises iff the first read is an end of stream with the process still running; otherwise it stops at the first end of stream with the process exited |
| Hls.HlsRun | utils/process_m3u8.py:9-94 | a master-playlist HTTP error raises; no positive-area playlist returns early; then a failed variant request raises, and so does the progress loop as `Stream.ReadOutput` says; a merge succeeds only with empty stderr and return code 0 |
| Hls.Raised | utils/process_m3u8.py:12-80 | the caller sees an exception exactly for an HTTP failure or the unbound loop variable |
| Hls.RaisingRuns | utils/process_m3u8.py:9-80 | the fetcher raises iff the master request fails, or a variant is chosen and its request fails or the output ends before its first line |
| Hls.QuietFailures | utils/process_m3u8.py:31-94 | once both requests succeed and the loop ends normally, no path raises, and the folder is removed iff a playlist was selected and the merge succeeded |
| Mpd.DownloadCommand | utils/process_mpd.py:27-40 | the base command with `--save-name`, plus the key, Shaka and mkv flags iff the key is truthy |
| Mpd.CommandOptions | utils/process_mpd.py:27-32 | the base command names the download folder as save and temp directory, and `"{name}.mp4"` as save name |
| Mpd.Filter | utils/process_mpd.py:79-81 | a comprehension keeps exactly the names that pass, and no more names than it is given; the order is stated by `Mpd.FilterAppend` |
| Mpd.FilterAppend | utils/process_mpd.py:79-81 | filtering a concatenation is the concatenation of the filtered parts, so kept names keep their listing order |
| Mpd.ProcessStep | utils/process_mpd.py:51-133 | output ending before its first line raises before anything else; otherwise a failed download stops; the branch taken among the files is stated by `Mpd.StepChoice` and `Mpd.MergeChoice` |
| Mpd.FilterFirst | utils/process_mpd.py:87 | the first kept name is the first name that passes |
| Mpd.StepChoice | utils/process_mpd.py:79-123 | any MKV candidate is converted (the first one) and no merge is tried; without one, a missing mp4 or m4a stops with "Missing" |
| Mpd.MergeChoice | utils/process_mpd.py:79-133 | the merge runs iff there is no MKV candidate but some `.mp4` and some `.m4a`, and it merges the first `.mp4` and the first `.m4a` of the listing |
| Mpd.FailedDownloadStops | utils/process_mpd.py:51-75 | a failed download, or the progress loop raising, returns before the folder is listed |
| Mpd.OutputIsExpectedPath | utils/process_mpd.py:89-133 | both branches write to the lecture's expected `.mp4` path in the chapter folder (main.py:254), the temp folder being `folder_path/lecture_id` (main.py:352) |
| CourseUrl.CleanUrl | get_course.py:63-79 | `clean_url`; stated by `CourseUrl.NoFragment`, `CourseUrl.EndsInSlash`, `CourseUrl.LectureUrl` and `CourseUrl.OtherUrl` |
| CourseUrl.NoFragment | get_course.py:67 | the result never contains `#` |
| CourseUrl.EndsInSlash | get_course.py:73-79 | the result always ends with `/` |
| CourseUrl.LectureUrl | get_course.py:70-73 | a lecture URL becomes its leftmost course prefix plus `/` |
| CourseUrl.OtherUrl | get_course.py:76-79 | any other URL keeps its text before `#`, with `/` appended iff missing |
| CourseUrl.CourseUrlFixed | get_course.py:63-79 | a course URL with a trailing slash is unchanged |
| CourseUrl.NotIdempotent | get_course.py:70-77 | `.../course/x/learn` → `.../course/x/learn/` → `.../course/x/` |
| Text.PyInt | main.py:84-91 | Python's `int` on a token: `None` stands for the `ValueError`; stated by `Text.PyIntOfNatToString` |
| Text.Split | main.py:80-83 | `str.split` with one separator always gives at least one part; stated by `Text.JoinSplit` and `Text.SplitJoin` |
| Text.Join | main.py:57-65 | `str.join`, the shape of the tab-separated cookie line; inverse of `Text.Split` by `Text.JoinSplit` and `Text.SplitJoin` |
| Text.PyIntOfNatToString | main.py:84-91 | `int(str(n)) == n` |
| Text.SplitJoin | main.py:80-83 | splitting joined separator-free parts gives the parts back |
| Text.JoinSplit | main.py:80 | joining the split gives the string back, and no part holds the separator |
| Paths.JoinPath | main.py:254 | POSIX `os.path.join` of a directory and a relative name; stated by `Paths.DirnameOfJoin` and `Scheduler.JoinPathInjective` |
| Paths.Dirname | utils/process_mpd.py:89 | POSIX `os.path.dirname`: a prefix of the path; stated by `Paths.DirnameOfJoin` |
| Paths.DirnameOfJoin | utils/process_mpd.py:89 | the directory of a name joined onto a directory is that directory |
| Paths.JoinThenAppend | utils/process_mpd.py:129-133 | joining then appending `.mp4` equals joining the name with `.mp4` |

## Left out

- HTTP: `Udemy.request`, course and curriculum fetching, lecture-info fetching with its `sys.exit`, and both course-id extractors. Their success or failure is an input (`Hls.HlsRun`'s master fetch, `Lecture.DownloadLecture`'s `info`).
- Subprocesses: n_m3u8dl-re, ffmpeg and the Shaka packager. Their output stream is an input to `Stream.ReadOutput`; the progress percentages it parses are floats and are left out. The ffmpeg merge's progress loop divides by the stream length (utils/process_mpd.py:151); a length of 0 raises ZeroDivisionError out of the fetcher, so the lecture is marked failed, and this path is not modelled. Return codes, stderr and directory listings are inputs.
- `Mpd.ProcessStep`: its progress loop has no `except`, so output that cannot be decoded raises `UnicodeDecodeError`; decoding is not modelled (the HLS loop decodes with `errors='ignore'`). The MPD manifest request is HTTP and is left out.
- `Hls.HlsRun`: the variant request has no status check, so an error status is written as the playlist and only shows in the merge's result; the model only distinguishes a request that raises.
- Threads: `ThreadPoolExecutor` and `as_completed`. The order of completion is the `pick` parameter. `as_completed` only yields the futures present when it was called, while `pick` may choose any future in flight, so the model admits more completion orders than the code. After an escaping exception the model stops, while the executor still waits for work already in flight. The cache has no locking, and races are not modelled.
- JSON encoding of the cache and of cookies.json. `json.load` is an input (`Cookies.JsonFile`), and the cache file stores the data itself.
- `datetime.now()`: one opaque timestamp per call or lecture. `save_cache` also refreshes `last_updated`, which is folded into the caller's timestamp.
- `hashlib.md5` is an uninterpreted parameter returning 32 hex digits.
- `is_valid_chapter`, `is_valid_lecture`, `sanitize_filename` and `remove_emojis_and_binary`: their module is not part of this model, so they are parameters.
- `Text.PyInt`: only ASCII digits and whitespace are modelled; Python's `int` also accepts other Unicode digits and spaces.
- `Paths.JoinPath` is POSIX `os.path.join`; the Windows rules (drive letters, backslashes) are not modelled.
- `Cache.DownloadSummary`: `completion_rate` is a real number here, where Python has a float.
- `Cache.CountTotalLectures`: a chapter without a `children` key is represented as a chapter with no children, which the code also counts as 0 (`if 'children' in chapter:` at download_cache.py:178 skips it); a curriculum given through `--load` is not checked for shape.
- `Cache.DownloadCache.constructor`: only a missing file and a file that is not valid JSON are modelled; a read that fails otherwise (no permission, bytes that are not UTF-8) raises past the `except (json.JSONDecodeError, FileNotFoundError)` and is not modelled.
- `Cache.FailedDownloads` returns a map; the list order of `get_failed_downloads` (dictionary insertion order) is not modelled.
- Folder creation (`create_directory`) and `shutil.rmtree` are not modelled as filesystem effects. `Hls.RemovesFolder` only says whether the removal happens.
- UI: rich progress bars, console logging, `build_curriculum_tree`, and `print_progress_summary` / `cache_manager.py`, which only print the summary.
- Argument parsing: argparse and `.env` loading are inputs to `RunConfig`. `check_prerequisites` probes tools with subprocesses and is left out.

## Findings

| source | as written | input that shows it | evidently intended | confidence | as-written member | corrected member |
|---|---|---|---|---|---|---|
| main.py:625-630 | the `elif` at line 629 repeats the condition of line 626, so its error exit can never run | `--end-lecture 5` without `--end-chapter`: neither end bound is set | an end lecture without an end chapter exits with the error, like the start bounds at lines 611-617 | high (not executed) | RunConfig.EndLectureAloneUnbound | RunConfig.EndBounds |
| main.py:351-382 | lectures claimed up front go into `"{mindex}. {remove_emojis(sanitize(title))}"` (line 351), lectures claimed later into `"{mindex}. {sanitize(title)}"` (line 382) | a chapter whose title holds an emoji and has more lectures than the concurrency limit | one folder per chapter | medium (not executed) | Scheduler.ClaimTimeSplitsChapter | Scheduler.ChapterSharesFolder |
