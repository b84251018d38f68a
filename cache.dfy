/// The resumable-download progress store (download_cache.py): one JSON
/// document per course holding a record per lecture, keyed by a 12-character
/// slice of an MD5 digest, plus aggregate counters and the curriculum.
///
/// Each operation is a function from the old document to the new one; the
/// class `DownloadCache` holds the in-memory document and the state of its file
/// on disk, and its methods apply those functions in place.
module Cache {
  import opened Text
  import opened Paths
  import opened Curriculum

  /** `datetime.now().isoformat()`, taken as given. */
  type Timestamp = string

  predicate IsHexChar(c: char) { '0' <= c <= '9' || 'a' <= c <= 'f' }

  /** `hashlib.md5(...).hexdigest()`: 32 lower-case hexadecimal digits. */
  type HexDigest = s: string | |s| == 32 && forall i :: 0 <= i < |s| ==> IsHexChar(s[i])
    witness "00000000000000000000000000000000"

  type Key = string

  /** The string that is hashed: `f"{chapter_index}_{lecture_index}_{lecture_title}"`. */
  function KeyString(chapterIndex: int, lectureIndex: string, lectureTitle: string): string
  {
    IntToString(chapterIndex) + "_" + lectureIndex + "_" + lectureTitle
  }

  /** get_download_key (download_cache.py:61-65); `md5` is the digest function. */
  function DownloadKey(md5: string -> HexDigest, chapterIndex: int, lectureIndex: string, lectureTitle: string): (k: Key)
    ensures |k| == 12 && forall i :: 0 <= i < 12 ==> IsHexChar(k[i])
    ensures k == md5(KeyString(chapterIndex, lectureIndex, lectureTitle))[..12]
  {
    md5(KeyString(chapterIndex, lectureIndex, lectureTitle))[..12]
  }

  lemma UnderscoreFree(chapterIndex: int)
    ensures '_' !in IntToString(chapterIndex)
  {
    var s := IntToString(chapterIndex);
    if chapterIndex < 0 {
      forall i | 0 <= i < |s| ensures s[i] != '_' {
        if i > 0 { assert s[i] == s[1..][i - 1]; }
      }
    }
  }

  lemma IntToStringInjective(a: int, b: int)
    requires IntToString(a) == IntToString(b)
    ensures a == b
  {
    var s := IntToString(a);
    if a >= 0 && b >= 0 {
      NatToStringRoundTrip(a);
      NatToStringRoundTrip(b);
    } else if a < 0 && b < 0 {
      assert NatToString(-a) == s[1..] == NatToString(-b);
      NatToStringRoundTrip(-a);
      NatToStringRoundTrip(-b);
    }
  }

  /** Position of the first `c` in `s`, or `|s|`. */
  function FirstIndex(s: string, c: char): (i: nat)
    ensures i <= |s|
  {
    if s == [] || s[0] == c then 0 else 1 + FirstIndex(s[1..], c)
  }

  lemma {:induction false} FirstIndexAt(a: string, c: char, r: string)
    requires c !in a
    ensures FirstIndex(a + [c] + r, c) == |a|
  {
    if a != [] {
      assert (a + [c] + r)[1..] == a[1..] + [c] + r;
      FirstIndexAt(a[1..], c, r);
    }
  }

  lemma SplitAtFirst(a1: string, r1: string, a2: string, r2: string)
    requires '_' !in a1 && '_' !in a2
    requires a1 + "_" + r1 == a2 + "_" + r2
    ensures a1 == a2 && r1 == r2
  {
    var s := a1 + "_" + r1;
    FirstIndexAt(a1, '_', r1);
    FirstIndexAt(a2, '_', r2);
    assert a1 == s[..|a1|] == a2;
    assert r1 == s[|a1| + 1..] == r2;
  }

  /**
   * With a zero-padded (all-digit) lecture index, distinct positions or titles
   * give distinct hashed strings: two lectures share a key only through a
   * digest collision.
   */
  lemma KeyStringInjective(c1: int, l1: string, t1: string, c2: int, l2: string, t2: string)
    requires AllDigits(l1) && AllDigits(l2)
    requires KeyString(c1, l1, t1) == KeyString(c2, l2, t2)
    ensures c1 == c2 && l1 == l2 && t1 == t2
  {
    UnderscoreFree(c1);
    UnderscoreFree(c2);
    assert KeyString(c1, l1, t1) == IntToString(c1) + "_" + (l1 + "_" + t1);
    assert KeyString(c2, l2, t2) == IntToString(c2) + "_" + (l2 + "_" + t2);
    SplitAtFirst(IntToString(c1), l1 + "_" + t1, IntToString(c2), l2 + "_" + t2);
    IntToStringInjective(c1, c2);
    SplitAtFirst(l1, t1, l2, t2);
  }

  datatype Status = Started | Completed | Failed | Pending

  /** One lecture's entry under `downloads`. */
  datatype Record = Record(
    chapterIndex: int,
    lectureIndex: string,
    lectureTitle: string,
    lectureId: int,
    assetType: string,
    status: Status,
    startedAt: Timestamp,
    fileSize: nat,
    filePath: Path,
    attempts: nat,
    completedAt: Option<Timestamp>,
    failedAt: Option<Timestamp>,
    error: Option<string>)

  /** The whole cache document (`cache_data`). */
  datatype CacheData = CacheData(
    courseId: string,
    createdAt: Timestamp,
    lastUpdated: Timestamp,
    totalDownloads: nat,
    completedDownloads: nat,
    failedDownloads: nat,
    downloads: map<Key, Record>,
    curriculum: Option<seq<Chapter>>)

  /**
   * The cache file `cache/course_{id}.json` as `load_cache` finds it: absent,
   * present but not valid JSON (empty, truncated or corrupted), or holding a document.
   */
  datatype StoredFile = Missing | Unreadable | Stored(data: CacheData)

  /**
   * How one `save_cache` write ends (download_cache.py:55-59): the document is
   * written; `open(..., 'w')` fails and the file is untouched; or the write
   * fails after `open` has emptied the file, leaving an empty or partial
   * document. Both failures are swallowed.
   */
  datatype Save = Written | OpenFailed | FailedAfterTruncate

  /** The cache file after saving `d` over `file`. */
  function AfterSave(file: StoredFile, d: CacheData, save: Save): (r: StoredFile)
    ensures save == Written ==> r == Stored(d)
    ensures save == OpenFailed ==> r == file
    ensures save == FailedAfterTruncate ==> r == Unreadable
  {
    match save
    case Written => Stored(d)
    case OpenFailed => file
    case FailedAfterTruncate => Unreadable
  }

  /** create_new_cache (download_cache.py:39-50). */
  function NewCache(courseId: string, now: Timestamp): CacheData
  {
    CacheData(courseId, now, now, 0, 0, 0, map[], None)
  }

  /** load_cache (download_cache.py:25-37): a missing file or one that is not valid JSON gives a fresh store. */
  function LoadCache(courseId: string, file: StoredFile, now: Timestamp): CacheData
  {
    match file
    case Stored(d) => d
    case _ => NewCache(courseId, now)
  }

  /** The cache starts over when the file is missing or is not valid JSON. */
  lemma FreshWithoutReadableFile(courseId: string, file: StoredFile, now: Timestamp)
    requires !file.Stored?
    ensures var d := LoadCache(courseId, file, now);
      d.downloads == map[] && d.totalDownloads == 0 && d.completedDownloads == 0 &&
      d.failedDownloads == 0 && d.curriculum == None && d.courseId == courseId
  {
  }

  function AbsDiff(a: int, b: int): nat { if a >= b then a - b else b - a }

  /** is_download_completed (download_cache.py:67-84). */
  function IsDownloadCompleted(d: CacheData, md5: string -> HexDigest, chapterIndex: int, lectureIndex: string,
                               lectureTitle: string, expectedPath: Path, fs: FileSystem): (r: (bool, Option<Record>))
    ensures var key := DownloadKey(md5, chapterIndex, lectureIndex, lectureTitle);
      r.0 <==> && key in d.downloads
               && expectedPath in fs
               && fs[expectedPath] > 1024
               && (d.downloads[key].fileSize == 0 || AbsDiff(fs[expectedPath], d.downloads[key].fileSize) < 1024)
    ensures r.0 ==> r.1 == Some(d.downloads[DownloadKey(md5, chapterIndex, lectureIndex, lectureTitle)])
    ensures !r.0 ==> r.1 == None
  {
    var key := DownloadKey(md5, chapterIndex, lectureIndex, lectureTitle);
    if key in d.downloads then
      var rec := d.downloads[key];
      if expectedPath in fs then
        var fileSize := fs[expectedPath];
        var cachedSize := rec.fileSize;
        if fileSize > 1024 && (cachedSize == 0 || AbsDiff(fileSize, cachedSize) < 1024) then (true, Some(rec))
        else (false, None)
      else (false, None)
    else (false, None)
  }

  /** mark_download_started (download_cache.py:86-104), including the save's timestamp. */
  function MarkStarted(d: CacheData, md5: string -> HexDigest, chapterIndex: int, lectureIndex: string, lectureTitle: string,
                   lectureId: int, assetType: string, now: Timestamp): (r: CacheData)
    ensures var key := DownloadKey(md5, chapterIndex, lectureIndex, lectureTitle);
      && r.downloads.Keys == d.downloads.Keys + {key}
      && (forall k :: k in d.downloads && k != key ==> r.downloads[k] == d.downloads[k])
      && var rec := r.downloads[key];
      && rec.status == Started && rec.fileSize == 0 && rec.filePath == "" && rec.startedAt == now
      && rec.attempts == (if key in d.downloads then d.downloads[key].attempts + 1 else 1)
      && rec.chapterIndex == chapterIndex && rec.lectureIndex == lectureIndex && rec.lectureTitle == lectureTitle
      && rec.lectureId == lectureId && rec.assetType == assetType
      && rec.completedAt == None && rec.failedAt == None && rec.error == None
    ensures r == d.(downloads := r.downloads, lastUpdated := now)
  {
    var key := DownloadKey(md5, chapterIndex, lectureIndex, lectureTitle);
    var previous := if key in d.downloads then d.downloads[key].attempts else 0;
    var rec := Record(chapterIndex, lectureIndex, lectureTitle, lectureId, assetType, Started, now, 0, "",
                      previous + 1, None, None, None);
    d.(downloads := d.downloads[key := rec], lastUpdated := now)
  }

  /** The size mark_download_completed stores (`file_size or 0` after the disk lookup). */
  function StoredSize(fileSize: Option<nat>, path: Path, fs: FileSystem): (n: nat)
    ensures fileSize.Some? ==> n == fileSize.value
    ensures fileSize.None? && path in fs ==> n == fs[path]
    ensures fileSize.None? && path !in fs ==> n == 0
  {
    match fileSize
    case Some(size) => size
    case None => if path in fs then fs[path] else 0
  }

  /** mark_download_completed (download_cache.py:106-121); an unknown key changes nothing. */
  function MarkCompleted(d: CacheData, key: Key, path: Path, fileSize: Option<nat>, fs: FileSystem, now: Timestamp): (r: CacheData)
    ensures key !in d.downloads ==> r == d
    ensures key in d.downloads ==>
      && r.downloads.Keys == d.downloads.Keys
      && (forall k :: k in d.downloads && k != key ==> r.downloads[k] == d.downloads[k])
      && r.downloads[key] == d.downloads[key].(status := Completed, completedAt := Some(now), filePath := path,
                                                fileSize := StoredSize(fileSize, path, fs))
      && r == d.(downloads := r.downloads, completedDownloads := d.completedDownloads + 1, lastUpdated := now)
  {
    if key in d.downloads then
      var rec := d.downloads[key];
      var rec' := rec.(status := Completed, completedAt := Some(now), filePath := path, fileSize := StoredSize(fileSize, path, fs));
      d.(downloads := d.downloads[key := rec'], completedDownloads := d.completedDownloads + 1, lastUpdated := now)
    else d
  }

  /** mark_download_failed (download_cache.py:123-133); an unknown key changes nothing. */
  function MarkFailed(d: CacheData, key: Key, message: string, now: Timestamp): (r: CacheData)
    ensures key !in d.downloads ==> r == d
    ensures key in d.downloads ==>
      && r.downloads.Keys == d.downloads.Keys
      && (forall k :: k in d.downloads && k != key ==> r.downloads[k] == d.downloads[k])
      && r.downloads[key] == d.downloads[key].(status := Failed, failedAt := Some(now), error := Some(message))
      && r == d.(downloads := r.downloads, failedDownloads := d.failedDownloads + 1, lastUpdated := now)
  {
    if key in d.downloads then
      var rec := d.downloads[key];
      d.(downloads := d.downloads[key := rec.(status := Failed, failedAt := Some(now), error := Some(message))],
         failedDownloads := d.failedDownloads + 1, lastUpdated := now)
    else d
  }

  function StatusKeys(m: map<Key, Record>, st: Status): set<Key>
  {
    set k | k in m && m[k].status == st
  }

  /** Number of records in the given state (the comprehensions of get_download_summary). */
  function CountStatus(m: map<Key, Record>, st: Status): nat
  {
    |StatusKeys(m, st)|
  }

  lemma SubsetCard<T>(a: set<T>, b: set<T>)
    requires a <= b
    ensures |a| <= |b|
  {
    assert b == a + (b - a);
  }

  lemma StatusCountsBound(m: map<Key, Record>)
    ensures CountStatus(m, Completed) + CountStatus(m, Failed) <= |m|
  {
    var a := StatusKeys(m, Completed);
    var b := StatusKeys(m, Failed);
    assert a !! b;
    SubsetCard(a + b, m.Keys);
  }

  datatype Summary = Summary(total: nat, completed: nat, failed: nat, inProgress: int, completionRate: real)

  /** get_download_summary (download_cache.py:135-148): recomputed from the records, never from the counters. */
  function DownloadSummary(d: CacheData): (s: Summary)
    ensures s.total == |d.downloads|
    ensures s.completed == CountStatus(d.downloads, Completed) && s.failed == CountStatus(d.downloads, Failed)
    ensures s.inProgress == s.total - s.completed - s.failed && s.inProgress >= 0
    ensures s.total == 0 ==> s.completionRate == 0.0
    ensures s.total > 0 ==> s.completionRate == s.completed as real / s.total as real * 100.0
    ensures 0.0 <= s.completionRate <= 100.0
  {
    var total := |d.downloads|;
    var completed := CountStatus(d.downloads, Completed);
    var failed := CountStatus(d.downloads, Failed);
    StatusCountsBound(d.downloads);
    assert total > 0 ==> completed as real / total as real <= 1.0;
    Summary(total, completed, failed, total - completed - failed,
            if total > 0 then completed as real / total as real * 100.0 else 0.0)
  }

  /** get_failed_downloads (download_cache.py:150-155), as a map rather than a list. */
  function FailedDownloads(d: CacheData): (f: map<Key, Record>)
    ensures forall k :: k in f <==> k in d.downloads && d.downloads[k].status == Failed
    ensures forall k :: k in f ==> f[k] == d.downloads[k]
  {
    map k | k in d.downloads && d.downloads[k].status == Failed :: d.downloads[k]
  }

  /** What reset_failed_downloads does to one record. */
  function ResetRecord(rec: Record): (r: Record)
    ensures rec.status == Failed ==> r == rec.(status := Pending, failedAt := None, error := None)
    ensures rec.status != Failed ==> r == rec
  {
    if rec.status == Failed then rec.(status := Pending, failedAt := None, error := None) else rec
  }

  /** reset_failed_downloads (download_cache.py:157-166). */
  function ResetFailed(d: CacheData, now: Timestamp): (r: CacheData)
    ensures r.downloads.Keys == d.downloads.Keys
    ensures forall k :: k in d.downloads ==> r.downloads[k] == ResetRecord(d.downloads[k])
    ensures r == d.(downloads := r.downloads, failedDownloads := 0, lastUpdated := now)
  {
    d.(downloads := map k | k in d.downloads :: ResetRecord(d.downloads[k]), failedDownloads := 0, lastUpdated := now)
  }

  /** After a reset nothing is failed, and the failed counter agrees with the records. */
  lemma NoFailedAfterReset(d: CacheData, now: Timestamp)
    ensures FailedDownloads(ResetFailed(d, now)) == map[]
    ensures ResetFailed(d, now).failedDownloads == CountStatus(ResetFailed(d, now).downloads, Failed)
  {
    var r := ResetFailed(d, now);
    assert StatusKeys(r.downloads, Failed) == {} by {
      forall k | k in r.downloads ensures r.downloads[k].status != Failed {
        assert r.downloads[k] == ResetRecord(d.downloads[k]);
      }
    }
  }

  /** A second reset changes nothing but the timestamp. */
  lemma ResetIdempotent(d: CacheData, t1: Timestamp, t2: Timestamp)
    ensures ResetFailed(ResetFailed(d, t1), t2) == ResetFailed(d, t1).(lastUpdated := t2)
  {
    var r1 := ResetFailed(d, t1);
    var r2 := ResetFailed(r1, t2);
    assert r2.downloads == r1.downloads by {
      forall k | k in r1.downloads ensures r2.downloads[k] == r1.downloads[k] {
        assert r1.downloads[k] == ResetRecord(d.downloads[k]);
      }
    }
  }

  /** Right after a start the completeness check looks only at the file. */
  lemma CheckAfterStart(d: CacheData, md5: string -> HexDigest, chapterIndex: int, lectureIndex: string,
                        lectureTitle: string, lectureId: int, assetType: string, now: Timestamp,
                        expectedPath: Path, fs: FileSystem)
    ensures IsDownloadCompleted(MarkStarted(d, md5, chapterIndex, lectureIndex, lectureTitle, lectureId, assetType, now),
                                md5, chapterIndex, lectureIndex, lectureTitle, expectedPath, fs).0
            <==> expectedPath in fs && fs[expectedPath] > 1024
  {
  }

  /**
   * Completing with the size taken from disk and checking the same path
   * succeeds exactly when the file passes the 1024-byte floor.
   */
  lemma CheckAfterComplete(d: CacheData, md5: string -> HexDigest, chapterIndex: int, lectureIndex: string,
                           lectureTitle: string, path: Path, fs: FileSystem, now: Timestamp)
    requires DownloadKey(md5, chapterIndex, lectureIndex, lectureTitle) in d.downloads
    requires path in fs
    ensures var key := DownloadKey(md5, chapterIndex, lectureIndex, lectureTitle);
      IsDownloadCompleted(MarkCompleted(d, key, path, None, fs, now), md5, chapterIndex, lectureIndex, lectureTitle, path, fs).0
      <==> fs[path] > 1024
  {
  }

  /** The counters agree with the records (true of a fresh store, not kept by the operations). */
  predicate CountersConsistent(d: CacheData)
  {
    d.completedDownloads == CountStatus(d.downloads, Completed) && d.failedDownloads == CountStatus(d.downloads, Failed)
  }

  lemma StatusKeysUpdate(m: map<Key, Record>, key: Key, rec: Record, st: Status)
    requires key in m
    ensures StatusKeys(m[key := rec], st) ==
      if rec.status == st then StatusKeys(m, st) + {key} else StatusKeys(m, st) - {key}
  {
  }

  lemma CountStatusUpdate(m: map<Key, Record>, key: Key, rec: Record, st: Status)
    requires key in m
    ensures CountStatus(m[key := rec], st) ==
      CountStatus(m, st) + (if rec.status == st then 1 else 0) - (if m[key].status == st then 1 else 0)
  {
    StatusKeysUpdate(m, key, rec, st);
    var s := StatusKeys(m, st);
    if m[key].status == st {
      assert key in s;
      if rec.status == st { assert s + {key} == s; } else { assert |s - {key}| == |s| - 1; }
    } else {
      assert key !in s;
      if rec.status != st { assert s - {key} == s; }
    }
  }

  /**
   * A completion of a known key adds exactly one to the counter but adds a
   * completed record only when the record was not completed already.
   */
  lemma CompletionCounts(d: CacheData, key: Key, path: Path, fileSize: Option<nat>, fs: FileSystem, now: Timestamp)
    requires key in d.downloads
    ensures var r := MarkCompleted(d, key, path, fileSize, fs, now);
      && r.completedDownloads == d.completedDownloads + 1
      && CountStatus(r.downloads, Completed) ==
           CountStatus(d.downloads, Completed) + (if d.downloads[key].status == Completed then 0 else 1)
      && CountStatus(r.downloads, Failed) ==
           CountStatus(d.downloads, Failed) - (if d.downloads[key].status == Failed then 1 else 0)
  {
    var r := MarkCompleted(d, key, path, fileSize, fs, now);
    CountStatusUpdate(d.downloads, key, r.downloads[key], Completed);
    CountStatusUpdate(d.downloads, key, r.downloads[key], Failed);
    assert r.downloads == d.downloads[key := r.downloads[key]];
  }

  /** The same for a failure. */
  lemma FailureCounts(d: CacheData, key: Key, message: string, now: Timestamp)
    requires key in d.downloads
    ensures var r := MarkFailed(d, key, message, now);
      && r.failedDownloads == d.failedDownloads + 1
      && CountStatus(r.downloads, Failed) ==
           CountStatus(d.downloads, Failed) + (if d.downloads[key].status == Failed then 0 else 1)
      && CountStatus(r.downloads, Completed) ==
           CountStatus(d.downloads, Completed) - (if d.downloads[key].status == Completed then 1 else 0)
  {
    var r := MarkFailed(d, key, message, now);
    CountStatusUpdate(d.downloads, key, r.downloads[key], Failed);
    CountStatusUpdate(d.downloads, key, r.downloads[key], Completed);
    assert r.downloads == d.downloads[key := r.downloads[key]];
  }

  /** Completing an already completed record makes the counters drift from the records. */
  lemma RepeatedCompletionDrifts(d: CacheData, key: Key, path: Path, fileSize: Option<nat>, fs: FileSystem, now: Timestamp)
    requires CountersConsistent(d)
    requires key in d.downloads && d.downloads[key].status == Completed
    ensures !CountersConsistent(MarkCompleted(d, key, path, fileSize, fs, now))
  {
    CompletionCounts(d, key, path, fileSize, fs, now);
  }

  /** Failing a record and then completing it (the unsupported-format path) also drifts. */
  lemma FailThenCompleteDrifts(d: CacheData, key: Key, message: string, path: Path, fs: FileSystem, t1: Timestamp, t2: Timestamp)
    requires CountersConsistent(d)
    requires key in d.downloads && d.downloads[key].status == Started
    ensures var r := MarkCompleted(MarkFailed(d, key, message, t1), key, path, None, fs, t2);
      && r.downloads[key].status == Completed
      && r.failedDownloads == CountStatus(r.downloads, Failed) + 1
      && r.completedDownloads == CountStatus(r.downloads, Completed)
  {
    var f := MarkFailed(d, key, message, t1);
    FailureCounts(d, key, message, t1);
    CompletionCounts(f, key, path, None, fs, t2);
  }

  /**
   * A start whose save was written survives a restart: whatever the file held
   * before, the reloaded record is still `started`.
   */
  lemma ResumeAfterStart(d: CacheData, file: StoredFile, md5: string -> HexDigest, chapterIndex: int, lectureIndex: string,
                         lectureTitle: string, lectureId: int, assetType: string, t1: Timestamp,
                         courseId: string, t2: Timestamp)
    ensures var key := DownloadKey(md5, chapterIndex, lectureIndex, lectureTitle);
      var started := MarkStarted(d, md5, chapterIndex, lectureIndex, lectureTitle, lectureId, assetType, t1);
      var reloaded := LoadCache(courseId, AfterSave(file, started, Written), t2);
      key in reloaded.downloads && reloaded.downloads[key].status == Started
  {
  }

  /**
   * A save that fails after `open` has emptied the file loses every record: the
   * next `load_cache` cannot decode it and starts a fresh store, which later
   * saves then write over the old progress.
   */
  lemma TruncatedSaveLosesProgress(file: StoredFile, d: CacheData, courseId: string, now: Timestamp)
    ensures var reloaded := LoadCache(courseId, AfterSave(file, d, FailedAfterTruncate), now);
      reloaded == NewCache(courseId, now) && reloaded.downloads == map[]
  {
  }

  /** count_total_lectures (download_cache.py:174-180). */
  method CountTotalLectures(curriculum: seq<Chapter>) returns (total: nat)
    ensures total == LectureCount(curriculum)
  {
    total := 0;
    for i := 0 to |curriculum|
      invariant total == LectureCount(curriculum[..i])
    {
      assert curriculum[..i + 1][..i] == curriculum[..i];
      total := total + CountLectures(curriculum[i].children);
    }
    assert curriculum[..|curriculum|] == curriculum;
  }

  /** The store of one course: the in-memory document and the file behind it. */
  class DownloadCache {
    const courseId: string
    var data: CacheData
    var file: StoredFile

    /** `DownloadCache(course_id)`: load the course's file, or start afresh. */
    constructor (courseId: string, file: StoredFile, now: Timestamp)
      ensures this.courseId == courseId && this.file == file
      ensures data == LoadCache(courseId, file, now)
    {
      this.courseId := courseId;
      this.file := file;
      data := LoadCache(courseId, file, now);
    }

    /** The write half of save_cache, ending as `save` says. */
    method Persist(save: Save)
      modifies this
      ensures data == old(data)
      ensures file == AfterSave(old(file), data, save)
    {
      match save
      case Written => file := Stored(data);
      case OpenFailed =>
      case FailedAfterTruncate => file := Unreadable;
    }

    method MarkDownloadStarted(md5: string -> HexDigest, chapterIndex: int, lectureIndex: string, lectureTitle: string,
                               lectureId: int, assetType: string, now: Timestamp, save: Save) returns (key: Key)
      modifies this
      ensures key == DownloadKey(md5, chapterIndex, lectureIndex, lectureTitle)
      ensures data == MarkStarted(old(data), md5, chapterIndex, lectureIndex, lectureTitle, lectureId, assetType, now)
      ensures file == AfterSave(old(file), data, save)
    {
      key := DownloadKey(md5, chapterIndex, lectureIndex, lectureTitle);
      data := MarkStarted(data, md5, chapterIndex, lectureIndex, lectureTitle, lectureId, assetType, now);
      Persist(save);
    }

    method MarkDownloadCompleted(key: Key, path: Path, fileSize: Option<nat>, fs: FileSystem, now: Timestamp, save: Save)
      modifies this
      ensures data == MarkCompleted(old(data), key, path, fileSize, fs, now)
      ensures file == if key in old(data).downloads then AfterSave(old(file), data, save) else old(file)
    {
      if key in data.downloads {
        data := MarkCompleted(data, key, path, fileSize, fs, now);
        Persist(save);
      }
    }

    method MarkDownloadFailed(key: Key, message: string, now: Timestamp, save: Save)
      modifies this
      ensures data == MarkFailed(old(data), key, message, now)
      ensures file == if key in old(data).downloads then AfterSave(old(file), data, save) else old(file)
    {
      if key in data.downloads {
        data := MarkFailed(data, key, message, now);
        Persist(save);
      }
    }

    /** The loop of reset_failed_downloads, one record at a time. */
    method ResetFailedDownloads(now: Timestamp, save: Save)
      modifies this
      ensures data == ResetFailed(old(data), now)
      ensures file == AfterSave(old(file), data, save)
    {
      ghost var original := data.downloads;
      var todo := data.downloads.Keys;
      ghost var done: set<Key> := {};
      while todo != {}
        invariant todo !! done && todo + done == original.Keys
        invariant data.downloads.Keys == original.Keys
        invariant forall k :: k in done ==> data.downloads[k] == ResetRecord(original[k])
        invariant forall k :: k in todo ==> data.downloads[k] == original[k]
        invariant data == old(data).(downloads := data.downloads) && file == old(file)
        decreases todo
      {
        var k :| k in todo;
        if data.downloads[k].status == Failed {
          var rec := data.downloads[k];
          data := data.(downloads := data.downloads[k := rec.(status := Pending, failedAt := None, error := None)]);
        }
        todo := todo - {k};
        done := done + {k};
      }
      data := data.(failedDownloads := 0, lastUpdated := now);
      assert data.downloads == ResetFailed(old(data), now).downloads;
      Persist(save);
    }

    /** save_curriculum (download_cache.py:168-172). */
    method SaveCurriculum(curriculum: seq<Chapter>, now: Timestamp, save: Save)
      modifies this
      ensures data == old(data).(curriculum := Some(curriculum), totalDownloads := LectureCount(curriculum), lastUpdated := now)
      ensures file == AfterSave(old(file), data, save)
    {
      var total := CountTotalLectures(curriculum);
      data := data.(curriculum := Some(curriculum), totalDownloads := total, lastUpdated := now);
      Persist(save);
    }

    /** clear_cache (download_cache.py:204-209): the file is removed and the document starts afresh, unsaved. */
    method ClearCache(now: Timestamp)
      modifies this
      ensures file == Missing
      ensures data == NewCache(courseId, now)
    {
      file := Missing;
      data := NewCache(courseId, now);
    }
  }
}
