/// The lifecycle of one lecture in `download_lecture` (main.py:252-308): the
/// completeness check, the start mark, the steps of the try block and the one
/// mark that closes it, all against a `DownloadCache`.
module Lecture {
  import opened Text
  import opened Paths
  import opened Cache
  import opened Dispatch

  /** What the lecture info says about the asset (`lect_info['asset']`). */
  datatype AssetInfo = AssetInfo(assetType: string, captionCount: nat, sources: seq<MediaSource>)

  /** The fixed inputs of one `download_lecture` call; `title` is already sanitised. */
  datatype LectureCall = LectureCall(
    chapterIndex: int,
    lindex: string,
    title: string,
    lectureId: int,
    assetCount: nat,
    folderPath: Path)

  /** The run-wide switches the call reads from module globals. */
  datatype Switches = Switches(skipCaptions: bool, skipAssets: bool, skipLectures: bool, skipArticles: bool,
                               key: Option<string>)

  /** How each step of the try block ends: `Some(message)` when it raises. */
  datatype Exceptions = Exceptions(captions: Option<string>, assets: Option<string>, primary: Option<string>)

  /** One call into the store, in the order `download_lecture` makes them. */
  datatype Mark =
    | Start(chapterIndex: int, lindex: string, title: string, lectureId: int, assetType: string)
    | Fail(key: Key, message: string)
    | Complete(key: Key, path: Path)

  datatype LectureOutcome = Skipped | Escaped | Done

  function ExpectedPath(c: LectureCall): Path
  {
    JoinPath(c.folderPath, c.lindex + ". " + c.title + ".mp4")
  }

  /** The path recorded when the expected file does not exist. */
  function FallbackPath(c: LectureCall): Path
  {
    c.folderPath + "/" + c.lindex + ". " + c.title
  }

  /** The path `mark_download_completed` receives after the fetch. */
  function CompletionPath(c: LectureCall, fsAfter: FileSystem): (p: Path)
    ensures ExpectedPath(c) in fsAfter ==> p == ExpectedPath(c)
    ensures ExpectedPath(c) !in fsAfter ==> p == FallbackPath(c)
  {
    if ExpectedPath(c) in fsAfter then ExpectedPath(c) else FallbackPath(c)
  }

  /** Whether the primary fetch calls into a fetcher (which may raise). */
  predicate Fetches(f: Fetch)
  {
    f.FetchDash? || f.FetchHls? || f.FetchMp4? || f.FetchArticle?
  }

  const UnsupportedMessage: string := "Unsupported format"

  /**
   * The marks of the try block once the lecture has been started: all about
   * `key`; one failure for the first step that raises, otherwise a completion,
   * preceded by an "Unsupported format" failure when no fetcher applies.
   */
  function TryMarks(key: Key, plan: Plan, ex: Exceptions, completionPath: Path): (ms: seq<Mark>)
    ensures 1 <= |ms| <= 2
    ensures var raises := (plan.captions && ex.captions.Some?) || (plan.assets && ex.assets.Some?)
                          || (Fetches(plan.primary) && ex.primary.Some?);
      && (ms[|ms| - 1] == Complete(key, completionPath) <==> !raises)
      && (raises ==> ms[|ms| - 1].Fail? && ms[|ms| - 1].key == key)
      && (|ms| == 2 <==> !raises && plan.primary.Unsupported?)
      && (|ms| == 2 ==> ms[0] == Fail(key, UnsupportedMessage))
    ensures plan.captions && ex.captions.Some? ==> ms == [Fail(key, ex.captions.value)]
    ensures !(plan.captions && ex.captions.Some?) && plan.assets && ex.assets.Some? ==> ms == [Fail(key, ex.assets.value)]
    ensures !(plan.captions && ex.captions.Some?) && !(plan.assets && ex.assets.Some?) && Fetches(plan.primary)
            && ex.primary.Some?
        ==> ms == [Fail(key, ex.primary.value)]
  {
    if plan.captions && ex.captions.Some? then [Fail(key, ex.captions.value)]
    else if plan.assets && ex.assets.Some? then [Fail(key, ex.assets.value)]
    else if Fetches(plan.primary) && ex.primary.Some? then [Fail(key, ex.primary.value)]
    else
      (if plan.primary.Unsupported? then [Fail(key, UnsupportedMessage)] else [])
      + [Complete(key, completionPath)]
  }

  /** All the store calls one `download_lecture` makes; `info` is `None` when the asset entry is missing. */
  function LectureMarks(d: CacheData, md5: string -> HexDigest, c: LectureCall, info: Option<AssetInfo>,
                        sw: Switches, ex: Exceptions, fsBefore: FileSystem, fsAfter: FileSystem): seq<Mark>
  {
    if IsDownloadCompleted(d, md5, c.chapterIndex, c.lindex, c.title, ExpectedPath(c), fsBefore).0 then []
    else if info.None? then []
    else
      var key := DownloadKey(md5, c.chapterIndex, c.lindex, c.title);
      var a := info.value;
      var plan := LecturePlan(sw.skipCaptions, a.captionCount, sw.skipAssets, c.assetCount, a.assetType,
                              a.sources, sw.skipLectures, sw.skipArticles, sw.key);
      [Start(c.chapterIndex, c.lindex, c.title, c.lectureId, a.assetType)]
      + TryMarks(key, plan, ex, CompletionPath(c, fsAfter))
  }

  /** The effect of one mark on the document. */
  function ApplyMark(d: CacheData, md5: string -> HexDigest, m: Mark, fs: FileSystem, now: Timestamp): CacheData
  {
    match m
    case Start(ch, lindex, title, id, assetType) => MarkStarted(d, md5, ch, lindex, title, id, assetType, now)
    case Fail(key, message) => MarkFailed(d, key, message, now)
    case Complete(key, path) => MarkCompleted(d, key, path, None, fs, now)
  }

  function ApplyMarks(d: CacheData, md5: string -> HexDigest, marks: seq<Mark>, fs: FileSystem, now: Timestamp): CacheData
  {
    if marks == [] then d
    else ApplyMark(ApplyMarks(d, md5, marks[..|marks| - 1], fs, now), md5, marks[|marks| - 1], fs, now)
  }

  /** Whether applying `m` to `d` calls `save_cache`: a start always does, the others only for a known key. */
  predicate Saves(d: CacheData, m: Mark)
  {
    m.Start? || m.key in d.downloads
  }

  /**
   * The cache file after the marks: the mark at position `k` that saves ends its
   * write as `saves(first + k)` says, over the document as it stands after it.
   */
  function FileAfterMarks(file: StoredFile, d: CacheData, md5: string -> HexDigest, marks: seq<Mark>, fs: FileSystem,
                          now: Timestamp, saves: nat -> Save, first: nat): StoredFile
  {
    if marks == [] then file
    else
      var init, last := marks[..|marks| - 1], marks[|marks| - 1];
      var before := ApplyMarks(d, md5, init, fs, now);
      SaveStep(FileAfterMarks(file, d, md5, init, fs, now, saves, first), before, md5, last, fs, now, saves(first + |init|))
  }

  /** The file after mark `m` is applied to `before`, its save (if any) ending as `s`. */
  function SaveStep(f: StoredFile, before: CacheData, md5: string -> HexDigest, m: Mark, fs: FileSystem, now: Timestamp,
                    s: Save): StoredFile
  {
    if Saves(before, m) then AfterSave(f, ApplyMark(before, md5, m, fs, now), s) else f
  }

  /** Skipped: no mark at all. Otherwise a start, then exactly one closing mark, except that the unsupported branch fails and then completes. */
  lemma MarkShape(d: CacheData, md5: string -> HexDigest, c: LectureCall, info: Option<AssetInfo>,
                  sw: Switches, ex: Exceptions, fsBefore: FileSystem, fsAfter: FileSystem)
    ensures var marks := LectureMarks(d, md5, c, info, sw, ex, fsBefore, fsAfter);
      var key := DownloadKey(md5, c.chapterIndex, c.lindex, c.title);
      && (marks == [] <==>
            IsDownloadCompleted(d, md5, c.chapterIndex, c.lindex, c.title, ExpectedPath(c), fsBefore).0 || info.None?)
      && (marks != [] ==> marks[0].Start? && (|marks| == 2 || |marks| == 3))
      && (marks != [] ==> marks[|marks| - 1] == Complete(key, CompletionPath(c, fsAfter)) || marks[|marks| - 1].Fail?)
      && (|marks| == 3 ==> marks[1] == Fail(key, UnsupportedMessage) && marks[2] == Complete(key, CompletionPath(c, fsAfter)))
  {
  }

  /** A video with no DASH, HLS or MP4 source is marked failed and then completed. */
  lemma UnsupportedFailsThenCompletes(d: CacheData, md5: string -> HexDigest, c: LectureCall, a: AssetInfo,
                                      sw: Switches, ex: Exceptions, fsBefore: FileSystem, fsAfter: FileSystem)
    requires !IsDownloadCompleted(d, md5, c.chapterIndex, c.lindex, c.title, ExpectedPath(c), fsBefore).0
    requires a.assetType == "Video" && !sw.skipLectures
    requires forall i :: 0 <= i < |a.sources| ==> a.sources[i].kind !in {DashType, HlsType, Mp4Type}
    requires sw.skipCaptions || a.captionCount == 0 || ex.captions.None?
    requires sw.skipAssets || c.assetCount == 0 || ex.assets.None?
    ensures var key := DownloadKey(md5, c.chapterIndex, c.lindex, c.title);
      LectureMarks(d, md5, c, Some(a), sw, ex, fsBefore, fsAfter) ==
        [Start(c.chapterIndex, c.lindex, c.title, c.lectureId, a.assetType),
         Fail(key, UnsupportedMessage), Complete(key, CompletionPath(c, fsAfter))]
  {
    var plan := LecturePlan(sw.skipCaptions, a.captionCount, sw.skipAssets, c.assetCount, a.assetType,
                            a.sources, sw.skipLectures, sw.skipArticles, sw.key);
    assert plan.primary == Unsupported by {
      DispatchPriority(a.sources, sw.skipArticles, sw.key);
    }
  }

  /** Its record ends completed with the failure message kept, and both counters grow by one. */
  lemma UnsupportedRecord(d: CacheData, md5: string -> HexDigest, c: LectureCall, a: AssetInfo,
                          path: Path, fs: FileSystem, now: Timestamp)
    ensures var key := DownloadKey(md5, c.chapterIndex, c.lindex, c.title);
      var r := ApplyMarks(d, md5, [Start(c.chapterIndex, c.lindex, c.title, c.lectureId, a.assetType),
                                   Fail(key, UnsupportedMessage), Complete(key, path)], fs, now);
      && key in r.downloads
      && r.downloads[key].status == Completed
      && r.downloads[key].error == Some(UnsupportedMessage)
      && r.completedDownloads == d.completedDownloads + 1
      && r.failedDownloads == d.failedDownloads + 1
  {
    var key := DownloadKey(md5, c.chapterIndex, c.lindex, c.title);
    var marks := [Start(c.chapterIndex, c.lindex, c.title, c.lectureId, a.assetType),
                  Fail(key, UnsupportedMessage), Complete(key, path)];
    assert marks[..2][..1] == [marks[0]] && marks[..2] == [marks[0], marks[1]];
    assert [marks[0]][..0] == [];
    var d1 := MarkStarted(d, md5, c.chapterIndex, c.lindex, c.title, c.lectureId, a.assetType, now);
    assert ApplyMarks(d, md5, [marks[0]], fs, now) == d1;
    var d2 := MarkFailed(d1, key, UnsupportedMessage, now);
    assert ApplyMarks(d, md5, marks[..2], fs, now) == d2;
  }

  /**
   * The last save of a lecture decides its file: written, the file holds the
   * final document; failing at `open`, it keeps what the earlier saves left;
   * failing after `open` emptied it, the file is not valid JSON and the next
   * load starts a fresh store. A skipped lecture leaves the file alone.
   */
  lemma LectureFile(file: StoredFile, d: CacheData, md5: string -> HexDigest, c: LectureCall, info: Option<AssetInfo>,
                    sw: Switches, ex: Exceptions, fsBefore: FileSystem, fsAfter: FileSystem, now: Timestamp,
                    saves: nat -> Save)
    ensures var marks := LectureMarks(d, md5, c, info, sw, ex, fsBefore, fsAfter);
      var f := FileAfterMarks(file, d, md5, marks, fsAfter, now, saves, 0);
      && (marks == [] ==> f == file)
      && (marks != [] ==>
            var last := saves(|marks| - 1);
            && (last == Written ==> f == Stored(ApplyMarks(d, md5, marks, fsAfter, now)))
            && (last == OpenFailed ==>
                  f == FileAfterMarks(file, d, md5, marks[..|marks| - 1], fsAfter, now, saves, 0))
            && (last == FailedAfterTruncate ==> f == Unreadable))
  {
    var marks := LectureMarks(d, md5, c, info, sw, ex, fsBefore, fsAfter);
    if marks != [] {
      MarkShape(d, md5, c, info, sw, ex, fsBefore, fsAfter);
      var key := DownloadKey(md5, c.chapterIndex, c.lindex, c.title);
      var init, last := marks[..|marks| - 1], marks[|marks| - 1];
      assert init[0] == marks[0];
      var before := ApplyMarks(d, md5, init, fsAfter, now);
      assert key in before.downloads by {
        StartKeepsKey(d, md5, init, fsAfter, now, key);
      }
      assert last.key == key;
      assert Saves(before, last);
    }
  }

  /**
   * A lecture completed with its expected file of more than 1024 bytes is
   * skipped by the next run's completeness check on the same disk.
   */
  lemma CompletedLectureSkippedNextTime(d: CacheData, md5: string -> HexDigest, c: LectureCall, info: Option<AssetInfo>,
                                        sw: Switches, ex: Exceptions, fsBefore: FileSystem, fsAfter: FileSystem,
                                        now: Timestamp)
    requires var marks := LectureMarks(d, md5, c, info, sw, ex, fsBefore, fsAfter);
      marks != [] && marks[|marks| - 1].Complete?
    requires ExpectedPath(c) in fsAfter && fsAfter[ExpectedPath(c)] > 1024
    ensures var d' := ApplyMarks(d, md5, LectureMarks(d, md5, c, info, sw, ex, fsBefore, fsAfter), fsAfter, now);
      IsDownloadCompleted(d', md5, c.chapterIndex, c.lindex, c.title, ExpectedPath(c), fsAfter).0
  {
    var marks := LectureMarks(d, md5, c, info, sw, ex, fsBefore, fsAfter);
    var key := DownloadKey(md5, c.chapterIndex, c.lindex, c.title);
    MarkShape(d, md5, c, info, sw, ex, fsBefore, fsAfter);
    var before := ApplyMarks(d, md5, marks[..|marks| - 1], fsAfter, now);
    assert key in before.downloads by {
      StartKeepsKey(d, md5, marks[..|marks| - 1], fsAfter, now, key);
    }
    CheckAfterComplete(before, md5, c.chapterIndex, c.lindex, c.title, ExpectedPath(c), fsAfter, now);
  }

  /** After a start mark for `key`, later marks keep the key. */
  lemma {:induction false} StartKeepsKey(d: CacheData, md5: string -> HexDigest, marks: seq<Mark>, fs: FileSystem,
                                         now: Timestamp, key: Key)
    requires marks != [] && marks[0].Start?
    requires key == DownloadKey(md5, marks[0].chapterIndex, marks[0].lindex, marks[0].title)
    ensures key in ApplyMarks(d, md5, marks, fs, now).downloads
  {
    if |marks| > 1 {
      var init := marks[..|marks| - 1];
      assert init[0] == marks[0];
      StartKeepsKey(d, md5, init, fs, now, key);
    } else {
      assert marks[..0] == [];
    }
  }

  lemma ApplyMarksAppend(d: CacheData, md5: string -> HexDigest, marks: seq<Mark>, m: Mark, fs: FileSystem, now: Timestamp)
    ensures ApplyMarks(d, md5, marks + [m], fs, now) == ApplyMark(ApplyMarks(d, md5, marks, fs, now), md5, m, fs, now)
  {
    assert (marks + [m])[..|marks|] == marks;
  }

  lemma FileAfterMarksAppend(file: StoredFile, d: CacheData, md5: string -> HexDigest, marks: seq<Mark>, m: Mark,
                             fs: FileSystem, now: Timestamp, saves: nat -> Save, first: nat)
    ensures FileAfterMarks(file, d, md5, marks + [m], fs, now, saves, first) ==
      SaveStep(FileAfterMarks(file, d, md5, marks, fs, now, saves, first), ApplyMarks(d, md5, marks, fs, now), md5, m, fs,
               now, saves(first + |marks|))
  {
    assert (marks + [m])[..|marks|] == marks;
  }

  /** The try block of download_lecture, once the record for `key` exists. */
  method RunTry(cache: DownloadCache, md5: string -> HexDigest, key: Key, plan: Plan, ex: Exceptions,
                completionPath: Path, fsAfter: FileSystem, now: Timestamp, saves: nat -> Save, first: nat)
    returns (marks: seq<Mark>)
    requires key in cache.data.downloads
    modifies cache
    ensures marks == TryMarks(key, plan, ex, completionPath)
    ensures cache.data == ApplyMarks(old(cache.data), md5, marks, fsAfter, now)
    ensures cache.file == FileAfterMarks(old(cache.file), old(cache.data), md5, marks, fsAfter, now, saves, first)
  {
    ghost var d0, f0 := cache.data, cache.file;
    marks := [];
    var raised: Option<string> := None;
    if plan.captions && ex.captions.Some? {
      raised := ex.captions;
    } else if plan.assets && ex.assets.Some? {
      raised := ex.assets;
    } else if plan.primary.Unsupported? {
      cache.MarkDownloadFailed(key, UnsupportedMessage, now, saves(first));
      marks := [Fail(key, UnsupportedMessage)];
      ApplyMarksAppend(d0, md5, [], Fail(key, UnsupportedMessage), fsAfter, now);
      FileAfterMarksAppend(f0, d0, md5, [], Fail(key, UnsupportedMessage), fsAfter, now, saves, first);
    } else if Fetches(plan.primary) && ex.primary.Some? {
      raised := ex.primary;
    }
    ghost var d1 := cache.data;
    assert d1 == ApplyMarks(d0, md5, marks, fsAfter, now);
    assert cache.file == FileAfterMarks(f0, d0, md5, marks, fsAfter, now, saves, first);
    assert key in d1.downloads;
    if raised.Some? {
      cache.MarkDownloadFailed(key, raised.value, now, saves(first + |marks|));
      ApplyMarksAppend(d0, md5, marks, Fail(key, raised.value), fsAfter, now);
      FileAfterMarksAppend(f0, d0, md5, marks, Fail(key, raised.value), fsAfter, now, saves, first);
      marks := marks + [Fail(key, raised.value)];
    } else {
      cache.MarkDownloadCompleted(key, completionPath, None, fsAfter, now, saves(first + |marks|));
      ApplyMarksAppend(d0, md5, marks, Complete(key, completionPath), fsAfter, now);
      FileAfterMarksAppend(f0, d0, md5, marks, Complete(key, completionPath), fsAfter, now, saves, first);
      marks := marks + [Complete(key, completionPath)];
    }
  }

  /** Applying a start and then the rest is applying the rest to the started document. */
  lemma {:induction false} ApplyMarksPrefix(d: CacheData, md5: string -> HexDigest, m: Mark, rest: seq<Mark>,
                                            fs: FileSystem, now: Timestamp)
    ensures ApplyMarks(d, md5, [m] + rest, fs, now) == ApplyMarks(ApplyMark(d, md5, m, fs, now), md5, rest, fs, now)
    decreases |rest|
  {
    if rest == [] {
      assert [m] + rest == [m];
      assert [m][..0] == [];
    } else {
      var init, last := rest[..|rest| - 1], rest[|rest| - 1];
      var d' := ApplyMark(d, md5, m, fs, now);
      assert ([m] + rest)[..|rest|] == [m] + init;
      assert ([m] + rest)[|rest|] == last;
      calc {
        ApplyMarks(d, md5, [m] + rest, fs, now);
        ApplyMark(ApplyMarks(d, md5, [m] + init, fs, now), md5, last, fs, now);
        { ApplyMarksPrefix(d, md5, m, init, fs, now); }
        ApplyMark(ApplyMarks(d', md5, init, fs, now), md5, last, fs, now);
        ApplyMarks(d', md5, rest, fs, now);
      }
    }
  }

  /** Saving after a start and then the rest is saving the rest after the started document. */
  lemma {:induction false} FileAfterMarksPrefix(file: StoredFile, d: CacheData, md5: string -> HexDigest, m: Mark,
                                                rest: seq<Mark>, fs: FileSystem, now: Timestamp, saves: nat -> Save,
                                                first: nat)
    ensures var d' := ApplyMark(d, md5, m, fs, now);
      FileAfterMarks(file, d, md5, [m] + rest, fs, now, saves, first) ==
        FileAfterMarks(SaveStep(file, d, md5, m, fs, now, saves(first)), d', md5, rest, fs, now, saves, first + 1)
    decreases |rest|
  {
    var d' := ApplyMark(d, md5, m, fs, now);
    var f' := SaveStep(file, d, md5, m, fs, now, saves(first));
    if rest == [] {
      FileAfterMarksAppend(file, d, md5, [], m, fs, now, saves, first);
      assert [] + [m] == [m] + rest;
    } else {
      var init, last := rest[..|rest| - 1], rest[|rest| - 1];
      assert init + [last] == rest;
      assert ([m] + init) + [last] == [m] + rest;
      FileAfterMarksPrefix(file, d, md5, m, init, fs, now, saves, first);
      ApplyMarksPrefix(d, md5, m, init, fs, now);
      var g := FileAfterMarks(file, d, md5, [m] + init, fs, now, saves, first);
      var b := ApplyMarks(d, md5, [m] + init, fs, now);
      assert g == FileAfterMarks(f', d', md5, init, fs, now, saves, first + 1);
      assert b == ApplyMarks(d', md5, init, fs, now);
      assert first + |[m] + init| == first + 1 + |init|;
      calc {
        FileAfterMarks(file, d, md5, [m] + rest, fs, now, saves, first);
        { FileAfterMarksAppend(file, d, md5, [m] + init, last, fs, now, saves, first); }
        SaveStep(g, b, md5, last, fs, now, saves(first + 1 + |init|));
        { FileAfterMarksAppend(f', d', md5, init, last, fs, now, saves, first + 1); }
        FileAfterMarks(f', d', md5, rest, fs, now, saves, first + 1);
      }
    }
  }

  /** The start mark's own save, followed by those of the rest. */
  lemma StartThenRest(f0: StoredFile, d0: CacheData, md5: string -> HexDigest, start: Mark, rest: seq<Mark>,
                      fs: FileSystem, now: Timestamp, saves: nat -> Save, f1: StoredFile, d1: CacheData)
    requires start.Start?
    requires d1 == MarkStarted(d0, md5, start.chapterIndex, start.lindex, start.title, start.lectureId, start.assetType, now)
    requires f1 == AfterSave(f0, d1, saves(0))
    ensures ApplyMarks(d0, md5, [start] + rest, fs, now) == ApplyMarks(d1, md5, rest, fs, now)
    ensures FileAfterMarks(f0, d0, md5, [start] + rest, fs, now, saves, 0) == FileAfterMarks(f1, d1, md5, rest, fs, now, saves, 1)
  {
    ApplyMarksPrefix(d0, md5, start, rest, fs, now);
    FileAfterMarksPrefix(f0, d0, md5, start, rest, fs, now, saves, 0);
  }

  /**
   * download_lecture against the store: the marks it makes are
   * `LectureMarks`, the document ends as those marks applied in order, and the
   * file ends as the saves those marks trigger leave it, the k-th ending as
   * `saves(k)`.
   */
  method DownloadLecture(cache: DownloadCache, md5: string -> HexDigest, c: LectureCall, info: Option<AssetInfo>,
                         sw: Switches, ex: Exceptions, fsBefore: FileSystem, fsAfter: FileSystem,
                         now: Timestamp, saves: nat -> Save)
    returns (outcome: LectureOutcome, marks: seq<Mark>)
    modifies cache
    ensures marks == LectureMarks(old(cache.data), md5, c, info, sw, ex, fsBefore, fsAfter)
    ensures cache.data == ApplyMarks(old(cache.data), md5, marks, fsAfter, now)
    ensures cache.file == FileAfterMarks(old(cache.file), old(cache.data), md5, marks, fsAfter, now, saves, 0)
    ensures outcome == Skipped <==>
      IsDownloadCompleted(old(cache.data), md5, c.chapterIndex, c.lindex, c.title, ExpectedPath(c), fsBefore).0
    ensures outcome == Escaped <==> outcome != Skipped && info.None?
  {
    var expected := ExpectedPath(c);
    var check := IsDownloadCompleted(cache.data, md5, c.chapterIndex, c.lindex, c.title, expected, fsBefore);
    if check.0 {
      return Skipped, [];
    }
    if info.None? {
      // `lect_info['asset']['asset_type']` raises before the start mark.
      return Escaped, [];
    }
    var a := info.value;
    ghost var d0, f0 := cache.data, cache.file;
    var key := cache.MarkDownloadStarted(md5, c.chapterIndex, c.lindex, c.title, c.lectureId, a.assetType, now, saves(0));
    var start := Start(c.chapterIndex, c.lindex, c.title, c.lectureId, a.assetType);
    ghost var d1, f1 := cache.data, cache.file;
    var plan := LecturePlan(sw.skipCaptions, a.captionCount, sw.skipAssets, c.assetCount, a.assetType,
                            a.sources, sw.skipLectures, sw.skipArticles, sw.key);
    var path := if expected in fsAfter then expected else FallbackPath(c);
    var rest := RunTry(cache, md5, key, plan, ex, path, fsAfter, now, saves, 1);
    marks := [start] + rest;
    StartThenRest(f0, d0, md5, start, rest, fsAfter, now, saves, f1, d1);
    outcome := Done;
  }
}
