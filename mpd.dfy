/// The decisions of the DASH fetcher (utils/process_mpd.py): the n_m3u8dl-re
/// command line, which downloaded files are picked, which merge runs, and
/// where the result lands. The subprocesses and the folder listing are inputs.
module Mpd {
  import opened Text
  import opened Paths
  import Hls
  import opened Stream

  /** The fixed part of the download command (utils/process_mpd.py:27-32): both directories are the download folder. */
  function BaseCommand(mpdPath: Path, downloadFolder: Path, outputName: string): string
  {
    Hls.CommandHead(mpdPath) + Hls.DirOption("--save-dir", downloadFolder) + SaveName(outputName)
    + Hls.DirOption("--tmp-dir", downloadFolder) + " --log-level ERROR"
  }

  /** The middle of the command: the saved name always carries `.mp4`. */
  function SaveName(outputName: string): string
  {
    " --save-name \"" + outputName + ".mp4\" --auto-select --concurrent-download --del-after-done --no-log "
  }

  /**
   * process_mpd's command (utils/process_mpd.py:27-40), built by `+=`: the
   * base, then the decryption options exactly when the key is truthy.
   */
  method DownloadCommand(mpdPath: Path, downloadFolder: Path, outputName: string, key: Option<string>, packagerPath: Path)
    returns (command: string)
    ensures StartsWith(command, BaseCommand(mpdPath, downloadFolder, outputName))
    ensures Hls.KeySet(key) ==> command == BaseCommand(mpdPath, downloadFolder, outputName) + Hls.DrmSuffix(key.value, packagerPath)
    ensures !Hls.KeySet(key) ==> command == BaseCommand(mpdPath, downloadFolder, outputName)
  {
    command := BaseCommand(mpdPath, downloadFolder, outputName);
    ghost var base := command;
    if Hls.KeySet(key) {
      command := command + Hls.DrmSuffix(key.value, packagerPath);
      assert command[..|base|] == base;
    }
  }

  /** The command always names the output `<name>.mp4` and keeps everything in the download folder. */
  lemma CommandOptions(mpdPath: Path, downloadFolder: Path, outputName: string)
    ensures var base := BaseCommand(mpdPath, downloadFolder, outputName);
      && Contains(base, Hls.DirOption("--save-dir", downloadFolder))
      && Contains(base, SaveName(outputName))
      && Contains(base, Hls.DirOption("--tmp-dir", downloadFolder))
  {
    var head := Hls.CommandHead(mpdPath);
    var save := Hls.DirOption("--save-dir", downloadFolder);
    var tail := Hls.DirOption("--tmp-dir", downloadFolder) + " --log-level ERROR";
    ContainsPieces(head, save, SaveName(outputName), Hls.DirOption("--tmp-dir", downloadFolder), " --log-level ERROR");
    ContainsConcat(head + save, SaveName(outputName), tail);
    assert head + save + SaveName(outputName) + tail == BaseCommand(mpdPath, downloadFolder, outputName);
  }

  /** The names of `files` satisfying `p`, in listing order (a list comprehension with a filter). */
  function Filter(files: seq<string>, p: string -> bool): (r: seq<string>)
    ensures forall f :: f in r <==> f in files && p(f)
    ensures |r| <= |files|
  {
    if files == [] then []
    else (if p(files[0]) then [files[0]] else []) + Filter(files[1..], p)
  }

  /**
   * The comprehension keeps the listing's order: filtering distributes over
   * concatenation (and keeps a single file exactly when it matches).
   */
  lemma {:induction false} FilterAppend(a: seq<string>, b: seq<string>, p: string -> bool)
    ensures Filter(a + b, p) == Filter(a, p) + Filter(b, p)
  {
    if a == [] {
      assert a + b == b;
    } else {
      assert (a + b)[0] == a[0];
      assert (a + b)[1..] == a[1..] + b;
      FilterAppend(a[1..], b, p);
    }
  }

  /** The first element of a filter is the first matching file of the listing. */
  lemma {:induction false} FilterFirst(files: seq<string>, p: string -> bool)
    requires Filter(files, p) != []
    ensures exists i :: 0 <= i < |files| && files[i] == Filter(files, p)[0] && p(files[i])
                        && forall j :: 0 <= j < i ==> !p(files[j])
  {
    if !p(files[0]) {
      FilterFirst(files[1..], p);
      var i :| 0 <= i < |files| - 1 && files[1..][i] == Filter(files[1..], p)[0] && p(files[1..][i])
                && forall j :: 0 <= j < i ==> !p(files[1..][j]);
      assert files[i + 1] == files[1..][i];
      forall j | 0 <= j < i + 1 ensures !p(files[j]) {
        if j > 0 { assert files[j] == files[1..][j - 1]; }
      }
    }
  }

  predicate IsMp4(f: string) { EndsWith(f, ".mp4") }
  predicate IsM4a(f: string) { EndsWith(f, ".m4a") }

  /** A packager output: an `.mkv` whose name mentions `MUX` or the output name. */
  predicate IsMkv(outputName: string, f: string)
  {
    EndsWith(f, ".mkv") && (Contains(f, "MUX") || Contains(f, outputName))
  }

  /** What process_mpd does after the download command. */
  datatype MpdStep =
    | OutputUnbound                                // UnboundLocalError from the progress loop: raises
    | DownloadFailed                               // stderr or non-zero return code: return
    | ConvertMkv(source: Path, output: Path)       // ffmpeg re-encodes the first MKV
    | MissingStreams                               // "Missing Video and Audio files": return
    | MergeStreams(video: Path, audio: Path, output: Path)

  /**
   * The branch preference (utils/process_mpd.py:51-133): output that ends
   * before its first line raises out of the progress loop; a failed download
   * stops before looking at files; any MKV candidate wins and only the first
   * is used; otherwise both an mp4 and an m4a are needed, the first of each.
   */
  function ProcessStep(downloadFolder: Path, outputName: string, output: seq<Read>, stderr: string, returnCode: int,
                       files: seq<string>): (step: MpdStep)
    ensures step == OutputUnbound <==> RaisesUnbound(output)
    ensures step == DownloadFailed <==> !RaisesUnbound(output) && (stderr != "" || returnCode != 0)
  {
    if RaisesUnbound(output) then OutputUnbound
    else if stderr != "" || returnCode != 0 then DownloadFailed
    else
      var mp4Files := Filter(files, IsMp4);
      var m4aFiles := Filter(files, IsM4a);
      var mkvFiles := Filter(files, f => IsMkv(outputName, f));
      if mkvFiles != [] then
        ConvertMkv(JoinPath(downloadFolder, mkvFiles[0]), JoinPath(Dirname(downloadFolder), outputName + ".mp4"))
      else if mp4Files == [] || m4aFiles == [] then MissingStreams
      else
        MergeStreams(JoinPath(downloadFolder, mp4Files[0]), JoinPath(downloadFolder, m4aFiles[0]),
                     JoinPath(Dirname(downloadFolder), outputName) + ".mp4")
  }

  /** After a clean download, the branch taken, in terms of the listing alone. */
  lemma StepChoice(downloadFolder: Path, outputName: string, output: seq<Read>, files: seq<string>)
    requires !RaisesUnbound(output)
    ensures var step := ProcessStep(downloadFolder, outputName, output, "", 0, files);
      && (step.ConvertMkv? <==> exists i :: 0 <= i < |files| && IsMkv(outputName, files[i]))
      && (step.MissingStreams? <==>
            (forall i :: 0 <= i < |files| ==> !IsMkv(outputName, files[i]))
            && ((forall i :: 0 <= i < |files| ==> !IsMp4(files[i])) || (forall i :: 0 <= i < |files| ==> !IsM4a(files[i]))))
      && (step.ConvertMkv? ==> exists i :: 0 <= i < |files| && IsMkv(outputName, files[i])
                                && step.source == JoinPath(downloadFolder, files[i])
                                && forall j :: 0 <= j < i ==> !IsMkv(outputName, files[j]))
  {
    var isMkv := f => IsMkv(outputName, f);
    var mkvFiles := Filter(files, isMkv);
    if mkvFiles != [] {
      FilterFirst(files, isMkv);
      assert mkvFiles[0] in mkvFiles;
    } else {
      forall i | 0 <= i < |files| ensures !IsMkv(outputName, files[i]) {
        assert files[i] in files;
        assert !isMkv(files[i]);
      }
      if Filter(files, IsMp4) != [] && Filter(files, IsM4a) != [] {
        var a, b := Filter(files, IsMp4)[0], Filter(files, IsM4a)[0];
        assert a in Filter(files, IsMp4) && b in Filter(files, IsM4a);
      }
    }
    if exists i :: 0 <= i < |files| && IsMkv(outputName, files[i]) {
      var i :| 0 <= i < |files| && IsMkv(outputName, files[i]);
      assert files[i] in mkvFiles;
    }
  }

  /** A filter is empty exactly when no file of the listing passes. */
  lemma FilterEmpty(files: seq<string>, p: string -> bool)
    ensures Filter(files, p) == [] <==> forall i :: 0 <= i < |files| ==> !p(files[i])
  {
    if Filter(files, p) != [] {
      assert Filter(files, p)[0] in Filter(files, p);
    } else {
      forall i | 0 <= i < |files| ensures !p(files[i]) {
        assert files[i] in files;
      }
    }
  }

  /**
   * After a clean download, the merge branch is taken exactly when there is no
   * MKV candidate but both an mp4 and an m4a, and it merges the first `.mp4`
   * and the first `.m4a` of the listing.
   */
  lemma MergeChoice(downloadFolder: Path, outputName: string, output: seq<Read>, files: seq<string>)
    requires !RaisesUnbound(output)
    ensures var step := ProcessStep(downloadFolder, outputName, output, "", 0, files);
      && (step.MergeStreams? <==>
            (forall i :: 0 <= i < |files| ==> !IsMkv(outputName, files[i]))
            && (exists i :: 0 <= i < |files| && IsMp4(files[i]))
            && (exists i :: 0 <= i < |files| && IsM4a(files[i])))
      && (step.MergeStreams? ==> exists i :: 0 <= i < |files| && IsMp4(files[i])
                                  && step.video == JoinPath(downloadFolder, files[i])
                                  && forall j :: 0 <= j < i ==> !IsMp4(files[j]))
      && (step.MergeStreams? ==> exists k :: 0 <= k < |files| && IsM4a(files[k])
                                  && step.audio == JoinPath(downloadFolder, files[k])
                                  && forall j :: 0 <= j < k ==> !IsM4a(files[j]))
  {
    var isMkv := f => IsMkv(outputName, f);
    var step := ProcessStep(downloadFolder, outputName, output, "", 0, files);
    FilterEmpty(files, isMkv);
    FilterEmpty(files, IsMp4);
    FilterEmpty(files, IsM4a);
    assert step.MergeStreams? <==>
      Filter(files, isMkv) == [] && Filter(files, IsMp4) != [] && Filter(files, IsM4a) != [];
    if step.MergeStreams? {
      assert step.video == JoinPath(downloadFolder, Filter(files, IsMp4)[0]);
      assert step.audio == JoinPath(downloadFolder, Filter(files, IsM4a)[0]);
      FilterFirst(files, IsMp4);
      FilterFirst(files, IsM4a);
    }
  }

  /** A failed download, or the progress loop raising, never looks at the folder. */
  lemma FailedDownloadStops(downloadFolder: Path, outputName: string, output: seq<Read>, stderr: string, returnCode: int,
                            files1: seq<string>, files2: seq<string>)
    requires RaisesUnbound(output) || stderr != "" || returnCode != 0
    ensures ProcessStep(downloadFolder, outputName, output, stderr, returnCode, files1) in {OutputUnbound, DownloadFailed}
    ensures ProcessStep(downloadFolder, outputName, output, stderr, returnCode, files1)
         == ProcessStep(downloadFolder, outputName, output, stderr, returnCode, files2)
  {
  }

  /**
   * Both merge branches write `<name>.mp4` next to the download folder. With
   * the download folder `folder/<lecture id>`, that is `folder` joined with
   * `<name>.mp4`, the expected path download_lecture checks.
   */
  lemma OutputIsExpectedPath(folderPath: Path, lectureDir: Path, outputName: string, output: seq<Read>, stderr: string,
                             returnCode: int, files: seq<string>)
    requires folderPath != [] && folderPath[|folderPath| - 1] != '/'
    requires IsComponent(lectureDir)
    ensures var step := ProcessStep(JoinPath(folderPath, lectureDir), outputName, output, stderr, returnCode, files);
      (step.ConvertMkv? || step.MergeStreams?) ==> step.output == JoinPath(folderPath, outputName + ".mp4")
  {
    DirnameOfJoin(folderPath, lectureDir);
    JoinThenAppend(folderPath, outputName, ".mp4");
  }
}
