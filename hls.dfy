/// The decisions of the HLS fetcher (utils/process_m3u8.py): which variant
/// playlist to download, the n_m3u8dl-re command line, and how the run ends.
/// The HTTP requests and the subprocess are inputs.
module Hls {
  import opened Text
  import opened Paths
  import opened Stream

  /** One variant of the master playlist; `resolution` is `(width, height)` when the stream info has one. */
  datatype Playlist = Playlist(uri: string, resolution: Option<(nat, nat)>)

  /** width × height, and 0 for a variant without a resolution. */
  function Area(pl: Playlist): nat
  {
    match pl.resolution
    case None => 0
    case Some(r) => r.0 * r.1
  }

  /**
   * The selection loop (utils/process_m3u8.py:19-29): a variant replaces the
   * current choice only when its area is strictly larger. The choice is the
   * first variant of largest area, if that area is positive; otherwise none.
   */
  method SelectPlaylist(playlists: seq<Playlist>) returns (best: Option<nat>)
    ensures best.None? <==> forall j :: 0 <= j < |playlists| ==> Area(playlists[j]) == 0
    ensures best.Some? ==> best.value < |playlists|
    ensures best.Some? ==> playlists[best.value].resolution.Some? && Area(playlists[best.value]) > 0
    ensures best.Some? ==> forall j :: 0 <= j < |playlists| ==> Area(playlists[j]) <= Area(playlists[best.value])
    ensures best.Some? ==> forall j :: 0 <= j < best.value ==> Area(playlists[j]) < Area(playlists[best.value])
  {
    best := None;
    var maxResolution: (nat, nat) := (0, 0);
    for i := 0 to |playlists|
      invariant best.None? ==> maxResolution == (0, 0) && forall j :: 0 <= j < i ==> Area(playlists[j]) == 0
      invariant best.Some? ==> best.value < i && playlists[best.value].resolution == Some(maxResolution)
      invariant best.Some? ==> Area(playlists[best.value]) > 0
      invariant forall j :: 0 <= j < i ==> Area(playlists[j]) <= maxResolution.0 * maxResolution.1
      invariant best.Some? ==> forall j :: 0 <= j < best.value ==> Area(playlists[j]) < maxResolution.0 * maxResolution.1
    {
      var resolution := playlists[i].resolution;
      if resolution.Some? && resolution.value.0 * resolution.value.1 > maxResolution.0 * maxResolution.1 {
        best := Some(i);
        maxResolution := resolution.value;
      }
    }
  }

  /** A quoted directory option, as in `--save-dir "<dir>"`. */
  function DirOption(flag: string, dir: Path): string
  {
    flag + " \"" + dir + "\""
  }

  /** The fixed part of the merge command (utils/process_m3u8.py:52-56); `outputPath` is the download folder's parent. */
  function BaseCommand(m3u8Path: Path, outputPath: Path, outputName: string): string
  {
    CommandHead(m3u8Path) + DirOption("--save-dir", outputPath) + CommandMiddle(outputName)
    + DirOption("--tmp-dir", outputPath) + " --log-level ERROR"
  }

  function CommandHead(m3u8Path: Path): string
  {
    "n_m3u8dl-re \"" + m3u8Path + "\" "
  }

  function CommandMiddle(outputName: string): string
  {
    " --save-name \"" + outputName + "\" --auto-select --concurrent-download --del-after-done --no-log "
  }

  /** The decryption options appended for a truthy key (shared with the DASH fetcher). */
  function DrmSuffix(key: string, packagerPath: Path): string
  {
    " --key " + key + " --decryption-engine SHAKA_PACKAGER "
    + "--decryption-binary-path \"" + packagerPath + "\" -mt -M format=mkv"
  }

  /** Python truthiness of the optional key. */
  predicate KeySet(key: Option<string>)
  {
    key.Some? && key.value != ""
  }

  /**
   * merge_segments_into_mp4's command (utils/process_m3u8.py:47-64), built by
   * `+=`: the base with both directories set to the parent of the download
   * folder, then the decryption options exactly when the key is truthy.
   * `packagerPath` stands for `os.path.abspath("shaka-packager.exe")`.
   */
  method MergeCommand(m3u8Path: Path, downloadFolder: Path, outputName: string, key: Option<string>, packagerPath: Path)
    returns (command: string)
    ensures StartsWith(command, BaseCommand(m3u8Path, Dirname(downloadFolder), outputName))
    ensures KeySet(key) ==> command == BaseCommand(m3u8Path, Dirname(downloadFolder), outputName) + DrmSuffix(key.value, packagerPath)
    ensures !KeySet(key) ==> command == BaseCommand(m3u8Path, Dirname(downloadFolder), outputName)
  {
    var outputPath := Dirname(downloadFolder);
    command := BaseCommand(m3u8Path, outputPath, outputName);
    ghost var base := command;
    if KeySet(key) {
      command := command + DrmSuffix(key.value, packagerPath);
      assert command[..|base|] == base;
    }
  }

  /** The save and temp directories in the command are the parent of the download folder. */
  lemma CommandDirectories(m3u8Path: Path, downloadFolder: Path, outputName: string)
    ensures var base := BaseCommand(m3u8Path, Dirname(downloadFolder), outputName);
      Contains(base, DirOption("--save-dir", Dirname(downloadFolder)))
      && Contains(base, DirOption("--tmp-dir", Dirname(downloadFolder)))
  {
    var out := Dirname(downloadFolder);
    ContainsPieces(CommandHead(m3u8Path), DirOption("--save-dir", out), CommandMiddle(outputName),
                   DirOption("--tmp-dir", out), " --log-level ERROR");
  }

  /** How download_and_merge_m3u8 ends. */
  datatype HlsOutcome =
    | HttpRaised(message: string)  // the master playlist's `raise_for_status`, or the variant request
    | NoPlaylist                   // logged, normal return
    | OutputUnbound                // UnboundLocalError from the progress loop
    | MergeFailed                  // logged, normal return, folder kept
    | Merged                       // folder removed

  /** Whether the master playlist has a variant with a resolution, that is, one `SelectPlaylist` picks. */
  predicate HasVariant(playlists: seq<Playlist>)
  {
    exists j :: 0 <= j < |playlists| && Area(playlists[j]) > 0
  }

  /**
   * The outcome rule (utils/process_m3u8.py:12-94): an HTTP error on the master
   * playlist raises; no selectable variant returns normally; the request for
   * the chosen variant (no status check, so only a failed request) raises; the
   * progress loop raises when the output ends before its first line; then a
   * merge with output on stderr or a non-zero return code returns normally.
   * `variantFetch` and `output` are only consulted once a variant is chosen.
   */
  function HlsRun(masterFetch: Option<string>, playlists: seq<Playlist>, variantFetch: Option<string>,
                  output: seq<Read>, stderr: string, returnCode: int): (o: HlsOutcome)
    ensures o.HttpRaised? <==> masterFetch.Some? || (HasVariant(playlists) && variantFetch.Some?)
    ensures o.HttpRaised? && masterFetch.Some? ==> o.message == masterFetch.value
    ensures o == NoPlaylist <==> masterFetch.None? && !HasVariant(playlists)
    ensures o == OutputUnbound <==>
      masterFetch.None? && HasVariant(playlists) && variantFetch.None? && RaisesUnbound(output)
    ensures o == Merged ==> stderr == "" && returnCode == 0
  {
    if masterFetch.Some? then HttpRaised(masterFetch.value)
    else if forall j :: 0 <= j < |playlists| ==> Area(playlists[j]) == 0 then NoPlaylist
    else if variantFetch.Some? then HttpRaised(variantFetch.value)
    else if RaisesUnbound(output) then OutputUnbound
    else if stderr != "" || returnCode != 0 then MergeFailed
    else Merged
  }

  /** `str(e)` of the UnboundLocalError, as Python 3.11 and later word it. */
  const UnboundMessage: string := "cannot access local variable 'stripped_output' where it is not associated with a value"

  /** The exception the caller sees: an HTTP error or the unbound loop variable. */
  function Raised(o: HlsOutcome): (r: Option<string>)
    ensures r.Some? <==> o.HttpRaised? || o == OutputUnbound
    ensures o.HttpRaised? ==> r == Some(o.message)
  {
    match o
    case HttpRaised(message) => Some(message)
    case OutputUnbound => Some(UnboundMessage)
    case _ => None
  }

  /** The temp folder is removed only after a clean merge. */
  predicate RemovesFolder(o: HlsOutcome)
  {
    o == Merged
  }

  /** The fetcher raises exactly on an HTTP failure or on output that ends before its first line. */
  lemma RaisingRuns(masterFetch: Option<string>, playlists: seq<Playlist>, variantFetch: Option<string>,
                    output: seq<Read>, stderr: string, returnCode: int)
    ensures Raised(HlsRun(masterFetch, playlists, variantFetch, output, stderr, returnCode)).Some? <==>
      masterFetch.Some? || (HasVariant(playlists) && (variantFetch.Some? || RaisesUnbound(output)))
  {
  }

  /**
   * Once both requests succeed and the progress loop ends normally, a failed
   * merge and a missing playlist both look like success to the caller and keep
   * the folder.
   */
  lemma QuietFailures(masterFetch: Option<string>, playlists: seq<Playlist>, variantFetch: Option<string>,
                      output: seq<Read>, stderr: string, returnCode: int)
    requires masterFetch.None? && variantFetch.None? && !RaisesUnbound(output)
    ensures var o := HlsRun(masterFetch, playlists, variantFetch, output, stderr, returnCode);
      Raised(o) == None
      && (RemovesFolder(o) <==> HasVariant(playlists) && stderr == "" && returnCode == 0)
  {
  }
}
