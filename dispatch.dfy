/// The media-source choice inside `download_lecture` (main.py:272-297): what
/// runs before the primary fetch and which fetcher handles the lecture.
module Dispatch {
  import opened Text

  /** One entry of `asset.media_sources`. */
  datatype MediaSource = MediaSource(kind: string, src: string)

  const DashType: string := "application/dash+xml"
  const HlsType: string := "application/x-mpegURL"
  const Mp4Type: string := "video/mp4"

  /** `next((item['src'] for item in sources if item['type'] == kind), None)`. */
  function FirstSource(sources: seq<MediaSource>, kind: string): (r: Option<string>)
    ensures r.None? <==> forall i :: 0 <= i < |sources| ==> sources[i].kind != kind
    ensures r.Some? ==> exists i :: 0 <= i < |sources| && sources[i].kind == kind && sources[i].src == r.value
                                    && forall j :: 0 <= j < i ==> sources[j].kind != kind
  {
    if sources == [] then None
    else if sources[0].kind == kind then Some(sources[0].src)
    else
      var r := FirstSource(sources[1..], kind);
      assert r.Some? ==> exists i :: 0 <= i < |sources| && sources[i].kind == kind && sources[i].src == r.value
                                     && forall j :: 0 <= j < i ==> sources[j].kind != kind by {
        if r.Some? {
          var i :| 0 <= i < |sources| - 1 && sources[1..][i].kind == kind && sources[1..][i].src == r.value
                   && forall j :: 0 <= j < i ==> sources[1..][j].kind != kind;
          assert forall j :: 0 <= j < i + 1 ==> sources[j].kind != kind by {
            forall j | 0 <= j < i + 1 ensures sources[j].kind != kind {
              if j > 0 { assert sources[j] == sources[1..][j - 1]; }
            }
          }
        }
      }
      r
  }

  /** The fetcher a lecture is handed to, or the unsupported-format branch. */
  datatype Fetch =
    | FetchDash(url: string, drmWarning: bool)
    | FetchHls(url: string)
    | FetchMp4(url: string)
    | Unsupported
    | FetchArticle
    | NoFetch

  /**
   * The if-cascade of main.py:278-297: a non-skipped Video goes to DASH, else
   * HLS, else MP4, else is unsupported; a non-skipped Article is fetched as an
   * article; anything else fetches nothing. The DRM warning is the `key is None` test.
   */
  function PrimaryFetch(assetType: string, sources: seq<MediaSource>, skipLectures: bool, skipArticles: bool,
                        key: Option<string>): Fetch
  {
    if !skipLectures && assetType == "Video" then
      var mpd := FirstSource(sources, DashType);
      var mp4 := FirstSource(sources, Mp4Type);
      var m3u8 := FirstSource(sources, HlsType);
      if mpd.None? then
        if m3u8.None? then
          if mp4.None? then Unsupported else FetchMp4(mp4.value)
        else FetchHls(m3u8.value)
      else FetchDash(mpd.value, key.None?)
    else if !skipArticles && assetType == "Article" then FetchArticle
    else NoFetch
  }

  /** Whether any source has the given type. */
  predicate HasKind(sources: seq<MediaSource>, kind: string)
  {
    exists i :: 0 <= i < |sources| && sources[i].kind == kind
  }

  /** The priority DASH, then HLS, then MP4, each with the first source of its type. */
  lemma DispatchPriority(sources: seq<MediaSource>, skipArticles: bool, key: Option<string>)
    ensures var f := PrimaryFetch("Video", sources, false, skipArticles, key);
      && (f.FetchDash? <==> HasKind(sources, DashType))
      && (f.FetchHls? <==> !HasKind(sources, DashType) && HasKind(sources, HlsType))
      && (f.FetchMp4? <==> !HasKind(sources, DashType) && !HasKind(sources, HlsType) && HasKind(sources, Mp4Type))
      && (f.Unsupported? <==> !HasKind(sources, DashType) && !HasKind(sources, HlsType) && !HasKind(sources, Mp4Type))
      && (f.FetchDash? ==> Some(f.url) == FirstSource(sources, DashType))
      && (f.FetchHls? ==> Some(f.url) == FirstSource(sources, HlsType))
      && (f.FetchMp4? ==> Some(f.url) == FirstSource(sources, Mp4Type))
  {
  }

  /** Skipping lectures never fetches a video, skipping articles never fetches an article. */
  lemma SkipFlagsRespected(assetType: string, sources: seq<MediaSource>, skipLectures: bool, skipArticles: bool,
                           key: Option<string>)
    ensures var f := PrimaryFetch(assetType, sources, skipLectures, skipArticles, key);
      && (skipLectures ==> !f.FetchDash? && !f.FetchHls? && !f.FetchMp4? && !f.Unsupported?)
      && (skipArticles ==> !f.FetchArticle?)
      && (f.NoFetch? <==> !(!skipLectures && assetType == "Video") && !(!skipArticles && assetType == "Article"))
  {
  }

  /** With a key that is always a string, the DRM warning never fires. */
  lemma NoDrmWarningWithStringKey(sources: seq<MediaSource>, skipArticles: bool, key: string)
    ensures var f := PrimaryFetch("Video", sources, false, skipArticles, Some(key));
      f.FetchDash? ==> !f.drmWarning
  {
  }

  /** What `download_lecture` runs inside its try, in order. */
  datatype Plan = Plan(captions: bool, assets: bool, primary: Fetch)

  /** Captions, then assets, each only when not skipped and non-empty, then the primary fetch. */
  function LecturePlan(skipCaptions: bool, captionCount: nat, skipAssets: bool, assetCount: nat,
                       assetType: string, sources: seq<MediaSource>, skipLectures: bool, skipArticles: bool,
                       key: Option<string>): (p: Plan)
    ensures p.captions <==> !skipCaptions && captionCount > 0
    ensures p.assets <==> !skipAssets && assetCount > 0
    ensures p.primary == PrimaryFetch(assetType, sources, skipLectures, skipArticles, key)
  {
    Plan(!skipCaptions && captionCount > 0, !skipAssets && assetCount > 0,
         PrimaryFetch(assetType, sources, skipLectures, skipArticles, key))
  }
}
