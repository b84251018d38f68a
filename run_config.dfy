/// Run-configuration normalisation in `main` (main.py:472-493 and 611-642):
/// which course to fetch, the decryption key, the worker count, and the
/// chapter/lecture bounds handed to the scheduler.
module RunConfig {
  import opened Text
  import ChapterFilter

  /** Python truthiness of an optional integer argument: absent and 0 are false. */
  predicate IntSet(o: Option<int>)
  {
    o.Some? && o.value != 0
  }

  /** Python truthiness of an optional string: absent and "" are false. */
  predicate StrSet(o: Option<string>)
  {
    o.Some? && o.value != ""
  }

  datatype ConfigError =
    | NoCourseGiven
    | MalformedKey
    | StartLectureWithoutChapter
    | EndLectureWithoutChapter

  datatype Outcome<T> = Ok(value: T) | Err(error: ConfigError)

  /** The upper and lower limits on concurrent lecture downloads. */
  const MaxConcurrent: int := 25
  const MinConcurrent: int := 1

  /** The default last lecture when no end lecture is given. */
  const LastLectureDefault: int := 1000

  /** `--concurrent` capped to 25 from above and to 1 from below. */
  function ClampConcurrency(requested: int): (n: int)
    ensures MinConcurrent <= n <= MaxConcurrent
    ensures MinConcurrent <= requested <= MaxConcurrent ==> n == requested
    ensures requested > MaxConcurrent ==> n == MaxConcurrent
    ensures requested < MinConcurrent ==> n == MinConcurrent
  {
    if requested > MaxConcurrent then MaxConcurrent
    else if requested < MinConcurrent then MinConcurrent
    else requested
  }

  /** Clamping twice is clamping once, and clamping keeps the order of requests. */
  lemma ClampProperties(a: int, b: int)
    ensures ClampConcurrency(ClampConcurrency(a)) == ClampConcurrency(a)
    ensures a <= b ==> ClampConcurrency(a) <= ClampConcurrency(b)
  {
  }

  /**
   * `args.key or WIDEVINE_KEY`. The environment default is the empty string,
   * so the result is always a string, never `None`.
   */
  function EffectiveKey(argKey: Option<string>, envKey: string): (key: Option<string>)
    ensures key.Some?
    ensures StrSet(argKey) ==> key == argKey
    ensures !StrSet(argKey) ==> key == Some(envKey)
  {
    if StrSet(argKey) then argKey else Some(envKey)
  }

  /** Where the course comes from: the id wins over a URL when both are given. */
  datatype CourseSource = ById(id: int) | ByUrl(url: string)

  /**
   * `course_url = args.url or COURSE_LINK`; no (truthy) URL and no (non-zero)
   * id is an error; otherwise the id is preferred.
   */
  function ChooseSource(argId: Option<int>, argUrl: Option<string>, courseLink: Option<string>): (r: Outcome<CourseSource>)
    ensures r.Err? <==> !IntSet(argId) && !StrSet(argUrl) && !StrSet(courseLink)
    ensures r.Err? ==> r.error == NoCourseGiven
    ensures r.Ok? && IntSet(argId) ==> r.value == ById(argId.value)
    ensures r.Ok? && !IntSet(argId) ==> r.value == ByUrl(if StrSet(argUrl) then argUrl.value else courseLink.value)
  {
    var courseUrl := if StrSet(argUrl) then argUrl else courseLink;
    if !StrSet(courseUrl) && !IntSet(argId) then Err(NoCourseGiven)
    else if IntSet(argId) then Ok(ById(argId.value))
    else Ok(ByUrl(courseUrl.value))
  }

  /** A key is refused when it is not `None` and has no `:`. */
  predicate KeyRejected(key: Option<string>)
  {
    key.Some? && ':' !in key.value
  }

  datatype Settings = Settings(source: CourseSource, key: string, concurrency: int)

  /** The checks at main.py:472-493 in their order: course first, then key. */
  function Normalise(argId: Option<int>, argUrl: Option<string>, courseLink: Option<string>,
                     argKey: Option<string>, envKey: string, concurrent: int): (r: Outcome<Settings>)
    ensures r.Ok? ==> ChooseSource(argId, argUrl, courseLink).Ok? && r.value.source == ChooseSource(argId, argUrl, courseLink).value
    ensures r.Ok? ==> ':' in r.value.key && r.value.key == EffectiveKey(argKey, envKey).value
    ensures r.Ok? ==> r.value.concurrency == ClampConcurrency(concurrent)
    ensures r.Ok? ==> MinConcurrent <= r.value.concurrency <= MaxConcurrent
    ensures r.Ok? <==> ChooseSource(argId, argUrl, courseLink).Ok? && !KeyRejected(EffectiveKey(argKey, envKey))
    ensures r == Err(NoCourseGiven) <==> ChooseSource(argId, argUrl, courseLink).Err?
    ensures r == Err(MalformedKey) <==>
      ChooseSource(argId, argUrl, courseLink).Ok? && KeyRejected(EffectiveKey(argKey, envKey))
  {
    var key := EffectiveKey(argKey, envKey);
    var concurrency := ClampConcurrency(concurrent);
    match ChooseSource(argId, argUrl, courseLink)
    case Err(e) => Err(e)
    case Ok(source) =>
      if KeyRejected(key) then Err(MalformedKey)
      else Ok(Settings(source, key.value, concurrency))
  }

  /**
   * Without `--key`, the key is `WIDEVINE_KEY`, which defaults to "": that has
   * no `:`, so a run without any key stops at the key check.
   */
  lemma MissingKeyRejected(argId: Option<int>, argUrl: Option<string>, courseLink: Option<string>, concurrent: int)
    requires ChooseSource(argId, argUrl, courseLink).Ok?
    ensures Normalise(argId, argUrl, courseLink, None, "", concurrent) == Err(MalformedKey)
  {
  }

  datatype Bounds = Bounds(chapter: int, lecture: int)

  /** main.py:611-623: start lecture needs a start chapter; the default start is (0, 0). */
  function StartBounds(startChapter: Option<int>, startLecture: Option<int>): (r: Outcome<Bounds>)
    ensures r.Err? <==> IntSet(startLecture) && !IntSet(startChapter)
    ensures r.Err? ==> r.error == StartLectureWithoutChapter
    ensures r.Ok? ==> r.value.chapter == (if IntSet(startChapter) then startChapter.value else 0)
    ensures r.Ok? ==> r.value.lecture == (if IntSet(startLecture) then startLecture.value else 0)
  {
    if IntSet(startLecture) then
      if IntSet(startChapter) then Ok(Bounds(startChapter.value, startLecture.value))
      else Err(StartLectureWithoutChapter)
    else if IntSet(startChapter) then Ok(Bounds(startChapter.value, 0))
    else Ok(Bounds(0, 0))
  }

  /**
   * The end bounds as main.py:625-637 binds them: `Unbound` leaves both names
   * unset, `Exit` is the logged error and `sys.exit(1)`.
   */
  datatype EndOutcome = Bound(bounds: Bounds) | Unbound | Exit

  /** main.py:625-637 as written: the error branch repeats the condition it follows. */
  function EndBoundsAsWritten(endChapter: Option<int>, endLecture: Option<int>, chapterCount: nat): EndOutcome
  {
    if IntSet(endLecture) then
      if IntSet(endChapter) then Bound(Bounds(endChapter.value, endLecture.value))
      else if IntSet(endChapter) then Exit
      else Unbound
    else if IntSet(endChapter) then Bound(Bounds(endChapter.value, LastLectureDefault))
    else Bound(Bounds(chapterCount, LastLectureDefault))
  }

  /**
   * The error branch is dead: no input reaches `Exit`, and an end lecture
   * without an end chapter binds neither end bound.
   */
  lemma EndLectureAloneUnbound(endChapter: Option<int>, endLecture: Option<int>, chapterCount: nat)
    ensures EndBoundsAsWritten(endChapter, endLecture, chapterCount) != Exit
    ensures EndBoundsAsWritten(endChapter, endLecture, chapterCount) == Unbound <==>
            IntSet(endLecture) && !IntSet(endChapter)
  {
  }

  /** The end bounds as intended: an end lecture without an end chapter is an error, like the start case. */
  function EndBounds(endChapter: Option<int>, endLecture: Option<int>, chapterCount: nat): (r: Outcome<Bounds>)
    ensures r.Err? <==> IntSet(endLecture) && !IntSet(endChapter)
    ensures r.Err? ==> r.error == EndLectureWithoutChapter
    ensures r.Ok? ==> r.value.chapter == (if IntSet(endChapter) then endChapter.value else chapterCount)
    ensures r.Ok? ==> r.value.lecture == (if IntSet(endLecture) then endLecture.value else LastLectureDefault)
  {
    if IntSet(endLecture) then
      if IntSet(endChapter) then Ok(Bounds(endChapter.value, endLecture.value))
      else Err(EndLectureWithoutChapter)
    else if IntSet(endChapter) then Ok(Bounds(endChapter.value, LastLectureDefault))
    else Ok(Bounds(chapterCount, LastLectureDefault))
  }

  /** Wherever the code as written binds the end bounds, the intended version binds the same ones. */
  lemma EndBoundsAgree(endChapter: Option<int>, endLecture: Option<int>, chapterCount: nat)
    ensures EndBoundsAsWritten(endChapter, endLecture, chapterCount).Bound? <==>
            EndBounds(endChapter, endLecture, chapterCount).Ok?
    ensures EndBounds(endChapter, endLecture, chapterCount).Ok? ==>
            EndBoundsAsWritten(endChapter, endLecture, chapterCount).bounds == EndBounds(endChapter, endLecture, chapterCount).value
  {
  }

  /** main.py:639-642: no filter unless `--chapter` is a non-empty string. */
  function ChapterFilterOf(chapterArg: Option<string>): (r: Option<set<int>>)
    ensures r.Some? <==> StrSet(chapterArg)
    ensures r.Some? ==> r.value == ChapterFilter.UnionOf(Split(chapterArg.value, ','))
  {
    if StrSet(chapterArg) then Some(ChapterFilter.UnionOf(Split(chapterArg.value, ','))) else None
  }
}
