/// `clean_url` (get_course.py:63-79): drop the fragment, reduce a lecture URL
/// to its course URL, and make sure the result ends in a slash.
module CourseUrl {
  import opened Text

  /** The literal part of the pattern `(https://www\.udemy\.com/course/[^/]+)/`. */
  const CoursePrefix: string := "https://www.udemy.com/course/"

  /** The first index at or after `from` holding a slash, or `|s|`. */
  function SlashFrom(s: string, from: nat): (k: nat)
    requires from <= |s|
    ensures from <= k <= |s|
    ensures k < |s| ==> s[k] == '/'
    ensures forall j :: from <= j < k ==> s[j] != '/'
    decreases |s| - from
  {
    if from == |s| || s[from] == '/' then from else SlashFrom(s, from + 1)
  }

  /**
   * The pattern matches at `i`: the prefix, then one or more non-slash
   * characters, then a slash (the greedy class can only end at the first slash).
   */
  predicate MatchAt(s: string, i: nat)
  {
    && i + |CoursePrefix| <= |s|
    && s[i..i + |CoursePrefix|] == CoursePrefix
    && var k := SlashFrom(s, i + |CoursePrefix|);
       k < |s| && k > i + |CoursePrefix|
  }

  /** `re.search`: the leftmost match at or after `from`. */
  function Search(s: string, from: nat): (r: Option<nat>)
    requires from <= |s|
    ensures r.Some? ==> from <= r.value < |s| && MatchAt(s, r.value)
    ensures r.Some? ==> forall j :: from <= j < r.value ==> !MatchAt(s, j)
    ensures r.None? ==> forall j :: from <= j <= |s| ==> !MatchAt(s, j)
    decreases |s| - from
  {
    if from == |s| then None
    else if MatchAt(s, from) then Some(from)
    else Search(s, from + 1)
  }

  /** `group(1)` of the match at `i`: the course prefix and its slug, without the closing slash. */
  function Group(s: string, i: nat): (g: string)
    requires MatchAt(s, i)
    ensures StartsWith(g, CoursePrefix) && |g| > |CoursePrefix| && '/' !in g[|CoursePrefix|..]
  {
    var k := SlashFrom(s, i + |CoursePrefix|);
    var g := s[i..k];
    assert g[..|CoursePrefix|] == s[i..i + |CoursePrefix|];
    assert forall j :: 0 <= j < |g| - |CoursePrefix| ==> g[|CoursePrefix|..][j] == s[i + |CoursePrefix| + j];
    g
  }

  /** The text before the first `#` (`url.split('#')[0]`). */
  function BeforeHash(url: string): string
  {
    Split(url, '#')[0]
  }

  function CleanUrl(url: string): string
  {
    var clean := BeforeHash(url);
    var m := Search(clean, 0);
    if m.Some? && Contains(clean, "/learn/") then Group(clean, m.value) + "/"
    else if !EndsWith(clean, "/") then clean + "/"
    else clean
  }

  /** The text before the first `#` is a prefix of the URL up to that `#`, and has none itself. */
  lemma BeforeHashIsPrefix(url: string)
    ensures '#' !in BeforeHash(url)
    ensures StartsWith(url, BeforeHash(url))
    ensures |BeforeHash(url)| < |url| ==> url[|BeforeHash(url)|] == '#'
  {
    JoinSplit(url, '#');
    var parts := Split(url, '#');
    if |parts| > 1 {
      assert Join(parts, '#') == parts[0] + ['#'] + Join(parts[1..], '#');
      assert url[..|parts[0]|] == parts[0];
    }
  }

  /** The result never contains `#`. */
  lemma NoFragment(url: string)
    ensures '#' !in CleanUrl(url)
  {
    var clean := BeforeHash(url);
    BeforeHashIsPrefix(url);
    var m := Search(clean, 0);
    if m.Some? && Contains(clean, "/learn/") {
      var k := SlashFrom(clean, m.value + |CoursePrefix|);
      assert Group(clean, m.value) == clean[m.value..k];
      assert forall x :: x in clean[m.value..k] ==> x in clean;
    }
  }

  /** The result always ends with `/`. */
  lemma EndsInSlash(url: string)
    ensures EndsWith(CleanUrl(url), "/")
  {
  }

  /** A lecture URL (containing `/learn/` and a course prefix with a slug) becomes the leftmost course URL. */
  lemma LectureUrl(url: string)
    requires Contains(BeforeHash(url), "/learn/")
    requires exists i :: 0 <= i <= |BeforeHash(url)| && MatchAt(BeforeHash(url), i)
    ensures var clean := BeforeHash(url);
      exists i :: 0 <= i < |clean| && MatchAt(clean, i) && (forall j :: 0 <= j < i ==> !MatchAt(clean, j))
                  && CleanUrl(url) == Group(clean, i) + "/"
  {
    var clean := BeforeHash(url);
    var m := Search(clean, 0);
    assert m.Some?;
  }

  /** Any other URL keeps its text before `#`, with a slash appended when it lacks one. */
  lemma OtherUrl(url: string)
    requires !Contains(BeforeHash(url), "/learn/") || forall i :: 0 <= i <= |BeforeHash(url)| ==> !MatchAt(BeforeHash(url), i)
    ensures CleanUrl(url) == BeforeHash(url) + (if EndsWith(BeforeHash(url), "/") then "" else "/")
  {
  }

  /** Cleaning a course URL that already ends in a slash changes nothing. */
  lemma CourseUrlFixed(slug: string)
    requires slug != [] && '/' !in slug && '#' !in slug
    ensures CleanUrl(CoursePrefix + slug + "/") == CoursePrefix + slug + "/"
  {
    var u := CoursePrefix + slug + "/";
    NoHashBeforeHash(u);
    var n := |CoursePrefix|;
    assert u[..n] == CoursePrefix;
    assert SlashFrom(u, n) == n + |slug| by {
      forall j | n <= j < n + |slug| ensures u[j] != '/' {
        assert u[j] == slug[j - n];
        assert slug[j - n] in slug;
      }
      SlashFromAt(u, n, n + |slug|);
    }
    assert MatchAt(u, 0);
    assert Search(u, 0) == Some(0);
    assert Group(u, 0) == u[..n + |slug|] == CoursePrefix + slug;
  }

  lemma {:induction false} SlashFromAt(s: string, from: nat, k: nat)
    requires from <= k < |s| && s[k] == '/'
    requires forall j :: from <= j < k ==> s[j] != '/'
    ensures SlashFrom(s, from) == k
    decreases k - from
  {
    if from < k {
      SlashFromAt(s, from + 1, k);
    }
  }

  /** Where the slashes of `https://www.udemy.com/course/x/learn` are. */
  lemma ExampleSlashes(u: string, k: nat)
    requires u == CoursePrefix + "x/learn"
    requires k < |u| && u[k] == '/'
    ensures k == 6 || k == 7 || k == 21 || k == 28 || k == 30
  {
    assert u == "https://www.udemy.com/course/x/learn";
  }

  lemma ExampleHasNoLearnSegment(u: string)
    requires u == CoursePrefix + "x/learn"
    ensures !Contains(u, "/learn/")
  {
    forall i | 0 <= i <= |u| - 7 ensures !StartsWith(u[i..], "/learn/") {
      if StartsWith(u[i..], "/learn/") {
        assert u[i..][..7][0] == u[i] && u[i..][..7][6] == u[i + 6];
        ExampleSlashes(u, i);
        ExampleSlashes(u, i + 6);
        assert false;
      }
    }
  }

  /**
   * Cleaning is not idempotent: a lecture URL without its trailing slash only
   * gains the slash, and cleaning again then reduces it to the course URL.
   */
  lemma NotIdempotent()
    ensures CleanUrl(CoursePrefix + "x/learn") == CoursePrefix + "x/learn/"
    ensures CleanUrl(CoursePrefix + "x/learn/") == CoursePrefix + "x/"
  {
    var u := CoursePrefix + "x/learn";
    NoHashBeforeHash(u);
    ExampleHasNoLearnSegment(u);
    assert u[|u| - 1] == 'n';
    assert !EndsWith(u, "/") by { assert u[|u| - 1..] == [u[|u| - 1]]; }
    assert u + "/" == CoursePrefix + "x/learn/";
    LectureExample();
  }

  lemma LectureExample()
    ensures CleanUrl(CoursePrefix + "x/learn/") == CoursePrefix + "x/"
  {
    var v := CoursePrefix + "x/learn/";
    NoHashBeforeHash(v);
    var n := |CoursePrefix|;
    assert v[..n] == CoursePrefix;
    SlashFromAt(v, n, n + 1);
    assert MatchAt(v, 0);
    assert Search(v, 0) == Some(0);
    assert v[n + 1..][..7] == "/learn/";
    assert Contains(v, "/learn/");
    assert Group(v, 0) == v[..n + 1];
  }

  /** A URL without `#` is its own text before `#`. */
  lemma NoHashBeforeHash(url: string)
    requires '#' !in url
    ensures BeforeHash(url) == url
  {
    BeforeHashIsPrefix(url);
  }
}
