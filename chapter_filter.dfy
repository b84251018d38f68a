/// The `--chapter` argument (parse_chapter_filter, main.py:75-94): a
/// comma-separated list of chapter numbers and inclusive ranges `a-b`.
module ChapterFilter {
  import opened Text

  /** The chapters `a..b` inclusive (`range(a, b + 1)`), empty when `a > b`. */
  function Range(a: int, b: int): (r: set<int>)
    ensures forall n :: n in r <==> a <= n <= b
    decreases b - a
  {
    if a > b then {} else Range(a, b - 1) + {b}
  }

  /**
   * What one token adds: with a dash, exactly two halves that `int()` accepts
   * give their range and anything else nothing (ValueError is logged);
   * without a dash, the number `int()` reads, or nothing.
   */
  function TokenChapters(part: string): set<int>
  {
    if '-' in part then
      var halves := Split(part, '-');
      if |halves| != 2 then {}
      else
        match (PyInt(halves[0]), PyInt(halves[1]))
        case (Some(a), Some(b)) => Range(a, b)
        case _ => {}
    else
      match PyInt(part)
      case Some(n) => {n}
      case None => {}
  }

  /** The union of what `f` gives for each part, in order. */
  function Collect(parts: seq<string>, f: string -> set<int>): set<int>
  {
    if parts == [] then {} else Collect(parts[..|parts| - 1], f) + f(parts[|parts| - 1])
  }

  lemma {:induction false} CollectMembers(parts: seq<string>, f: string -> set<int>, n: int)
    ensures n in Collect(parts, f) <==> exists k :: 0 <= k < |parts| && n in f(parts[k])
  {
    if parts != [] {
      var init := parts[..|parts| - 1];
      CollectMembers(init, f, n);
      if n in Collect(init, f) {
        var k :| 0 <= k < |init| && n in f(init[k]);
        assert parts[k] == init[k];
      }
    }
  }

  /** The chapters the whole filter string selects. */
  function UnionOf(parts: seq<string>): set<int>
  {
    Collect(parts, TokenChapters)
  }

  /** parse_chapter_filter: the loop over `chapter_str.split(',')` updating a set. */
  method ParseChapterFilter(chapterStr: string) returns (chapters: set<int>)
    ensures chapters == UnionOf(Split(chapterStr, ','))
    ensures forall n :: n in chapters <==>
      exists k :: 0 <= k < |Split(chapterStr, ',')| && n in TokenChapters(Split(chapterStr, ',')[k])
  {
    var parts := Split(chapterStr, ',');
    chapters := {};
    for i := 0 to |parts|
      invariant chapters == UnionOf(parts[..i])
    {
      assert parts[..i + 1][..i] == parts[..i];
      var part := parts[i];
      if '-' in part {
        var halves := Split(part, '-');
        if |halves| == 2 {
          var start := PyInt(halves[0]);
          var end := PyInt(halves[1]);
          if start.Some? && end.Some? {
            chapters := chapters + Range(start.value, end.value);
          }
        }
      } else {
        var n := PyInt(part);
        if n.Some? {
          chapters := chapters + {n.value};
        }
      }
    }
    assert parts[..|parts|] == parts;
    forall n ensures n in chapters <==> exists k :: 0 <= k < |parts| && n in TokenChapters(parts[k]) {
      CollectMembers(parts, TokenChapters, n);
    }
  }

  /** A plain number adds itself. */
  lemma NumberToken(n: nat)
    ensures TokenChapters(NatToString(n)) == {n}
  {
    var s := NatToString(n);
    assert '-' !in s by { assert !IsDigit('-'); }
    PyIntOfNatToString(n);
  }

  /** `a-b` adds `a..b` inclusive, which is empty when `a > b`. */
  lemma RangeToken(a: nat, b: nat)
    ensures TokenChapters(NatToString(a) + "-" + NatToString(b)) == Range(a, b)
  {
    var sa, sb := NatToString(a), NatToString(b);
    var part := sa + "-" + sb;
    assert '-' !in sa && '-' !in sb by { assert !IsDigit('-'); }
    assert Join([sa, sb], '-') == part;
    assert '-' in part by { assert part[|sa|] == '-'; }
    forall k | 0 <= k < |[sa, sb]| ensures '-' !in [sa, sb][k] { }
    SplitJoin([sa, sb], '-');
    PyIntOfNatToString(a);
    PyIntOfNatToString(b);
  }

  /** A token with a leading dash adds nothing (its first half is empty). */
  lemma LeadingDashToken(rest: string)
    ensures TokenChapters("-" + rest) == {}
  {
    var part := "-" + rest;
    assert part[1..] == rest;
    assert '-' in part;
    assert Split(part, '-') == [""] + Split(rest, '-');
  }

  /** A token with two or more dashes adds nothing. */
  lemma TwoDashToken(part: string)
    requires Occurrences(part, '-') >= 2
    ensures TokenChapters(part) == {}
  {
    SplitLength(part, '-');
    if '-' !in part {
      NoOccurrences(part, '-');
    }
  }

  lemma NoOccurrences(s: string, c: char)
    requires c !in s
    ensures Occurrences(s, c) == 0
  {
    if s != [] { assert s[0] != c; assert c !in s[1..] by { forall i | 0 <= i < |s| - 1 ensures s[1..][i] != c { assert s[1..][i] == s[i + 1]; } } NoOccurrences(s[1..], c); }
  }

  lemma CollectSkipsEmpty(before: seq<string>, bad: string, after: seq<string>, f: string -> set<int>)
    requires f(bad) == {}
    ensures Collect(before + [bad] + after, f) == Collect(before + after, f)
  {
    var all, kept := before + [bad] + after, before + after;
    forall n ensures n in Collect(all, f) <==> n in Collect(kept, f) {
      CollectMembers(all, f, n);
      CollectMembers(kept, f, n);
      if exists k :: 0 <= k < |all| && n in f(all[k]) {
        var k :| 0 <= k < |all| && n in f(all[k]);
        if k < |before| { assert kept[k] == all[k]; }
        else { assert k > |before|; assert kept[k - 1] == all[k]; }
      }
      if exists k :: 0 <= k < |kept| && n in f(kept[k]) {
        var k :| 0 <= k < |kept| && n in f(kept[k]);
        if k < |before| { assert kept[k] == all[k]; }
        else { assert kept[k] == all[k + 1]; }
      }
    }
  }

  /** A malformed token is skipped without stopping the parse: the other tokens still count. */
  lemma MalformedTokenSkipped(before: seq<string>, bad: string, after: seq<string>)
    requires TokenChapters(bad) == {}
    ensures UnionOf(before + [bad] + after) == UnionOf(before + after)
  {
    CollectSkipsEmpty(before, bad, after, TokenChapters);
  }

  lemma ExampleSplit()
    ensures Split("1,3-5,7", ',') == ["1", "3-5", "7"]
  {
    var parts := ["1", "3-5", "7"];
    assert Join(parts, ',') == "1,3-5,7";
    SplitJoin(parts, ',');
  }

  lemma ExampleOne()
    ensures TokenChapters("1") == {1}
  {
    NumberToken(1);
    assert NatToString(1) == "1";
  }

  lemma ExampleSeven()
    ensures TokenChapters("7") == {7}
  {
    NumberToken(7);
    assert NatToString(7) == "7";
  }

  lemma ExampleRange()
    ensures TokenChapters("3-5") == {3, 4, 5}
  {
    RangeToken(3, 5);
    assert NatToString(3) + "-" + NatToString(5) == "3-5";
  }

  /** The filter `1,3-5,7` selects chapters 1, 3, 4, 5 and 7. */
  lemma ExampleFilter()
    ensures UnionOf(Split("1,3-5,7", ',')) == {1, 3, 4, 5, 7}
  {
    var parts := ["1", "3-5", "7"];
    ExampleSplit();
    ExampleOne();
    ExampleSeven();
    ExampleRange();
    assert parts[..2][..1] == ["1"] && parts[..2] == ["1", "3-5"];
    assert Collect(["1"], TokenChapters) == {1} by {
      assert ["1"][..0] == [];
    }
    assert Collect(parts[..2], TokenChapters) == {1, 3, 4, 5};
  }
}
