/// The course curriculum: the flat, paginated listing returned by the
/// catalogue API and the chapter tree `organize_curriculum` builds from it
/// (main.py:188-216).
module Curriculum {

  /** The `_class` tag of a listing entry. */
  datatype EntryClass = ChapterEntry | LectureEntry | OtherEntry(name: string)

  /** One entry of the listing; lectures are kept verbatim as chapter children. */
  datatype Entry = Entry(
    cls: EntryClass,
    id: int,
    title: string,
    isPublished: bool,
    supplementaryAssets: seq<string>)

  /** A chapter of the organised curriculum. */
  datatype Chapter = Chapter(id: int, title: string, isPublished: bool, children: seq<Entry>)

  predicate NoChapterEntry(rs: seq<Entry>)
  {
    forall k :: 0 <= k < |rs| ==> rs[k].cls != ChapterEntry
  }

  /** The lecture entries of `rs` that come before its first chapter entry. */
  function TakeLectures(rs: seq<Entry>): (ls: seq<Entry>)
    ensures forall k :: 0 <= k < |ls| ==> ls[k].cls == LectureEntry
  {
    if rs == [] || rs[0].cls == ChapterEntry then []
    else if rs[0].cls == LectureEntry then [rs[0]] + TakeLectures(rs[1..])
    else TakeLectures(rs[1..])
  }

  /** `rs` from its first chapter entry on (empty if it has none). */
  function DropUntilChapter(rs: seq<Entry>): (r: seq<Entry>)
    ensures |r| <= |rs| && r == rs[|rs| - |r|..]
    ensures r == [] || r[0].cls == ChapterEntry
    ensures r == [] <==> NoChapterEntry(rs)
  {
    if rs == [] || rs[0].cls == ChapterEntry then rs else DropUntilChapter(rs[1..])
  }

  function NewChapter(e: Entry, children: seq<Entry>): Chapter
  {
    Chapter(e.id, e.title, e.isPublished, children)
  }

  /**
   * Reference definition of the grouping: one chapter per chapter entry, in
   * order, whose children are the lecture entries that follow it up to the
   * next chapter entry.
   */
  function Grouped(rs: seq<Entry>): (cs: seq<Chapter>)
    ensures cs == [] <==> NoChapterEntry(rs)
  {
    if rs == [] then []
    else if rs[0].cls == ChapterEntry then [NewChapter(rs[0], TakeLectures(rs[1..]))] + Grouped(rs[1..])
    else Grouped(rs[1..])
  }

  /** One iteration of the loop in organize_curriculum; the current chapter is the last one. */
  function OrganizeStep(acc: seq<Chapter>, e: Entry): seq<Chapter>
  {
    match e.cls
    case ChapterEntry => acc + [NewChapter(e, [])]
    case LectureEntry =>
      if acc == [] then acc
      else
        var cur := acc[|acc| - 1];
        acc[..|acc| - 1] + [cur.(children := cur.children + [e])]
    case OtherEntry(_) => acc
  }

  /** Number of entries of class `lecture` (`item.get('_class') == 'lecture'`). */
  function CountLectures(es: seq<Entry>): (n: nat)
    ensures n <= |es|
  {
    if es == [] then 0
    else CountLectures(es[..|es| - 1]) + (if es[|es| - 1].cls == LectureEntry then 1 else 0)
  }

  /** What count_total_lectures computes: lecture children summed over the chapters. */
  function LectureCount(cs: seq<Chapter>): nat
  {
    if cs == [] then 0 else LectureCount(cs[..|cs| - 1]) + CountLectures(cs[|cs| - 1].children)
  }

  lemma {:induction false} TakeLecturesSnoc(rs: seq<Entry>, e: Entry)
    ensures TakeLectures(rs + [e]) ==
      TakeLectures(rs) + (if NoChapterEntry(rs) && e.cls == LectureEntry then [e] else [])
  {
    if rs == [] {
      assert [e][1..] == [];
    } else {
      assert (rs + [e])[1..] == rs[1..] + [e];
      if rs[0].cls != ChapterEntry {
        TakeLecturesSnoc(rs[1..], e);
        assert NoChapterEntry(rs) == NoChapterEntry(rs[1..]) by {
          if NoChapterEntry(rs[1..]) {
            forall k | 0 <= k < |rs| ensures rs[k].cls != ChapterEntry {
              if k > 0 { assert rs[k] == rs[1..][k - 1]; }
            }
          }
        }
      }
    }
  }

  /** Grouping a longer listing is one more step of the loop. */
  lemma {:induction false} GroupedSnoc(rs: seq<Entry>, e: Entry)
    ensures Grouped(rs + [e]) == OrganizeStep(Grouped(rs), e)
  {
    if rs == [] {
      assert [e][1..] == [];
    } else {
      var rest := rs[1..];
      assert (rs + [e])[1..] == rest + [e];
      GroupedSnoc(rest, e);
      if rs[0].cls == ChapterEntry {
        TakeLecturesSnoc(rest, e);
        var g := Grouped(rest);
        var c := NewChapter(rs[0], TakeLectures(rest));
        assert Grouped(rs) == [c] + g;
        if e.cls == LectureEntry && g != [] {
          assert !NoChapterEntry(rest);
          assert TakeLectures(rest + [e]) == TakeLectures(rest);
          assert ([c] + g)[..|[c] + g| - 1] == [c] + g[..|g| - 1];
          assert ([c] + g)[|[c] + g| - 1] == g[|g| - 1];
        } else if e.cls == LectureEntry {
          assert NoChapterEntry(rest);
          assert Grouped(rest + [e]) == [];
          assert [c][..0] == [];
          assert Grouped(rs + [e]) == [NewChapter(rs[0], TakeLectures(rest) + [e])];
        } else if e.cls == ChapterEntry {
          assert TakeLectures(rest + [e]) == TakeLectures(rest);
          assert Grouped(rest + [e]) == g + [NewChapter(e, [])];
          assert Grouped(rs + [e]) == [c] + Grouped(rest + [e]);
          assert ([c] + g) + [NewChapter(e, [])] == [c] + (g + [NewChapter(e, [])]);
        } else {
          assert TakeLectures(rest + [e]) == TakeLectures(rest);
          assert Grouped(rest + [e]) == g;
          assert Grouped(rs + [e]) == [c] + Grouped(rest + [e]);
        }
      }
    }
  }

  lemma {:induction false} CountLecturesAppend(a: seq<Entry>, b: seq<Entry>)
    ensures CountLectures(a + b) == CountLectures(a) + CountLectures(b)
    decreases |b|
  {
    if b == [] {
      assert a + b == a;
    } else {
      CountLecturesAppend(a, b[..|b| - 1]);
      assert (a + b)[..|a + b| - 1] == a + b[..|b| - 1];
    }
  }

  lemma {:induction false} LectureCountAppend(a: seq<Chapter>, b: seq<Chapter>)
    ensures LectureCount(a + b) == LectureCount(a) + LectureCount(b)
    decreases |b|
  {
    if b == [] {
      assert a + b == a;
    } else {
      LectureCountAppend(a, b[..|b| - 1]);
      assert (a + b)[..|a + b| - 1] == a + b[..|b| - 1];
    }
  }

  lemma {:induction false} CountLecturesOfLectures(es: seq<Entry>)
    requires forall k :: 0 <= k < |es| ==> es[k].cls == LectureEntry
    ensures CountLectures(es) == |es|
  {
    if es != [] { CountLecturesOfLectures(es[..|es| - 1]); }
  }

  /** The lectures of `rs` split at its first chapter entry. */
  lemma {:induction false} CountLecturesSplit(rs: seq<Entry>)
    ensures CountLectures(rs) == |TakeLectures(rs)| + CountLectures(DropUntilChapter(rs))
  {
    if rs != [] && rs[0].cls != ChapterEntry {
      CountLecturesSplit(rs[1..]);
      CountLecturesCons(rs);
    }
  }

  lemma CountLecturesCons(rs: seq<Entry>)
    requires rs != []
    ensures CountLectures(rs) == (if rs[0].cls == LectureEntry then 1 else 0) + CountLectures(rs[1..])
  {
    CountLecturesAppend([rs[0]], rs[1..]);
    assert [rs[0]] + rs[1..] == rs;
    assert [rs[0]][..0] == [];
  }

  lemma LectureCountCons(c: Chapter, cs: seq<Chapter>)
    ensures LectureCount([c] + cs) == CountLectures(c.children) + LectureCount(cs)
  {
    LectureCountAppend([c], cs);
    assert [c][..0] == [];
  }

  /**
   * The organised curriculum counts exactly the lecture entries that follow
   * the first chapter entry: lectures without a parent chapter are dropped.
   */
  lemma {:induction false} GroupedLectureCount(rs: seq<Entry>)
    ensures LectureCount(Grouped(rs)) == CountLectures(DropUntilChapter(rs))
  {
    if rs == [] {
    } else if rs[0].cls == ChapterEntry {
      var rest := rs[1..];
      var c := NewChapter(rs[0], TakeLectures(rest));
      calc {
        LectureCount(Grouped(rs));
        { LectureCountCons(c, Grouped(rest)); }
        CountLectures(TakeLectures(rest)) + LectureCount(Grouped(rest));
        { CountLecturesOfLectures(TakeLectures(rest)); GroupedLectureCount(rest); }
        |TakeLectures(rest)| + CountLectures(DropUntilChapter(rest));
        { CountLecturesSplit(rest); }
        CountLectures(rest);
        { CountLecturesCons(rs); }
        CountLectures(rs);
      }
    } else {
      GroupedLectureCount(rs[1..]);
    }
  }

  function ChapterEntries(rs: seq<Entry>): (cs: seq<Entry>)
    ensures forall k :: 0 <= k < |cs| ==> cs[k].cls == ChapterEntry
  {
    if rs == [] then []
    else if rs[0].cls == ChapterEntry then [rs[0]] + ChapterEntries(rs[1..])
    else ChapterEntries(rs[1..])
  }

  /** One chapter per chapter entry, in input order, carrying that entry's id, title and flag. */
  lemma {:induction false} GroupedChapters(rs: seq<Entry>)
    ensures |Grouped(rs)| == |ChapterEntries(rs)|
    ensures forall k :: 0 <= k < |Grouped(rs)| ==>
      var c, e := Grouped(rs)[k], ChapterEntries(rs)[k];
      c.id == e.id && c.title == e.title && c.isPublished == e.isPublished
    ensures forall k :: 0 <= k < |Grouped(rs)| ==>
      forall j :: 0 <= j < |Grouped(rs)[k].children| ==> Grouped(rs)[k].children[j].cls == LectureEntry
  {
    if rs != [] {
      GroupedChapters(rs[1..]);
    }
  }

  /** A chapter opened with no children adds nothing to the count. */
  lemma NewChapterCount(cs: seq<Chapter>, c: Chapter)
    requires c.children == []
    ensures LectureCount(cs + [c]) == LectureCount(cs)
  {
  }

  /** A lecture appended to the last chapter adds one to the count. */
  lemma AppendLectureCount(cs: seq<Chapter>, item: Entry)
    requires cs != [] && item.cls == LectureEntry
    ensures var n := |cs|; var cur := cs[n - 1];
      LectureCount(cs[..n - 1] + [cur.(children := cur.children + [item])]) == LectureCount(cs) + 1
  {
  }

  /** organize_curriculum (main.py:188-216): the loop appends each lecture to the current chapter. */
  method OrganizeCurriculum(results: seq<Entry>) returns (curriculum: seq<Chapter>, totalLectures: nat)
    ensures curriculum == Grouped(results)
    ensures totalLectures == LectureCount(curriculum)
  {
    curriculum := [];
    var hasCurrent := false;
    totalLectures := 0;
    for i := 0 to |results|
      invariant curriculum == Grouped(results[..i])
      invariant hasCurrent <==> curriculum != []
      invariant totalLectures == LectureCount(curriculum)
    {
      var item := results[i];
      assert results[..i + 1] == results[..i] + [item];
      GroupedSnoc(results[..i], item);
      if item.cls == ChapterEntry {
        var chapter := NewChapter(item, []);
        NewChapterCount(curriculum, chapter);
        curriculum := curriculum + [chapter];
        hasCurrent := true;
      } else if item.cls == LectureEntry {
        if hasCurrent {
          var n := |curriculum|;
          var cur := curriculum[n - 1];
          AppendLectureCount(curriculum, item);
          curriculum := curriculum[..n - 1] + [cur.(children := cur.children + [item])];
          totalLectures := totalLectures + 1;
        }
      }
    }
    assert results[..|results|] == results;
  }
}
