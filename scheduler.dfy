/// The bounded worker pool of `download_course` (main.py:315-399), as a
/// sequential claim/complete state machine over the lectures the task
/// generator yields. Threads are not modelled: which in-flight lecture
/// finishes next is a parameter.
module Scheduler {
  import opened Text
  import opened Paths
  import opened Curriculum

  /** One item of the task generator: 1-based chapter and lecture numbers and the items themselves. */
  datatype Task = Task(mindex: nat, lindex: nat, chapter: Chapter, lecture: Entry)

  /** The tasks of chapter `mindex` among its first `upto` children, in order. */
  function LectureTasks(mindex: nat, ch: Chapter, upto: nat, validLecture: (nat, nat) -> bool): seq<Task>
    requires upto <= |ch.children|
  {
    if upto == 0 then []
    else LectureTasks(mindex, ch, upto - 1, validLecture)
         + (if validLecture(mindex, upto) then [Task(mindex, upto, ch, ch.children[upto - 1])] else [])
  }

  /**
   * The task generator over the first `upto` chapters: chapters in order from 1,
   * filtered by `validChapter`, then their lectures in order from 1, filtered by
   * `validLecture` (the two predicates close over the run's bounds and filter).
   */
  function EligibleUpTo(curriculum: seq<Chapter>, upto: nat, validChapter: nat -> bool,
                        validLecture: (nat, nat) -> bool): seq<Task>
    requires upto <= |curriculum|
  {
    if upto == 0 then []
    else EligibleUpTo(curriculum, upto - 1, validChapter, validLecture)
         + (if validChapter(upto)
            then LectureTasks(upto, curriculum[upto - 1], |curriculum[upto - 1].children|, validLecture)
            else [])
  }

  function Eligible(curriculum: seq<Chapter>, validChapter: nat -> bool, validLecture: (nat, nat) -> bool): seq<Task>
  {
    EligibleUpTo(curriculum, |curriculum|, validChapter, validLecture)
  }

  /** A task is what it says: a valid lecture of a valid chapter, at its own position. */
  predicate Genuine(curriculum: seq<Chapter>, validChapter: nat -> bool, validLecture: (nat, nat) -> bool, t: Task)
  {
    && 1 <= t.mindex <= |curriculum| && validChapter(t.mindex)
    && t.chapter == curriculum[t.mindex - 1]
    && 1 <= t.lindex <= |t.chapter.children| && validLecture(t.mindex, t.lindex)
    && t.lecture == t.chapter.children[t.lindex - 1]
  }

  /** `a` comes strictly before `b`: chapter ascending, then lecture ascending. */
  predicate Before(a: Task, b: Task)
  {
    a.mindex < b.mindex || (a.mindex == b.mindex && a.lindex < b.lindex)
  }

  predicate Ordered(ts: seq<Task>)
  {
    forall i, j :: 0 <= i < j < |ts| ==> Before(ts[i], ts[j])
  }

  /** `t` is a valid lecture of chapter `mindex` among its first `upto`, at its own position. */
  predicate LectureOf(mindex: nat, ch: Chapter, upto: nat, validLecture: (nat, nat) -> bool, t: Task)
    requires upto <= |ch.children|
  {
    && t.mindex == mindex && t.chapter == ch
    && 1 <= t.lindex <= upto && validLecture(mindex, t.lindex)
    && t.lecture == ch.children[t.lindex - 1]
  }

  /** Every task of a chapter is a valid lecture of it, at its own position. */
  lemma {:induction false} LectureTasksSound(mindex: nat, ch: Chapter, upto: nat, validLecture: (nat, nat) -> bool)
    requires upto <= |ch.children|
    ensures forall t :: t in LectureTasks(mindex, ch, upto, validLecture) ==> LectureOf(mindex, ch, upto, validLecture, t)
  {
    if upto > 0 {
      LectureTasksSound(mindex, ch, upto - 1, validLecture);
      var prev := LectureTasks(mindex, ch, upto - 1, validLecture);
      var ts := LectureTasks(mindex, ch, upto, validLecture);
      forall t | t in ts ensures LectureOf(mindex, ch, upto, validLecture, t) {
        if t in prev {
          assert LectureOf(mindex, ch, upto - 1, validLecture, t);
        } else {
          assert t == Task(mindex, upto, ch, ch.children[upto - 1]);
        }
      }
    }
  }

  lemma {:induction false} LectureTasksOrdered(mindex: nat, ch: Chapter, upto: nat, validLecture: (nat, nat) -> bool)
    requires upto <= |ch.children|
    ensures Ordered(LectureTasks(mindex, ch, upto, validLecture))
  {
    if upto > 0 {
      LectureTasksOrdered(mindex, ch, upto - 1, validLecture);
      LectureTasksSound(mindex, ch, upto - 1, validLecture);
      var prev := LectureTasks(mindex, ch, upto - 1, validLecture);
      var ts := LectureTasks(mindex, ch, upto, validLecture);
      forall i, j | 0 <= i < j < |ts| ensures Before(ts[i], ts[j]) {
        assert ts[i] == prev[i];
        assert prev[i] in prev;
        if j < |prev| {
          assert ts[j] == prev[j];
        } else {
          assert ts[j] == Task(mindex, upto, ch, ch.children[upto - 1]);
        }
      }
    }
  }

  /** Every valid lecture of the chapter among the first `upto` has a task. */
  lemma {:induction false} LectureTasksComplete(mindex: nat, ch: Chapter, upto: nat, validLecture: (nat, nat) -> bool, l: nat)
    requires upto <= |ch.children|
    requires 1 <= l <= upto && validLecture(mindex, l)
    ensures Task(mindex, l, ch, ch.children[l - 1]) in LectureTasks(mindex, ch, upto, validLecture)
  {
    var prev := LectureTasks(mindex, ch, upto - 1, validLecture);
    if l < upto {
      LectureTasksComplete(mindex, ch, upto - 1, validLecture, l);
    }
  }

  lemma {:induction false} EligibleUpToSound(curriculum: seq<Chapter>, upto: nat, validChapter: nat -> bool,
                                             validLecture: (nat, nat) -> bool)
    requires upto <= |curriculum|
    ensures forall t :: t in EligibleUpTo(curriculum, upto, validChapter, validLecture) ==>
      t.mindex <= upto && Genuine(curriculum, validChapter, validLecture, t)
  {
    if upto > 0 {
      EligibleUpToSound(curriculum, upto - 1, validChapter, validLecture);
      var prev := EligibleUpTo(curriculum, upto - 1, validChapter, validLecture);
      var ch := curriculum[upto - 1];
      var lt := LectureTasks(upto, ch, |ch.children|, validLecture);
      var ts := EligibleUpTo(curriculum, upto, validChapter, validLecture);
      LectureTasksSound(upto, ch, |ch.children|, validLecture);
      forall t | t in ts ensures t.mindex <= upto && Genuine(curriculum, validChapter, validLecture, t) {
        if t !in prev {
          assert validChapter(upto) && t in lt;
          assert LectureOf(upto, ch, |ch.children|, validLecture, t);
        }
      }
    }
  }

  lemma {:induction false} EligibleUpToOrdered(curriculum: seq<Chapter>, upto: nat, validChapter: nat -> bool,
                                               validLecture: (nat, nat) -> bool)
    requires upto <= |curriculum|
    ensures Ordered(EligibleUpTo(curriculum, upto, validChapter, validLecture))
  {
    if upto > 0 {
      EligibleUpToOrdered(curriculum, upto - 1, validChapter, validLecture);
      EligibleUpToSound(curriculum, upto - 1, validChapter, validLecture);
      var prev := EligibleUpTo(curriculum, upto - 1, validChapter, validLecture);
      var ch := curriculum[upto - 1];
      var more := if validChapter(upto) then LectureTasks(upto, ch, |ch.children|, validLecture) else [];
      var ts := EligibleUpTo(curriculum, upto, validChapter, validLecture);
      assert ts == prev + more;
      LectureTasksSound(upto, ch, |ch.children|, validLecture);
      LectureTasksOrdered(upto, ch, |ch.children|, validLecture);
      forall i, j | 0 <= i < j < |ts| ensures Before(ts[i], ts[j]) {
        if j < |prev| {
          assert ts[i] == prev[i] && ts[j] == prev[j];
        } else if i < |prev| {
          var lt := LectureTasks(upto, ch, |ch.children|, validLecture);
          assert validChapter(upto) && more == lt;
          var k := j - |prev|;
          assert ts[i] == prev[i] && ts[j] == lt[k];
          assert prev[i] in prev && lt[k] in lt;
          assert LectureOf(upto, ch, |ch.children|, validLecture, lt[k]);
        } else {
          assert ts[i] == more[i - |prev|] && ts[j] == more[j - |prev|];
        }
      }
    }
  }

  lemma {:induction false} EligibleUpToComplete(curriculum: seq<Chapter>, upto: nat, validChapter: nat -> bool,
                                                validLecture: (nat, nat) -> bool, t: Task)
    requires upto <= |curriculum|
    requires Genuine(curriculum, validChapter, validLecture, t) && t.mindex <= upto
    ensures t in EligibleUpTo(curriculum, upto, validChapter, validLecture)
  {
    var prev := EligibleUpTo(curriculum, upto - 1, validChapter, validLecture);
    var ch := curriculum[upto - 1];
    if t.mindex < upto {
      EligibleUpToComplete(curriculum, upto - 1, validChapter, validLecture, t);
    } else {
      LectureTasksComplete(upto, ch, |ch.children|, validLecture, t.lindex);
    }
  }

  /**
   * The generator yields exactly the genuine tasks, chapter-ascending and then
   * lecture-ascending (so each at most once).
   */
  lemma EligibleSpec(curriculum: seq<Chapter>, validChapter: nat -> bool, validLecture: (nat, nat) -> bool)
    ensures var ts := Eligible(curriculum, validChapter, validLecture);
      && Ordered(ts)
      && forall t :: t in ts <==> Genuine(curriculum, validChapter, validLecture, t)
  {
    EligibleUpToOrdered(curriculum, |curriculum|, validChapter, validLecture);
    EligibleUpToSound(curriculum, |curriculum|, validChapter, validLecture);
    var ts := Eligible(curriculum, validChapter, validLecture);
    forall t ensures t in ts <==> Genuine(curriculum, validChapter, validLecture, t) {
      if Genuine(curriculum, validChapter, validLecture, t) {
        EligibleUpToComplete(curriculum, |curriculum|, validChapter, validLecture, t);
      }
    }
  }

  /** The zero-padded number the task carries (`f"{n:02}" if n < 10 else f"{n}"`). */
  function Label(n: nat): (s: string)
    ensures AllDigits(s) && |s| >= 2
    ensures DigitsValue(s) == n
  {
    Pad2RoundTrip(n);
    Pad2(n)
  }

  /**
   * The chapter folder as written: a lecture claimed up front (main.py:351)
   * strips emojis from the sanitised title, one claimed later (main.py:382) does not.
   */
  function ClaimFolderAsWritten(courseDir: Path, t: Task, upFront: bool,
                                sanitize: string -> string, stripEmojis: string -> string): Path
  {
    if upFront then JoinPath(courseDir, Label(t.mindex) + ". " + stripEmojis(sanitize(t.chapter.title)))
    else JoinPath(courseDir, Label(t.mindex) + ". " + sanitize(t.chapter.title))
  }

  lemma JoinPathInjective(dir: Path, a: Path, b: Path)
    requires !StartsWith(a, "/") && !StartsWith(b, "/")
    requires JoinPath(dir, a) == JoinPath(dir, b)
    ensures a == b
  {
    if dir == [] || dir[|dir| - 1] == '/' {
      assert dir + a == dir + b;
      assert a == (dir + a)[|dir|..] && b == (dir + b)[|dir|..];
    } else {
      assert dir + "/" + a == dir + "/" + b;
      assert a == (dir + "/" + a)[|dir| + 1..] && b == (dir + "/" + b)[|dir| + 1..];
    }
  }

  lemma PrefixDistinct(p: string, x: string, y: string)
    requires x != y
    ensures p + x != p + y
  {
    assert (p + x)[|p|..] == x && (p + y)[|p|..] == y;
  }

  /** Two lectures of one chapter land in different folders whenever stripping emojis changes the title. */
  lemma ClaimTimeSplitsChapter(courseDir: Path, t: Task, u: Task, sanitize: string -> string, stripEmojis: string -> string)
    requires t.mindex == u.mindex && t.chapter == u.chapter
    requires stripEmojis(sanitize(t.chapter.title)) != sanitize(t.chapter.title)
    ensures ClaimFolderAsWritten(courseDir, t, true, sanitize, stripEmojis)
            != ClaimFolderAsWritten(courseDir, u, false, sanitize, stripEmojis)
  {
    var l := Label(t.mindex);
    var a := l + ". " + stripEmojis(sanitize(t.chapter.title));
    var b := l + ". " + sanitize(t.chapter.title);
    assert a[0] == l[0] && b[0] == l[0] && IsDigit(l[0]);
    assert (l + ". ")[..] + stripEmojis(sanitize(t.chapter.title)) == a;
    PrefixDistinct(l + ". ", stripEmojis(sanitize(t.chapter.title)), sanitize(t.chapter.title));
    if JoinPath(courseDir, a) == JoinPath(courseDir, b) {
      JoinPathInjective(courseDir, a, b);
    }
  }

  /** The chapter folder as intended: the same for every lecture of the chapter, whenever it is claimed. */
  function ClaimFolder(courseDir: Path, t: Task, sanitize: string -> string, stripEmojis: string -> string): (p: Path)
    ensures DirnameOfChapterFolder(courseDir, t, sanitize, stripEmojis, p)
  {
    var name := Label(t.mindex) + ". " + stripEmojis(sanitize(t.chapter.title));
    assert name[0] == Label(t.mindex)[0] && IsDigit(name[0]);
    JoinPath(courseDir, name)
  }

  /** The folder sits directly under the course directory, named after the chapter's label. */
  predicate DirnameOfChapterFolder(courseDir: Path, t: Task, sanitize: string -> string, stripEmojis: string -> string, p: Path)
  {
    EndsWith(p, Label(t.mindex) + ". " + stripEmojis(sanitize(t.chapter.title))) && StartsWith(p, courseDir)
  }

  /** Lectures of one chapter share its folder. */
  lemma ChapterSharesFolder(courseDir: Path, t: Task, u: Task, sanitize: string -> string, stripEmojis: string -> string)
    requires t.mindex == u.mindex && t.chapter == u.chapter
    ensures ClaimFolder(courseDir, t, sanitize, stripEmojis) == ClaimFolder(courseDir, u, sanitize, stripEmojis)
  {
  }

  /** `s` without its element at `i`. */
  function RemoveAt<T>(s: seq<T>, i: nat): (r: seq<T>)
    requires i < |s|
    ensures |r| == |s| - 1
    ensures multiset(r) + multiset{s[i]} == multiset(s)
  {
    assert s == s[..i] + [s[i]] + s[i + 1..];
    s[..i] + s[i + 1..]
  }

  /**
   * The pool: the generator's position `next` in `eligible`, the futures in
   * flight, and the lectures whose futures have finished, in finishing order.
   */
  class Pool {
    const limit: nat
    const eligible: seq<Task>
    var next: nat
    var inFlight: seq<Task>
    var finished: seq<Task>

    /**
     * Everything claimed is in flight or finished, exactly once, and never
     * more than `limit` are in flight.
     */
    ghost predicate Settled()
      reads this
    {
      && 1 <= limit
      && next <= |eligible|
      && multiset(finished) + multiset(inFlight) == multiset(eligible[..next])
      && |inFlight| <= limit
    }

    /** Between turns the pool is also full while the generator still has lectures. */
    ghost predicate Valid()
      reads this
    {
      Settled() && (next < |eligible| ==> |inFlight| == limit)
    }

    /** The up-front loop (main.py:348-368): `limit` calls to `next`, stopping at StopIteration. */
    constructor (limit: nat, eligible: seq<Task>)
      requires 1 <= limit
      ensures this.limit == limit && this.eligible == eligible
      ensures next == if limit < |eligible| then limit else |eligible|
      ensures inFlight == eligible[..next] && finished == []
      ensures Valid()
    {
      this.limit := limit;
      this.eligible := eligible;
      next := 0;
      inFlight := [];
      finished := [];
      new;
      var round := 0;
      while round < limit
        invariant 0 <= round <= limit
        invariant next <= |eligible| && next <= round
        invariant next < round ==> next == |eligible|
        invariant next == round || next == |eligible|
        invariant inFlight == eligible[..next] && finished == []
        invariant this.limit == limit && this.eligible == eligible
        decreases limit - round
      {
        if next == |eligible| {
          break;
        }
        inFlight := inFlight + [eligible[next]];
        assert eligible[..next + 1] == eligible[..next] + [eligible[next]];
        next := next + 1;
        round := round + 1;
      }
    }

    /**
     * The first half of a turn of the completion loop (main.py:372-378): the
     * future at `pick` finishes (`future.result()`) and leaves the pool; nothing
     * is claimed, leaving one free place while the generator has lectures.
     */
    method Finish(pick: nat)
      requires Valid() && pick < |inFlight|
      modifies this
      ensures finished == old(finished) + [old(inFlight)[pick]]
      ensures inFlight == RemoveAt(old(inFlight), pick) && next == old(next)
      ensures Settled() && (next < |eligible| ==> |inFlight| == limit - 1)
    {
      var done := inFlight[pick];
      finished := finished + [done];
      inFlight := RemoveAt(inFlight, pick);
    }

    /**
     * The second half (main.py:380-399), reached only when `future.result()`
     * did not raise: the next lecture, if any, is claimed into the free place.
     */
    method Refill()
      requires Settled() && (next < |eligible| ==> |inFlight| == limit - 1)
      modifies this
      ensures finished == old(finished)
      ensures old(next) < |eligible| ==> next == old(next) + 1 && inFlight == old(inFlight) + [eligible[old(next)]]
      ensures old(next) == |eligible| ==> next == old(next) && inFlight == old(inFlight)
      ensures Valid()
    {
      if next < |eligible| {
        inFlight := inFlight + [eligible[next]];
        assert eligible[..next + 1] == eligible[..next] + [eligible[next]];
        next := next + 1;
      }
    }
  }

  /** The generator position after `limit` up-front claims and `refills` refills: min(limit + refills, n). */
  function Claims(limit: nat, refills: nat, n: nat): (c: nat)
    ensures c <= n && c <= limit + refills
    ensures c == n || c == limit + refills
  {
    if limit + refills < n then limit + refills else n
  }

  /** No task of `s` escapes. */
  predicate NoneEscape(s: seq<Task>, escapes: Task -> bool)
  {
    forall k :: 0 <= k < |s| ==> !escapes(s[k])
  }

  lemma NoneEscapeSnoc(s: seq<Task>, t: Task, escapes: Task -> bool)
    requires NoneEscape(s, escapes) && !escapes(t)
    ensures NoneEscape(s + [t], escapes)
  {
    assert forall k :: 0 <= k < |s| ==> (s + [t])[k] == s[k];
  }

  /**
   * The whole of download_course's scheduling: lectures finish in the order
   * `pick` chooses; a lecture whose download escapes with an exception ends the
   * run at once, before the refill claims anything. Without an escape every
   * eligible lecture finishes exactly once; with one, the escaping lecture is
   * the last to finish, and the claims are the generator's first `limit` plus
   * one per lecture that finished before it.
   */
  method RunCourse(limit: nat, eligible: seq<Task>, pick: nat -> nat, escapes: Task -> bool)
    returns (finished: seq<Task>, claimed: nat, raised: bool)
    requires 1 <= limit
    ensures claimed <= |eligible|
    ensures !raised ==> claimed == |eligible| && multiset(finished) == multiset(eligible)
    ensures forall i :: 0 <= i < |finished| - 1 ==> !escapes(finished[i])
    ensures raised <==> |finished| > 0 && escapes(finished[|finished| - 1])
    ensures raised ==> claimed == Claims(limit, |finished| - 1, |eligible|)
    ensures multiset(finished) <= multiset(eligible[..claimed])
  {
    var pool := new Pool(limit, eligible);
    raised := false;
    while pool.inFlight != [] && !raised
      invariant pool.Settled() && pool.limit == limit && pool.eligible == eligible
      invariant !raised ==> pool.Valid() && NoneEscape(pool.finished, escapes)
      invariant raised ==> && |pool.finished| > 0
                           && NoneEscape(pool.finished[..|pool.finished| - 1], escapes)
                           && escapes(pool.finished[|pool.finished| - 1])
      invariant !raised ==> pool.next == Claims(limit, |pool.finished|, |eligible|)
      invariant raised ==> pool.next == Claims(limit, |pool.finished| - 1, |eligible|)
      decreases 2 * (|eligible| - pool.next) + |pool.inFlight|
    {
      var i := pick(|pool.finished|) % |pool.inFlight|;
      ghost var before := pool.finished;
      pool.Finish(i);
      var done := pool.finished[|pool.finished| - 1];
      raised := escapes(done);
      if !raised {
        NoneEscapeSnoc(before, done, escapes);
        pool.Refill();
      } else {
        assert pool.finished[..|pool.finished| - 1] == before;
      }
    }
    finished := pool.finished;
    claimed := pool.next;
    assert multiset(finished) + multiset(pool.inFlight) == multiset(eligible[..claimed]);
    if !raised {
      assert claimed == |eligible|;
      assert eligible[..claimed] == eligible;
    }
  }
}
