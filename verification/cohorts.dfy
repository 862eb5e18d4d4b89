/**
 The cohort builder of `download_by_date`: project every listed item onto the
 fields the engine keeps, derive its capture day, sort stably by that day and
 cut the sorted list into runs of one day each (`itertools.groupby`).
 */
module Cohorts {
  import opened Text

  /** One media record of a listing page, reduced to the fields the engine reads. */
  datatype RemoteItem = RemoteItem(
    id: string,
    capturedAt: string,
    filename: string,
    fileExtension: string,
    fileSize: int,
    mediaType: string)

  /** The projection kept per item, with the derived `captured_day`. */
  datatype Media = Media(
    id: string,
    capturedAt: string,
    filename: string,
    fileExtension: string,
    fileSize: int,
    mediaType: string,
    capturedDay: string)

  /** The items of one capture day, in the order the stable sort leaves them. */
  datatype Cohort = Cohort(day: string, items: seq<Media>)

  /** `captured_at.split('T')[0]`: the timestamp up to its first `T`, no time-zone conversion. */
  function CapturedDay(capturedAt: string): (day: string)
    ensures day <= capturedAt && 'T' !in day
    ensures |day| == |capturedAt| || capturedAt[|day|] == 'T'
  {
    FirstField(capturedAt, 'T')
  }

  function Project(item: RemoteItem): Media {
    Media(item.id, item.capturedAt, item.filename, item.fileExtension, item.fileSize, item.mediaType,
          CapturedDay(item.capturedAt))
  }

  function ProjectAll(items: seq<RemoteItem>): (ms: seq<Media>)
    ensures |ms| == |items|
    ensures forall k :: 0 <= k < |items| ==> ms[k] == Project(items[k])
  {
    seq(|items|, k requires 0 <= k < |items| => Project(items[k]))
  }

  /** The items of `ms` captured on `day`, in their order in `ms`. */
  function OnDay(ms: seq<Media>, day: string): seq<Media>
    decreases |ms|
  {
    if |ms| == 0 then [] else (if ms[0].capturedDay == day then [ms[0]] else []) + OnDay(ms[1..], day)
  }

  predicate SortedByDay(ms: seq<Media>) {
    forall i, j :: 0 <= i < j < |ms| ==> LexLe(ms[i].capturedDay, ms[j].capturedDay)
  }

  /** Every item of the cohort carries the cohort's day, and there is at least one. */
  predicate IsRun(c: Cohort) {
    |c.items| > 0 && forall m :: m in c.items ==> m.capturedDay == c.day
  }

  function Flatten(gs: seq<Cohort>): seq<Media>
    decreases |gs|
  {
    if |gs| == 0 then [] else gs[0].items + Flatten(gs[1..])
  }

  // ---------------------------------------------------------------------------
  // sorted(..., key=itemgetter('captured_day'))
  // ---------------------------------------------------------------------------

  lemma OnDayMember(ms: seq<Media>, day: string, m: Media)
    requires m in OnDay(ms, day)
    ensures m in ms && m.capturedDay == day
    decreases |ms|
  {
    if |ms| > 0 && m !in (if ms[0].capturedDay == day then [ms[0]] else []) {
      OnDayMember(ms[1..], day, m);
    }
  }

  lemma OnDayNone(ms: seq<Media>, day: string)
    requires forall m :: m in ms ==> m.capturedDay != day
    ensures OnDay(ms, day) == []
    decreases |ms|
  {
    if |ms| > 0 {
      OnDayNone(ms[1..], day);
    }
  }

  lemma SortedTail(ms: seq<Media>)
    requires SortedByDay(ms) && |ms| > 0
    ensures SortedByDay(ms[1..])
  {
    forall i, j | 0 <= i < j < |ms| - 1
      ensures LexLe(ms[1..][i].capturedDay, ms[1..][j].capturedDay)
    {
      assert ms[1..][i] == ms[i + 1] && ms[1..][j] == ms[j + 1];
    }
  }

  /** The first item of a day-sorted sequence has the smallest day. */
  lemma SortedHeadLeast(ms: seq<Media>, m: Media)
    requires SortedByDay(ms) && m in ms
    ensures LexLe(ms[0].capturedDay, m.capturedDay)
  {
    var k :| 0 <= k < |ms| && ms[k] == m;
    if k == 0 {
      LexLeRefl(m.capturedDay);
    }
  }

  /** Insert `m` in front of the first item whose day is not smaller: the stable place for an earlier item. */
  function InsertByDay(m: Media, ms: seq<Media>): (r: seq<Media>)
    ensures multiset(r) == multiset(ms) + multiset{m}
    decreases |ms|
  {
    if |ms| == 0 || LexLe(m.capturedDay, ms[0].capturedDay) then
      [m] + ms
    else
      assert ms == [ms[0]] + ms[1..];
      [ms[0]] + InsertByDay(m, ms[1..])
  }

  /** Every item of the insertion is `m` or an item of `ms`. */
  lemma InsertMembers(m: Media, ms: seq<Media>, x: Media)
    requires x in InsertByDay(m, ms)
    ensures x == m || x in ms
  {
    assert x in multiset(InsertByDay(m, ms));
  }

  /** Inserting in front of a sorted sequence whose head is not earlier keeps it sorted. */
  lemma InsertAtFront(m: Media, ms: seq<Media>)
    requires SortedByDay(ms)
    requires |ms| == 0 || LexLe(m.capturedDay, ms[0].capturedDay)
    ensures SortedByDay([m] + ms)
  {
    var r := [m] + ms;
    forall i, j | 0 <= i < j < |r| ensures LexLe(r[i].capturedDay, r[j].capturedDay) {
      if i == 0 && j > 1 {
        LexLeTrans(m.capturedDay, ms[0].capturedDay, ms[j - 1].capturedDay);
      }
    }
  }

  /** A head that is no later than every item of a sorted tail keeps the whole sorted. */
  lemma ConsSorted(x: Media, r: seq<Media>)
    requires SortedByDay(r)
    requires forall y :: y in r ==> LexLe(x.capturedDay, y.capturedDay)
    ensures SortedByDay([x] + r)
  {
    var s := [x] + r;
    forall i, j | 0 <= i < j < |s| ensures LexLe(s[i].capturedDay, s[j].capturedDay) {
      assert s[j] == r[j - 1];
      if i > 0 {
        assert s[i] == r[i - 1];
      }
    }
  }

  lemma {:induction false} InsertKeepsSorted(m: Media, ms: seq<Media>)
    requires SortedByDay(ms)
    ensures SortedByDay(InsertByDay(m, ms))
    decreases |ms|
  {
    if |ms| == 0 || LexLe(m.capturedDay, ms[0].capturedDay) {
      InsertAtFront(m, ms);
    } else {
      var x, t := ms[0], ms[1..];
      SortedTail(ms);
      InsertKeepsSorted(m, t);
      var r' := InsertByDay(m, t);
      LexLeTotal(m.capturedDay, x.capturedDay);
      forall y | y in r' ensures LexLe(x.capturedDay, y.capturedDay) {
        InsertMembers(m, t, y);
        if y != m {
          SortedHeadLeast(ms, y);
        }
      }
      ConsSorted(x, r');
      assert InsertByDay(m, ms) == [x] + r';
    }
  }

  lemma HeadTail(ms: seq<Media>)
    requires |ms| > 0
    ensures ms == [ms[0]] + ms[1..]
  {
  }

  lemma SplitAt(ms: seq<Media>, n: nat)
    requires n <= |ms|
    ensures ms[..n] + ms[n..] == ms
  {
  }

  lemma OnDayCons(x: Media, ms: seq<Media>, day: string)
    ensures OnDay([x] + ms, day) == (if x.capturedDay == day then [x] else []) + OnDay(ms, day)
  {
    assert ([x] + ms)[0] == x && ([x] + ms)[1..] == ms;
  }

  lemma SwapFront(p: seq<Media>, q: seq<Media>, o: seq<Media>)
    requires p == [] || q == []
    ensures q + (p + o) == p + (q + o)
  {
  }

  /** One step of `InsertOnDay` past a head item of an earlier day. */
  lemma InsertOnDayStep(m: Media, ms: seq<Media>, day: string)
    requires |ms| > 0 && !LexLe(m.capturedDay, ms[0].capturedDay)
    requires OnDay(InsertByDay(m, ms[1..]), day) == (if m.capturedDay == day then [m] else []) + OnDay(ms[1..], day)
    ensures OnDay(InsertByDay(m, ms), day) == (if m.capturedDay == day then [m] else []) + OnDay(ms, day)
  {
    var x, t := ms[0], ms[1..];
    var r' := InsertByDay(m, t);
    var p: seq<Media> := if m.capturedDay == day then [m] else [];
    var q: seq<Media> := if x.capturedDay == day then [x] else [];
    var o := OnDay(t, day);
    assert InsertByDay(m, ms) == [x] + r';
    OnDayCons(x, r', day);
    HeadTail(ms);
    OnDayCons(x, t, day);
    assert p == [] || q == [] by {
      if m.capturedDay == day && x.capturedDay == day {
        LexLeRefl(day);
      }
    }
    SwapFront(p, q, o);
  }

  /** Inserting `m` adds it in front of the other items of its day and leaves every other day as it was. */
  lemma {:induction false} InsertOnDay(m: Media, ms: seq<Media>, day: string)
    ensures OnDay(InsertByDay(m, ms), day) == (if m.capturedDay == day then [m] else []) + OnDay(ms, day)
    decreases |ms|
  {
    if |ms| == 0 || LexLe(m.capturedDay, ms[0].capturedDay) {
      OnDayCons(m, ms, day);
    } else {
      InsertOnDay(m, ms[1..], day);
      InsertOnDayStep(m, ms, day);
    }
  }

  /** Python's `sorted` by `captured_day`, as an insertion sort. */
  function SortByDay(ms: seq<Media>): seq<Media>
    decreases |ms|
  {
    if |ms| == 0 then [] else InsertByDay(ms[0], SortByDay(ms[1..]))
  }

  /** The sort is ordered by day, a permutation, and stable: every day keeps its items in their input order. */
  lemma {:induction false} SortByDaySpec(ms: seq<Media>)
    ensures SortedByDay(SortByDay(ms))
    ensures multiset(SortByDay(ms)) == multiset(ms)
    ensures forall day :: OnDay(SortByDay(ms), day) == OnDay(ms, day)
    decreases |ms|
  {
    if |ms| > 0 {
      var t := SortByDay(ms[1..]);
      SortByDaySpec(ms[1..]);
      InsertKeepsSorted(ms[0], t);
      assert ms == [ms[0]] + ms[1..];
      forall day ensures OnDay(InsertByDay(ms[0], t), day) == OnDay(ms, day) {
        InsertOnDay(ms[0], t, day);
      }
    }
  }

  /**
   A stable sort by day has only one possible outcome: two day-ordered
   sequences with the same items per day, in the same order, are equal. So
   `SortByDay` is the result of any stable sort, Timsort included.
   */
  lemma {:induction false} StableSortUnique(a: seq<Media>, b: seq<Media>)
    requires SortedByDay(a) && SortedByDay(b)
    requires forall day :: OnDay(a, day) == OnDay(b, day)
    ensures a == b
    decreases |a| + |b|
  {
    if |a| > 0 || |b| > 0 {
      var d := if |a| > 0 then a[0].capturedDay else b[0].capturedDay;
      assert OnDay(a, d) != [];
      assert |a| > 0 && |b| > 0;
      d := a[0].capturedDay;
      assert OnDay(a, d)[0] == a[0];
      var e := b[0].capturedDay;
      assert OnDay(b, e)[0] == b[0];
      assert LexLe(e, d) by {
        var x := OnDay(b, d)[0];
        OnDayMember(b, d, x);
        SortedHeadLeast(b, x);
      }
      assert LexLe(d, e) by {
        var x := OnDay(a, e)[0];
        OnDayMember(a, e, x);
        SortedHeadLeast(a, x);
      }
      LexLeAntisym(d, e);
      assert a[0] == b[0];
      forall day ensures OnDay(a[1..], day) == OnDay(b[1..], day) {
        var p: seq<Media> := if d == day then [a[0]] else [];
        assert OnDay(a, day) == p + OnDay(a[1..], day);
        assert OnDay(b, day) == p + OnDay(b[1..], day);
        assert OnDay(a[1..], day) == OnDay(a, day)[|p|..];
        assert OnDay(b[1..], day) == OnDay(b, day)[|p|..];
      }
      SortedTail(a);
      SortedTail(b);
      StableSortUnique(a[1..], b[1..]);
      assert a == [a[0]] + a[1..];
      assert b == [b[0]] + b[1..];
    }
  }

  // ---------------------------------------------------------------------------
  // itertools.groupby(..., key=itemgetter('captured_day'))
  // ---------------------------------------------------------------------------

  /** How many leading items of `ms` carry `day`. */
  function RunLength(ms: seq<Media>, day: string): (n: nat)
    ensures n <= |ms|
    ensures forall k :: 0 <= k < n ==> ms[k].capturedDay == day
    ensures n < |ms| ==> ms[n].capturedDay != day
    decreases |ms|
  {
    if |ms| == 0 || ms[0].capturedDay != day then 0 else 1 + RunLength(ms[1..], day)
  }

  /** Cut `ms` into maximal runs of equal day, as `groupby` yields them. */
  function GroupRuns(ms: seq<Media>): (gs: seq<Cohort>)
    ensures |gs| > 0 ==> |ms| > 0 && gs[0].day == ms[0].capturedDay
    ensures |gs| == 0 ==> |ms| == 0
    decreases |ms|
  {
    if |ms| == 0 then []
    else
      var d := ms[0].capturedDay;
      var n := RunLength(ms, d);
      [Cohort(d, ms[..n])] + GroupRuns(ms[n..])
  }

  /** The first run of a non-empty `ms`: its first `RunLength` items, all of its first day. */
  lemma FirstRun(ms: seq<Media>)
    requires |ms| > 0
    ensures var n := RunLength(ms, ms[0].capturedDay);
      && GroupRuns(ms) == [Cohort(ms[0].capturedDay, ms[..n])] + GroupRuns(ms[n..])
      && IsRun(Cohort(ms[0].capturedDay, ms[..n]))
  {
    var d := ms[0].capturedDay;
    var n := RunLength(ms, d);
    assert ms[..n][0] == ms[0];
    forall m | m in ms[..n] ensures m.capturedDay == d {
      var k :| 0 <= k < n && ms[..n][k] == m;
    }
  }

  lemma FlattenCons(c: Cohort, gs: seq<Cohort>)
    ensures Flatten([c] + gs) == c.items + Flatten(gs)
  {
    assert ([c] + gs)[1..] == gs;
  }

  /** Putting the runs back together gives `ms`. */
  lemma {:induction false} GroupRunsFlatten(ms: seq<Media>)
    ensures Flatten(GroupRuns(ms)) == ms
    decreases |ms|
  {
    if |ms| > 0 {
      var n := RunLength(ms, ms[0].capturedDay);
      var c, rest := Cohort(ms[0].capturedDay, ms[..n]), GroupRuns(ms[n..]);
      FirstRun(ms);
      GroupRunsFlatten(ms[n..]);
      FlattenCons(c, rest);
      SplitAt(ms, n);
    }
  }

  /** Every run is non-empty and of one day. */
  lemma {:induction false} GroupRunsAreRuns(ms: seq<Media>)
    ensures forall c :: c in GroupRuns(ms) ==> IsRun(c)
    decreases |ms|
  {
    if |ms| > 0 {
      var n := RunLength(ms, ms[0].capturedDay);
      FirstRun(ms);
      GroupRunsAreRuns(ms[n..]);
    }
  }

  /** Neighbouring runs differ in day: the runs are maximal. */
  lemma {:induction false} GroupRunsMaximal(ms: seq<Media>)
    ensures forall i :: 0 <= i < |GroupRuns(ms)| - 1 ==> GroupRuns(ms)[i].day != GroupRuns(ms)[i + 1].day
    decreases |ms|
  {
    if |ms| > 0 {
      var n := RunLength(ms, ms[0].capturedDay);
      FirstRun(ms);
      var rest := GroupRuns(ms[n..]);
      GroupRunsMaximal(ms[n..]);
      var gs := GroupRuns(ms);
      forall i | 0 <= i < |gs| - 1 ensures gs[i].day != gs[i + 1].day {
        assert gs[i + 1] == rest[i];
        if i > 0 {
          assert gs[i] == rest[i - 1];
        }
      }
    }
  }

  /** The runs put back together give `ms`; each is non-empty and of one day; neighbouring runs differ in day. */
  lemma GroupRunsSpec(ms: seq<Media>)
    ensures Flatten(GroupRuns(ms)) == ms
    ensures forall i :: 0 <= i < |GroupRuns(ms)| ==> IsRun(GroupRuns(ms)[i])
    ensures forall i :: 0 <= i < |GroupRuns(ms)| - 1 ==> GroupRuns(ms)[i].day != GroupRuns(ms)[i + 1].day
  {
    GroupRunsFlatten(ms);
    GroupRunsAreRuns(ms);
    GroupRunsMaximal(ms);
  }

  /** Cohort days strictly increase along the sequence (so they are also distinct). */
  predicate Ascending(gs: seq<Cohort>) {
    forall i, j :: 0 <= i < j < |gs| ==> LexLt(gs[i].day, gs[j].day)
  }

  /** Every cohort holds all the items of its day, in their order in `ms`. */
  predicate WholeDays(gs: seq<Cohort>, ms: seq<Media>) {
    forall i :: 0 <= i < |gs| ==> gs[i].items == OnDay(ms, gs[i].day)
  }

  lemma {:induction false} OnDayAppend(a: seq<Media>, b: seq<Media>, day: string)
    ensures OnDay(a + b, day) == OnDay(a, day) + OnDay(b, day)
    decreases |a|
  {
    if |a| > 0 {
      OnDayAppend(a[1..], b, day);
      assert (a + b)[1..] == a[1..] + b;
    } else {
      assert a + b == b;
    }
  }

  lemma {:induction false} OnDayAll(ms: seq<Media>, day: string)
    requires forall k :: 0 <= k < |ms| ==> ms[k].capturedDay == day
    ensures OnDay(ms, day) == ms
    decreases |ms|
  {
    if |ms| > 0 {
      OnDayAll(ms[1..], day);
      assert ms == [ms[0]] + ms[1..];
    }
  }

  /** On a day-sorted sequence every item after the first run has a strictly later day. */
  lemma AfterFirstRun(ms: seq<Media>)
    requires SortedByDay(ms) && |ms| > 0
    ensures var d := ms[0].capturedDay;
      forall k :: RunLength(ms, d) <= k < |ms| ==> LexLt(d, ms[k].capturedDay)
  {
    var d := ms[0].capturedDay;
    var n := RunLength(ms, d);
    forall k | n <= k < |ms| ensures LexLt(d, ms[k].capturedDay) {
      assert LexLe(d, ms[k].capturedDay);
      if k > n && ms[k].capturedDay == d {
        assert LexLe(ms[n].capturedDay, d);
        LexLeAntisym(ms[n].capturedDay, d);
      }
    }
  }

  /** A leading run of `day` with no item of `day` after it is the whole of that day. */
  lemma RunIsWholeDay(ms: seq<Media>, day: string, n: nat)
    requires n <= |ms|
    requires forall k :: 0 <= k < n ==> ms[k].capturedDay == day
    requires forall k :: n <= k < |ms| ==> ms[k].capturedDay != day
    ensures OnDay(ms, day) == ms[..n]
  {
    var head, tail := ms[..n], ms[n..];
    assert ms == head + tail;
    OnDayAll(head, day);
    assert forall m :: m in tail ==> m.capturedDay != day;
    OnDayNone(tail, day);
    OnDayAppend(head, tail, day);
  }

  /** Items of other days before position `n` do not count towards `e`. */
  lemma OnDayAfterRun(ms: seq<Media>, n: nat, e: string)
    requires n <= |ms|
    requires forall k :: 0 <= k < n ==> ms[k].capturedDay != e
    ensures OnDay(ms, e) == OnDay(ms[n..], e)
  {
    var head := ms[..n];
    assert ms == head + ms[n..];
    assert forall m :: m in head ==> m.capturedDay != e;
    OnDayNone(head, e);
    OnDayAppend(head, ms[n..], e);
  }

  /** On a day-sorted sequence the runs have strictly increasing days, none before the first item's, and each run is its whole day. */
  lemma {:induction false} GroupsOfSorted(ms: seq<Media>)
    requires SortedByDay(ms)
    ensures Ascending(GroupRuns(ms)) && WholeDays(GroupRuns(ms), ms)
    ensures forall i :: 0 <= i < |GroupRuns(ms)| ==> LexLe(ms[0].capturedDay, GroupRuns(ms)[i].day)
    decreases |ms|
  {
    if |ms| > 0 {
      var d := ms[0].capturedDay;
      var n := RunLength(ms, d);
      var tail := ms[n..];
      var rest := GroupRuns(tail);
      var gs := GroupRuns(ms);
      assert gs == [Cohort(d, ms[..n])] + rest;
      AfterFirstRun(ms);
      RunIsWholeDay(ms, d, n);
      LexLeRefl(d);
      if |tail| > 0 {
        SortedSuffix(ms, n);
        GroupsOfSorted(tail);
        assert LexLt(d, tail[0].capturedDay);
        forall i | 0 <= i < |rest| ensures LexLt(d, rest[i].day) && rest[i].items == OnDay(ms, rest[i].day) {
          LexLeTrans(d, tail[0].capturedDay, rest[i].day);
          if d == rest[i].day {
            LexLeAntisym(d, tail[0].capturedDay);
          }
          OnDayAfterRun(ms, n, rest[i].day);
        }
      }
      forall i, j | 0 <= i < j < |gs| ensures LexLt(gs[i].day, gs[j].day) {
        assert gs[j] == rest[j - 1];
        if i > 0 {
          assert gs[i] == rest[i - 1];
        }
      }
      forall i | 0 <= i < |gs| ensures gs[i].items == OnDay(ms, gs[i].day) && LexLe(d, gs[i].day) {
        if i > 0 {
          assert gs[i] == rest[i - 1];
        }
      }
    }
  }

  lemma SortedSuffix(ms: seq<Media>, n: nat)
    requires SortedByDay(ms) && n <= |ms|
    ensures SortedByDay(ms[n..])
  {
    forall i, j | 0 <= i < j < |ms| - n
      ensures LexLe(ms[n..][i].capturedDay, ms[n..][j].capturedDay)
    {
      assert ms[n..][i] == ms[n + i] && ms[n..][j] == ms[n + j];
    }
  }

  lemma {:induction false} FlattenMember(gs: seq<Cohort>, m: Media)
    requires m in Flatten(gs)
    ensures exists i :: 0 <= i < |gs| && m in gs[i].items
    decreases |gs|
  {
    if m !in gs[0].items {
      FlattenMember(gs[1..], m);
      var i :| 0 <= i < |gs[1..]| && m in gs[1..][i].items;
      assert gs[i + 1] == gs[1..][i];
    }
  }

  // ---------------------------------------------------------------------------
  // The cohorts of one listing page
  // ---------------------------------------------------------------------------

  /** The grouping `download_by_date` performs on one page's items: runs of one day each, never empty. */
  function BuildCohorts(page: seq<RemoteItem>): (gs: seq<Cohort>)
    ensures forall i :: 0 <= i < |gs| ==> IsRun(gs[i])
  {
    var sorted := SortByDay(ProjectAll(page));
    GroupRunsSpec(sorted);
    GroupRuns(sorted)
  }

  /**
   The cohorts of a page have strictly ascending days, each holds every item
   of its day in page order, and together they hold exactly the page's items.
   */
  lemma BuildCohortsSpec(page: seq<RemoteItem>)
    ensures var gs := BuildCohorts(page);
      && Ascending(gs)
      && WholeDays(gs, ProjectAll(page))
      && multiset(Flatten(gs)) == multiset(ProjectAll(page))
  {
    var sorted := SortByDay(ProjectAll(page));
    SortByDaySpec(ProjectAll(page));
    GroupsOfSorted(sorted);
    GroupRunsSpec(sorted);
    var gs := GroupRuns(sorted);
    forall i | 0 <= i < |gs| ensures gs[i].items == OnDay(ProjectAll(page), gs[i].day) {
      assert gs[i].items == OnDay(sorted, gs[i].day);
    }
  }

  /** Every listed item lands in the cohort of its capture day, which is `captured_at` up to its first `T`. */
  lemma EveryItemHasItsCohort(page: seq<RemoteItem>, k: nat)
    requires k < |page|
    ensures var gs := BuildCohorts(page);
      exists i :: 0 <= i < |gs| && gs[i].day == CapturedDay(page[k].capturedAt) && Project(page[k]) in gs[i].items
  {
    var gs := BuildCohorts(page);
    BuildCohortsSpec(page);
    var m := ProjectAll(page)[k];
    assert m in multiset(Flatten(gs));
    FlattenMember(gs, m);
  }
}
