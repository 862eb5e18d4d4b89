/**
 One page of the sync (`download_by_date` and `download_media`): for every
 cohort of the page choose an archive name, consult the ledger, and when the
 ledger's count for the day is zero or differs from the cohort's size,
 request the archive; a 200 response records the archive on disk and merges
 the cohort's ids into the ledger.

 The HTTP status of each archive request is an input: `status(k)` is the
 status of the `k`-th archive request of the run.
 */
module Sync {
  import opened Text
  import opened Cohorts
  import opened Ledger
  import opened Archive

  const StatusOk: int := 200

  /** What persists between runs: the ledger table and the paths that exist on disk. */
  datatype State = State(db: Table, files: set<string>)

  /**
   One call of `download_media`: the day the ledger files it under
   (`data[0]['captured_day']`), the archive path, the ids sent in the URL,
   the announced total size and the HTTP status of the response.
   */
  datatype Transfer = Transfer(day: string, path: string, ids: seq<string>, totalSize: int, status: int)

  datatype Outcome = Outcome(state: State, transfer: Transfer)

  datatype PageOutcome = PageOutcome(state: State, transfers: seq<Transfer>)

  /** `[item['id'] for item in data]`. */
  function Ids(items: seq<Media>): (ids: seq<string>)
    ensures |ids| == |items|
    ensures forall k :: 0 <= k < |items| ==> ids[k] == items[k].id
  {
    seq(|items|, k requires 0 <= k < |items| => items[k].id)
  }

  /** `sum([item['file_size'] for item in data])`. */
  function TotalSize(items: seq<Media>): int
    decreases |items|
  {
    if |items| == 0 then 0 else TotalSize(items[..|items| - 1]) + items[|items| - 1].fileSize
  }

  /** The total of two lists is the sum of their totals, so the total is the sum over the cohort in any split. */
  lemma {:induction false} TotalSizeAppend(a: seq<Media>, b: seq<Media>)
    ensures TotalSize(a + b) == TotalSize(a) + TotalSize(b)
    decreases |b|
  {
    if |b| > 0 {
      var b' := b[..|b| - 1];
      assert (a + b)[..|a + b| - 1] == a + b';
      TotalSizeAppend(a, b');
    } else {
      assert a + b == a;
    }
  }

  lemma {:induction false} TotalSizeNonNegative(items: seq<Media>)
    requires forall k :: 0 <= k < |items| ==> items[k].fileSize >= 0
    ensures TotalSize(items) >= 0
    decreases |items|
  {
    if |items| > 0 {
      TotalSizeNonNegative(items[..|items| - 1]);
    }
  }

  /** The test at the heart of `download_by_date`: nothing recorded for the day, or a different count. */
  predicate NeedsFetch(dbIds: seq<string>, count: nat) {
    |dbIds| == 0 || |dbIds| != count
  }

  /**
   Which cohorts a page downloads. `ByCount` is the count test above, as
   `download_by_date` makes it; `BySet` downloads exactly when some id of the
   cohort is not yet recorded under its day, which is what the count test is
   meant to detect.
   */
  datatype FetchRule = ByCount | BySet

  predicate Fetches(rule: FetchRule, db: Table, c: Cohort) {
    match rule
    case ByCount => NeedsFetch(GetIds(db, c.day), |c.items|)
    case BySet => !(Elems(Ids(c.items)) <= Elems(GetIds(db, c.day)))
  }

  /**
   `download_media`: request the archive of `items`; only a 200 response
   writes `zipName` and merges the ids into the ledger under the day of the
   first item. Any other status leaves the state as it was.
   */
  function DownloadMedia(st: State, zipName: string, items: seq<Media>, status: int): (r: Outcome)
    requires |items| > 0
    ensures r.transfer == Transfer(items[0].capturedDay, zipName, Ids(items), TotalSize(items), status)
    ensures status != StatusOk ==> r.state == st
    ensures status == StatusOk ==>
      r.state == State(InsertIds(st.db, items[0].capturedDay, Ids(items)), st.files + {zipName})
  {
    var day, ids := items[0].capturedDay, Ids(items);
    var t := Transfer(day, zipName, ids, TotalSize(items), status);
    if status == StatusOk then
      Outcome(State(InsertIds(st.db, day, ids), st.files + {zipName}), t)
    else
      Outcome(st, t)
  }

  /** A `download_media` call leaves the ledger entries of every other day, and whether they exist, as they were. */
  lemma DownloadMediaFrame(st: State, zipName: string, items: seq<Media>, status: int, d: string)
    requires |items| > 0 && d != items[0].capturedDay
    ensures GetIds(DownloadMedia(st, zipName, items, status).state.db, d) == GetIds(st.db, d)
    ensures d in Dates(DownloadMedia(st, zipName, items, status).state.db) <==> d in Dates(st.db)
  {
    if status == StatusOk {
      InsertOtherDays(st.db, items[0].capturedDay, Ids(items), d);
      InsertDates(st.db, items[0].capturedDay, Ids(items));
    }
  }

  /**
   On a 200 response the day's ledger entry becomes the union of its old ids
   and the cohort's ids, and a day seen for the first time holds exactly the
   cohort's ids.
   */
  lemma DownloadMediaMerges(st: State, zipName: string, items: seq<Media>)
    requires |items| > 0
    ensures var db', day := DownloadMedia(st, zipName, items, StatusOk).state.db, items[0].capturedDay;
      && Elems(GetIds(db', day)) == Elems(GetIds(st.db, day)) + Elems(Ids(items))
      && (day !in Dates(st.db) ==> GetIds(db', day) == Ids(items))
  {
    InsertMerges(st.db, items[0].capturedDay, Ids(items));
  }

  /** Seen as a map from day to set of ids, a successful `download_media` is a union on one key. */
  lemma DownloadMediaView(st: State, zipName: string, items: seq<Media>, status: int)
    requires |items| > 0
    ensures var v, v', day := View(st.db), View(DownloadMedia(st, zipName, items, status).state.db), items[0].capturedDay;
      v' == if status == StatusOk then v[day := (if day in v then v[day] else {}) + Elems(Ids(items))] else v
  {
    if status == StatusOk {
      InsertRefinesUnion(st.db, items[0].capturedDay, Ids(items));
    }
  }

  lemma DownloadMediaKeepsUniqueDates(st: State, zipName: string, items: seq<Media>, status: int)
    requires |items| > 0 && UniqueDates(st.db)
    ensures UniqueDates(DownloadMedia(st, zipName, items, status).state.db)
  {
    if status == StatusOk {
      InsertKeepsUniqueDates(st.db, items[0].capturedDay, Ids(items));
    }
  }

  // ---------------------------------------------------------------------------
  // download_by_date
  // ---------------------------------------------------------------------------

  predicate AllRuns(gs: seq<Cohort>) {
    forall i :: 0 <= i < |gs| ==> IsRun(gs[i])
  }

  predicate DistinctDays(gs: seq<Cohort>) {
    forall i, j :: 0 <= i < j < |gs| ==> gs[i].day != gs[j].day
  }

  /** The loop over the page's cohorts; `k` counts the archive requests made before. */
  function RunCohorts(rule: FetchRule, st: State, gs: seq<Cohort>, status: nat -> int, k: nat): (r: PageOutcome)
    requires AllRuns(gs)
    ensures st.files <= r.state.files
    decreases |gs|
  {
    if |gs| == 0 then PageOutcome(st, [])
    else
      var c := gs[0];
      var zipName := ZipFilename(c.day, st.files);
      if Fetches(rule, st.db, c) then
        var o := DownloadMedia(st, zipName, c.items, status(k));
        var rest := RunCohorts(rule, o.state, gs[1..], status, k + 1);
        PageOutcome(rest.state, [o.transfer] + rest.transfers)
      else
        RunCohorts(rule, st, gs[1..], status, k)
  }

  /** The cohorts `download_by_date` requests, judged against a fixed ledger. */
  function Wanted(rule: FetchRule, db: Table, gs: seq<Cohort>): (w: seq<Cohort>)
    ensures |w| <= |gs|
    decreases |gs|
  {
    if |gs| == 0 then []
    else
      var rest := Wanted(rule, db, gs[1..]);
      if Fetches(rule, db, gs[0]) then [gs[0]] + rest else rest
  }

  /** A cohort is wanted exactly when it is on the page and the ledger's count for its day calls for a fetch. */
  lemma {:induction false} WantedMembers(rule: FetchRule, db: Table, gs: seq<Cohort>, c: Cohort)
    ensures c in Wanted(rule, db, gs) <==> c in gs && Fetches(rule, db, c)
    decreases |gs|
  {
    if |gs| > 0 {
      WantedMembers(rule, db, gs[1..], c);
      assert c in gs <==> c == gs[0] || c in gs[1..] by {
        assert gs == [gs[0]] + gs[1..];
      }
    }
  }

  /** The cohorts of the page's other days see the same ledger entries. */
  lemma {:induction false} WantedFrame(rule: FetchRule, db: Table, db': Table, gs: seq<Cohort>)
    requires forall i :: 0 <= i < |gs| ==> GetIds(db', gs[i].day) == GetIds(db, gs[i].day)
    ensures Wanted(rule, db', gs) == Wanted(rule, db, gs)
    decreases |gs|
  {
    if |gs| > 0 {
      assert GetIds(db', gs[0].day) == GetIds(db, gs[0].day);
      WantedFrame(rule, db, db', gs[1..]);
    }
  }

  lemma TailDistinct(gs: seq<Cohort>)
    requires |gs| > 0 && AllRuns(gs) && DistinctDays(gs)
    ensures AllRuns(gs[1..]) && DistinctDays(gs[1..])
    ensures forall i :: 0 <= i < |gs[1..]| ==> gs[1..][i].day != gs[0].day
  {
    assert forall i :: 0 <= i < |gs[1..]| ==> gs[1..][i] == gs[i + 1];
  }

  /** Transfer `i` of `ts` requests cohort `i` of `w`, and is the `k + i`-th request of the run. */
  predicate Requests(ts: seq<Transfer>, w: seq<Cohort>, status: nat -> int, k: nat) {
    && |ts| == |w|
    && forall i :: 0 <= i < |w| ==>
      && ts[i].day == w[i].day
      && ts[i].ids == Ids(w[i].items)
      && ts[i].totalSize == TotalSize(w[i].items)
      && ts[i].status == status(k + i)
  }

  lemma ConsRequests(t: Transfer, ts: seq<Transfer>, c: Cohort, w: seq<Cohort>, status: nat -> int, k: nat)
    requires Requests(ts, w, status, k + 1)
    requires t.day == c.day && t.ids == Ids(c.items) && t.totalSize == TotalSize(c.items) && t.status == status(k)
    ensures Requests([t] + ts, [c] + w, status, k)
  {
    var a, b := [t] + ts, [c] + w;
    forall i | 0 < i < |b| ensures a[i] == ts[i - 1] && b[i] == w[i - 1] {
    }
  }

  /**
   Because the page's days are distinct, the archive requests are exactly the
   wanted cohorts judged against the ledger as it was before the page, in
   page order: same day, same ids, same announced size.
   */
  lemma {:induction false} RunRequestsWanted(rule: FetchRule, st: State, gs: seq<Cohort>, status: nat -> int, k: nat)
    requires AllRuns(gs) && DistinctDays(gs)
    ensures Requests(RunCohorts(rule, st, gs, status, k).transfers, Wanted(rule, st.db, gs), status, k)
    decreases |gs|
  {
    if |gs| > 0 {
      var c := gs[0];
      TailDistinct(gs);
      var zipName := ZipFilename(c.day, st.files);
      var r := RunCohorts(rule, st, gs, status, k);
      if Fetches(rule, st.db, c) {
        var o := DownloadMedia(st, zipName, c.items, status(k));
        var rest := RunCohorts(rule, o.state, gs[1..], status, k + 1);
        forall i | 0 <= i < |gs[1..]| ensures GetIds(o.state.db, gs[1..][i].day) == GetIds(st.db, gs[1..][i].day) {
          DownloadMediaFrame(st, zipName, c.items, status(k), gs[1..][i].day);
        }
        WantedFrame(rule, st.db, o.state.db, gs[1..]);
        RunRequestsWanted(rule, o.state, gs[1..], status, k + 1);
        assert c.items[0] in c.items;
        assert r.transfers == [o.transfer] + rest.transfers;
        assert Wanted(rule, st.db, gs) == [c] + Wanted(rule, st.db, gs[1..]);
        ConsRequests(o.transfer, rest.transfers, c, Wanted(rule, st.db, gs[1..]), status, k);
      } else {
        assert r == RunCohorts(rule, st, gs[1..], status, k);
        RunRequestsWanted(rule, st, gs[1..], status, k);
      }
    }
  }

  /** Successful transfers of the page: position `i` of `ts` with a 200 status. */
  predicate Succeeded(ts: seq<Transfer>, i: int) {
    0 <= i < |ts| && ts[i].status == StatusOk
  }

  /** Every transfer of the page is filed under the day of one of the page's cohorts. */
  lemma {:induction false} TransferDays(rule: FetchRule, st: State, gs: seq<Cohort>, status: nat -> int, k: nat, d: string)
    requires AllRuns(gs)
    requires forall c :: c in gs ==> c.day != d
    ensures forall t :: t in RunCohorts(rule, st, gs, status, k).transfers ==> t.day != d
    decreases |gs|
  {
    if |gs| > 0 {
      var c := gs[0];
      var zipName := ZipFilename(c.day, st.files);
      var r := RunCohorts(rule, st, gs, status, k);
      assert forall n :: 0 <= n < |gs[1..]| ==> gs[1..][n] == gs[n + 1];
      if Fetches(rule, st.db, c) {
        var o := DownloadMedia(st, zipName, c.items, status(k));
        var rest := RunCohorts(rule, o.state, gs[1..], status, k + 1);
        assert r.transfers == [o.transfer] + rest.transfers;
        TransferDays(rule, o.state, gs[1..], status, k + 1, d);
        assert c.items[0] in c.items;
      } else {
        assert r == RunCohorts(rule, st, gs[1..], status, k);
        TransferDays(rule, st, gs[1..], status, k, d);
      }
    }
  }

  /** The ledger changes only on the days of successful transfers. */
  lemma {:induction false} RunFrame(rule: FetchRule, st: State, gs: seq<Cohort>, status: nat -> int, k: nat, d: string)
    requires AllRuns(gs)
    requires forall i :: Succeeded(RunCohorts(rule, st, gs, status, k).transfers, i) ==> RunCohorts(rule, st, gs, status, k).transfers[i].day != d
    ensures GetIds(RunCohorts(rule, st, gs, status, k).state.db, d) == GetIds(st.db, d)
    decreases |gs|
  {
    if |gs| > 0 {
      var c := gs[0];
      var zipName := ZipFilename(c.day, st.files);
      var r := RunCohorts(rule, st, gs, status, k);
      if Fetches(rule, st.db, c) {
        var o := DownloadMedia(st, zipName, c.items, status(k));
        var rest := RunCohorts(rule, o.state, gs[1..], status, k + 1);
        assert r == PageOutcome(rest.state, [o.transfer] + rest.transfers);
        forall i | Succeeded(rest.transfers, i) ensures rest.transfers[i].day != d {
          assert r.transfers[i + 1] == rest.transfers[i];
          assert Succeeded(r.transfers, i + 1);
        }
        RunFrame(rule, o.state, gs[1..], status, k + 1, d);
        if status(k) == StatusOk {
          assert r.transfers[0] == o.transfer;
          assert Succeeded(r.transfers, 0);
          DownloadMediaFrame(st, zipName, c.items, status(k), d);
        }
      } else {
        assert r == RunCohorts(rule, st, gs[1..], status, k);
        RunFrame(rule, st, gs[1..], status, k, d);
      }
    }
  }

  /**
   A successful transfer merges its ids into its day's ledger entry (a set
   union), and a day the ledger did not know yet ends up holding exactly the
   cohort's ids.
   */
  lemma {:induction false} RunMerges(rule: FetchRule, st: State, gs: seq<Cohort>, status: nat -> int, k: nat, i: nat)
    requires AllRuns(gs) && DistinctDays(gs)
    requires Succeeded(RunCohorts(rule, st, gs, status, k).transfers, i)
    ensures var r := RunCohorts(rule, st, gs, status, k); var t := r.transfers[i];
      && Elems(GetIds(r.state.db, t.day)) == Elems(GetIds(st.db, t.day)) + Elems(t.ids)
      && (t.day !in Dates(st.db) ==> GetIds(r.state.db, t.day) == t.ids)
    decreases |gs|
  {
    var c := gs[0];
    TailDistinct(gs);
    var zipName := ZipFilename(c.day, st.files);
    var r := RunCohorts(rule, st, gs, status, k);
    if Fetches(rule, st.db, c) {
      if i == 0 {
        RunMergesFirst(rule, st, gs, status, k);
      } else {
        var o := DownloadMedia(st, zipName, c.items, status(k));
        var rest := RunCohorts(rule, o.state, gs[1..], status, k + 1);
        assert r == PageOutcome(rest.state, [o.transfer] + rest.transfers);
        var t := rest.transfers[i - 1];
        assert r.transfers[i] == t;
        assert t.day != c.items[0].capturedDay by {
          assert c.items[0] in c.items;
          TransferDays(rule, o.state, gs[1..], status, k + 1, c.day);
          assert t in rest.transfers;
        }
        RunMerges(rule, o.state, gs[1..], status, k + 1, i - 1);
        DownloadMediaFrame(st, zipName, c.items, status(k), t.day);
      }
    } else {
      assert r == RunCohorts(rule, st, gs[1..], status, k);
      RunMerges(rule, st, gs[1..], status, k, i);
    }
  }

  /** `RunMerges` for the first cohort, when it is downloaded. */
  lemma RunMergesFirst(rule: FetchRule, st: State, gs: seq<Cohort>, status: nat -> int, k: nat)
    requires AllRuns(gs) && DistinctDays(gs) && |gs| > 0 && Fetches(rule, st.db, gs[0])
    requires Succeeded(RunCohorts(rule, st, gs, status, k).transfers, 0)
    ensures var r := RunCohorts(rule, st, gs, status, k); var t := r.transfers[0];
      && Elems(GetIds(r.state.db, t.day)) == Elems(GetIds(st.db, t.day)) + Elems(t.ids)
      && (t.day !in Dates(st.db) ==> GetIds(r.state.db, t.day) == t.ids)
  {
    var c := gs[0];
    TailDistinct(gs);
    var zipName := ZipFilename(c.day, st.files);
    var r := RunCohorts(rule, st, gs, status, k);
    var o := DownloadMedia(st, zipName, c.items, status(k));
    var rest := RunCohorts(rule, o.state, gs[1..], status, k + 1);
    assert r == PageOutcome(rest.state, [o.transfer] + rest.transfers);
    assert c.items[0] in c.items;
    TransferDays(rule, o.state, gs[1..], status, k + 1, c.day);
    assert r.transfers[0] == o.transfer;
    DownloadMediaMerges(st, zipName, c.items);
    forall j | Succeeded(rest.transfers, j) ensures rest.transfers[j].day != c.day {
      assert rest.transfers[j] in rest.transfers;
    }
    RunFrame(rule, o.state, gs[1..], status, k + 1, c.day);
  }

  /** The archives the successful transfers wrote. */
  function WrittenPaths(ts: seq<Transfer>): set<string> {
    set i | 0 <= i < |ts| && ts[i].status == StatusOk :: ts[i].path
  }

  lemma WrittenPathsCons(t: Transfer, ts: seq<Transfer>)
    ensures WrittenPaths([t] + ts) == (if t.status == StatusOk then {t.path} else {}) + WrittenPaths(ts)
  {
    var a := [t] + ts;
    forall p | p in WrittenPaths(a) ensures p in (if t.status == StatusOk then {t.path} else {}) + WrittenPaths(ts) {
      var i :| 0 <= i < |a| && a[i].status == StatusOk && a[i].path == p;
      if i > 0 {
        assert a[i] == ts[i - 1];
      }
    }
    forall p | p in WrittenPaths(ts) ensures p in WrittenPaths(a) {
      var i :| 0 <= i < |ts| && ts[i].status == StatusOk && ts[i].path == p;
      assert a[i + 1] == ts[i];
    }
    if t.status == StatusOk {
      assert a[0] == t;
    }
  }

  /** The files on disk after the page are those before plus the archives of the successful transfers. */
  lemma {:induction false} RunWritesFiles(rule: FetchRule, st: State, gs: seq<Cohort>, status: nat -> int, k: nat)
    requires AllRuns(gs)
    ensures RunCohorts(rule, st, gs, status, k).state.files == st.files + WrittenPaths(RunCohorts(rule, st, gs, status, k).transfers)
    decreases |gs|
  {
    if |gs| > 0 {
      var c := gs[0];
      var zipName := ZipFilename(c.day, st.files);
      var r := RunCohorts(rule, st, gs, status, k);
      if Fetches(rule, st.db, c) {
        var o := DownloadMedia(st, zipName, c.items, status(k));
        var rest := RunCohorts(rule, o.state, gs[1..], status, k + 1);
        assert r == PageOutcome(rest.state, [o.transfer] + rest.transfers);
        RunWritesFiles(rule, o.state, gs[1..], status, k + 1);
        WrittenPathsCons(o.transfer, rest.transfers);
      } else {
        assert r == RunCohorts(rule, st, gs[1..], status, k);
        RunWritesFiles(rule, st, gs[1..], status, k);
      }
    } else {
      assert WrittenPaths([]) == {};
    }
  }

  /** Every archive the page requests is a path that did not exist before the page. */
  lemma {:induction false} RunPathsFresh(rule: FetchRule, st: State, gs: seq<Cohort>, status: nat -> int, k: nat)
    requires AllRuns(gs)
    ensures forall t :: t in RunCohorts(rule, st, gs, status, k).transfers ==> t.path !in st.files
    decreases |gs|
  {
    if |gs| > 0 {
      var c := gs[0];
      var zipName := ZipFilename(c.day, st.files);
      var r := RunCohorts(rule, st, gs, status, k);
      if Fetches(rule, st.db, c) {
        var o := DownloadMedia(st, zipName, c.items, status(k));
        var rest := RunCohorts(rule, o.state, gs[1..], status, k + 1);
        assert r.transfers == [o.transfer] + rest.transfers;
        assert st.files <= o.state.files;
        RunPathsFresh(rule, o.state, gs[1..], status, k + 1);
      } else {
        assert r == RunCohorts(rule, st, gs[1..], status, k);
        RunPathsFresh(rule, st, gs[1..], status, k);
      }
    }
  }

  /** No two successful transfers write the same archive. */
  predicate DistinctWrites(ts: seq<Transfer>) {
    forall i, j :: 0 <= i < j < |ts| && ts[i].status == StatusOk && ts[j].status == StatusOk ==> ts[i].path != ts[j].path
  }

  /** A successful transfer written before a list of transfers to fresh paths keeps the writes distinct. */
  lemma ConsDistinctWrites(t: Transfer, ts: seq<Transfer>, files: set<string>)
    requires t.status == StatusOk ==> t.path in files
    requires forall u :: u in ts ==> u.path !in files
    requires DistinctWrites(ts)
    ensures DistinctWrites([t] + ts)
  {
    var a := [t] + ts;
    forall i, j | 0 <= i < j < |a| && a[i].status == StatusOk && a[j].status == StatusOk ensures a[i].path != a[j].path {
      assert a[j] == ts[j - 1];
      if i == 0 {
        assert ts[j - 1] in ts;
      } else {
        assert a[i] == ts[i - 1];
      }
    }
  }

  /** No two successful transfers of the page write the same archive (and none overwrites an existing one). */
  lemma {:induction false} RunPathsDistinct(rule: FetchRule, st: State, gs: seq<Cohort>, status: nat -> int, k: nat)
    requires AllRuns(gs)
    ensures DistinctWrites(RunCohorts(rule, st, gs, status, k).transfers)
    decreases |gs|
  {
    if |gs| > 0 {
      var c := gs[0];
      var zipName := ZipFilename(c.day, st.files);
      var r := RunCohorts(rule, st, gs, status, k);
      if Fetches(rule, st.db, c) {
        var o := DownloadMedia(st, zipName, c.items, status(k));
        var rest := RunCohorts(rule, o.state, gs[1..], status, k + 1);
        assert r.transfers == [o.transfer] + rest.transfers;
        RunPathsDistinct(rule, o.state, gs[1..], status, k + 1);
        RunPathsFresh(rule, o.state, gs[1..], status, k + 1);
        ConsDistinctWrites(o.transfer, rest.transfers, o.state.files);
      } else {
        assert r == RunCohorts(rule, st, gs[1..], status, k);
        RunPathsDistinct(rule, st, gs[1..], status, k);
      }
    }
  }

  /** The ledger keeps one document per day across the page. */
  lemma {:induction false} RunKeepsUniqueDates(rule: FetchRule, st: State, gs: seq<Cohort>, status: nat -> int, k: nat)
    requires AllRuns(gs) && UniqueDates(st.db)
    ensures UniqueDates(RunCohorts(rule, st, gs, status, k).state.db)
    decreases |gs|
  {
    if |gs| > 0 {
      var c := gs[0];
      var zipName := ZipFilename(c.day, st.files);
      if Fetches(rule, st.db, c) {
        var o := DownloadMedia(st, zipName, c.items, status(k));
        DownloadMediaKeepsUniqueDates(st, zipName, c.items, status(k));
        RunKeepsUniqueDates(rule, o.state, gs[1..], status, k + 1);
      } else {
        RunKeepsUniqueDates(rule, st, gs[1..], status, k);
      }
    }
  }

  /** A page whose every day already has the right count of ids changes nothing and requests nothing. */
  lemma {:induction false} AllSyncedIsNoOp(rule: FetchRule, st: State, gs: seq<Cohort>, status: nat -> int, k: nat)
    requires AllRuns(gs)
    requires forall i :: 0 <= i < |gs| ==> !Fetches(rule, st.db, gs[i])
    ensures RunCohorts(rule, st, gs, status, k) == PageOutcome(st, [])
    decreases |gs|
  {
    if |gs| > 0 {
      assert !Fetches(rule, st.db, gs[0]);
      assert forall i :: 0 <= i < |gs[1..]| ==> gs[1..][i] == gs[i + 1];
      AllSyncedIsNoOp(rule, st, gs[1..], status, k);
    }
  }

  lemma AscendingDistinct(gs: seq<Cohort>)
    requires Ascending(gs)
    ensures DistinctDays(gs)
  {
    forall i, j | 0 <= i < j < |gs| ensures gs[i].day != gs[j].day {
      assert LexLt(gs[i].day, gs[j].day);
    }
  }

  /** `download_by_date` on one listing page. */
  function DownloadByDate(rule: FetchRule, st: State, page: seq<RemoteItem>, status: nat -> int, k: nat): PageOutcome {
    RunCohorts(rule, st, BuildCohorts(page), status, k)
  }

  /**
   The archive requests of a page are its wanted cohorts in ascending day
   order, judged against the ledger as it was before the page, and the
   files on disk only grow.
   */
  lemma DownloadByDateRequests(rule: FetchRule, st: State, page: seq<RemoteItem>, status: nat -> int, k: nat)
    ensures var r := DownloadByDate(rule, st, page, status, k);
      && st.files <= r.state.files
      && Requests(r.transfers, Wanted(rule, st.db, BuildCohorts(page)), status, k)
  {
    var gs := BuildCohorts(page);
    BuildCohortsSpec(page);
    AscendingDistinct(gs);
    RunRequestsWanted(rule, st, gs, status, k);
  }

  /** A page keeps the ledger at one document per day. */
  lemma DownloadByDateKeepsUniqueDates(rule: FetchRule, st: State, page: seq<RemoteItem>, status: nat -> int, k: nat)
    requires UniqueDates(st.db)
    ensures UniqueDates(DownloadByDate(rule, st, page, status, k).state.db)
  {
    RunKeepsUniqueDates(rule, st, BuildCohorts(page), status, k);
  }

  /** Either rule fetches a cohort whose day has no ids recorded. */
  lemma FetchesUnrecorded(rule: FetchRule, db: Table, c: Cohort)
    requires IsRun(c) && GetIds(db, c.day) == []
    ensures Fetches(rule, db, c)
  {
    assert c.items[0] in c.items;
    assert Ids(c.items)[0] in Elems(Ids(c.items));
  }

  /** Neither rule fetches a cohort whose day records exactly the cohort's ids. */
  lemma SkipsRecorded(rule: FetchRule, db: Table, c: Cohort)
    requires IsRun(c) && GetIds(db, c.day) == Ids(c.items)
    ensures !Fetches(rule, db, c)
  {
    assert c.items[0] in c.items;
  }

  /**
   A cohort of a day the ledger did not know, whose own archive request
   returned 200, is in step with the ledger after the page. The request of
   the cohort at position `j` of the wanted cohorts is the `k + j`-th.
   */
  lemma ResyncCohort(rule: FetchRule, st: State, gs: seq<Cohort>, status: nat -> int, k: nat, i: nat)
    requires AllRuns(gs) && DistinctDays(gs) && i < |gs|
    requires gs[i].day !in Dates(st.db)
    requires forall j :: 0 <= j < |Wanted(rule, st.db, gs)| && Wanted(rule, st.db, gs)[j] == gs[i] ==> status(k + j) == StatusOk
    ensures !Fetches(rule, RunCohorts(rule, st, gs, status, k).state.db, gs[i])
  {
    var r, w, c := RunCohorts(rule, st, gs, status, k), Wanted(rule, st.db, gs), gs[i];
    GetIdsSpec(st.db, c.day);
    assert c in gs;
    FetchesUnrecorded(rule, st.db, c);
    WantedMembers(rule, st.db, gs, c);
    var j :| 0 <= j < |w| && w[j] == c;
    RunRequestsWanted(rule, st, gs, status, k);
    assert Succeeded(r.transfers, j);
    RunMerges(rule, st, gs, status, k, j);
    SkipsRecorded(rule, r.state.db, c);
  }

  /**
   Re-running a page is a no-op once its first run stored every day afresh:
   when none of the page's days had a ledger document and every archive
   request returned 200, a second run of the same page requests nothing and
   changes nothing, whatever the statuses would be.
   */
  lemma ResyncIsNoOp(rule: FetchRule, st: State, page: seq<RemoteItem>, status: nat -> int, k: nat, status': nat -> int, k': nat)
    requires forall c :: c in BuildCohorts(page) ==> c.day !in Dates(st.db)
    requires forall i :: k <= i < k + |BuildCohorts(page)| ==> status(i) == StatusOk
    ensures var r := DownloadByDate(rule, st, page, status, k);
      DownloadByDate(rule, r.state, page, status', k') == PageOutcome(r.state, [])
  {
    var gs := BuildCohorts(page);
    var r := DownloadByDate(rule, st, page, status, k);
    assert r == RunCohorts(rule, st, gs, status, k);
    BuildCohortsSpec(page);
    AscendingDistinct(gs);
    forall i | 0 <= i < |gs| ensures !Fetches(rule, r.state.db, gs[i]) {
      assert gs[i] in gs;
      ResyncCohort(rule, st, gs, status, k, i);
    }
    AllSyncedIsNoOp(rule, r.state, gs, status', k');
  }

  // ---------------------------------------------------------------------------
  // Re-running a page over days the ledger already knows
  // ---------------------------------------------------------------------------

  /**
   A cohort the ledger has caught up with: if the ledger's count still calls
   for a fetch, the day already holds every id of the cohort, so the fetch
   can only rewrite the same set.
   */
  predicate Absorbed(rule: FetchRule, db: Table, c: Cohort) {
    Fetches(rule, db, c) ==> c.day in View(db) && Elems(Ids(c.items)) <= View(db)[c.day]
  }

  /** A ledger entry with some id belongs to a day that has a document. */
  lemma NonEmptyIdsHaveDate(db: Table, d: string)
    requires |GetIds(db, d)| > 0
    ensures d in View(db) && View(db)[d] == Elems(GetIds(db, d))
  {
    GetIdsSpec(db, d);
  }

  /** A union with a subset of a key's entry leaves the map as it was. */
  lemma UnionAbsorbed(v: map<string, set<string>>, d: string, s: set<string>)
    requires d in v && s <= v[d]
    ensures v[d := (if d in v then v[d] else {}) + s] == v
  {
    assert v[d] + s == v[d];
  }

  /** Downloading an absorbed cohort rewrites its day with the set it already holds. */
  lemma AbsorbedDownloadKeepsView(rule: FetchRule, st: State, zipName: string, c: Cohort, status: int)
    requires IsRun(c) && Absorbed(rule, st.db, c) && Fetches(rule, st.db, c)
    ensures View(DownloadMedia(st, zipName, c.items, status).state.db) == View(st.db)
  {
    assert c.items[0] in c.items;
    DownloadMediaView(st, zipName, c.items, status);
    UnionAbsorbed(View(st.db), c.day, Elems(Ids(c.items)));
  }

  /** The cohorts of the other days stay absorbed after a download of one day. */
  lemma AbsorbedFrame(rule: FetchRule, st: State, zipName: string, c: Cohort, status: int, gs: seq<Cohort>)
    requires IsRun(c) && forall i :: 0 <= i < |gs| ==> gs[i].day != c.day && Absorbed(rule, st.db, gs[i])
    requires View(DownloadMedia(st, zipName, c.items, status).state.db) == View(st.db)
    ensures forall i :: 0 <= i < |gs| ==> Absorbed(rule, DownloadMedia(st, zipName, c.items, status).state.db, gs[i])
  {
    assert c.items[0] in c.items;
    forall i | 0 <= i < |gs| ensures Absorbed(rule, DownloadMedia(st, zipName, c.items, status).state.db, gs[i]) {
      DownloadMediaFrame(st, zipName, c.items, status, gs[i].day);
    }
  }

  /** A page whose cohorts the ledger has all absorbed leaves the day-to-set view unchanged, whatever the statuses. */
  lemma {:induction false} AbsorbedRunKeepsView(rule: FetchRule, st: State, gs: seq<Cohort>, status: nat -> int, k: nat)
    requires AllRuns(gs) && DistinctDays(gs)
    requires forall i :: 0 <= i < |gs| ==> Absorbed(rule, st.db, gs[i])
    ensures View(RunCohorts(rule, st, gs, status, k).state.db) == View(st.db)
    decreases |gs|
  {
    if |gs| > 0 {
      var c, tail := gs[0], gs[1..];
      TailDistinct(gs);
      assert forall n :: 0 <= n < |tail| ==> tail[n] == gs[n + 1];
      var zipName := ZipFilename(c.day, st.files);
      if Fetches(rule, st.db, c) {
        var o := DownloadMedia(st, zipName, c.items, status(k));
        AbsorbedDownloadKeepsView(rule, st, zipName, c, status(k));
        AbsorbedFrame(rule, st, zipName, c, status(k), tail);
        AbsorbedRunKeepsView(rule, o.state, tail, status, k + 1);
      } else {
        AbsorbedRunKeepsView(rule, st, tail, status, k);
      }
    }
  }

  /** A cohort with no successful transfer on the page keeps its ledger entry. */
  lemma UnwantedKeepsEntry(rule: FetchRule, st: State, gs: seq<Cohort>, status: nat -> int, k: nat, c: Cohort)
    requires AllRuns(gs) && DistinctDays(gs) && c in gs
    requires !Fetches(rule, st.db, c)
    ensures GetIds(RunCohorts(rule, st, gs, status, k).state.db, c.day) == GetIds(st.db, c.day)
  {
    var r, w := RunCohorts(rule, st, gs, status, k), Wanted(rule, st.db, gs);
    RunRequestsWanted(rule, st, gs, status, k);
    WantedMembers(rule, st.db, gs, c);
    forall i | Succeeded(r.transfers, i) ensures r.transfers[i].day != c.day {
      WantedMembers(rule, st.db, gs, w[i]);
      assert w[i] in w;
      var a :| 0 <= a < |gs| && gs[a] == w[i];
      var b :| 0 <= b < |gs| && gs[b] == c;
      assert a != b;
    }
    RunFrame(rule, st, gs, status, k, c.day);
  }

  /** After a page whose every archive request returned 200, the ledger has absorbed every cohort of the page. */
  lemma FirstRunAbsorbs(rule: FetchRule, st: State, gs: seq<Cohort>, status: nat -> int, k: nat, c: Cohort)
    requires AllRuns(gs) && DistinctDays(gs) && c in gs
    requires forall i :: 0 <= i < |RunCohorts(rule, st, gs, status, k).transfers| ==> RunCohorts(rule, st, gs, status, k).transfers[i].status == StatusOk
    ensures Absorbed(rule, RunCohorts(rule, st, gs, status, k).state.db, c)
  {
    var r, w := RunCohorts(rule, st, gs, status, k), Wanted(rule, st.db, gs);
    RunRequestsWanted(rule, st, gs, status, k);
    WantedMembers(rule, st.db, gs, c);
    if Fetches(rule, st.db, c) {
      var j :| 0 <= j < |w| && w[j] == c;
      assert Succeeded(r.transfers, j);
      RunMerges(rule, st, gs, status, k, j);
      assert c.items[0] in c.items;
      assert Ids(c.items)[0] in Elems(GetIds(r.state.db, c.day));
      NonEmptyIdsHaveDate(r.state.db, c.day);
    } else {
      UnwantedKeepsEntry(rule, st, gs, status, k, c);
    }
  }

  /**
   Re-running a page never changes the ledger's id sets once its first run
   succeeded: when every archive request of the first run returned 200, the
   second run leaves the day-to-set view as it was, whatever its own
   statuses. The second run may still request archives (see
   `ResyncRefetchesPartialDay`); it only rewrites the sets it finds.
   */
  lemma ResyncKeepsView(rule: FetchRule, st: State, page: seq<RemoteItem>, status: nat -> int, k: nat, status': nat -> int, k': nat)
    requires forall i :: 0 <= i < |DownloadByDate(rule, st, page, status, k).transfers| ==> DownloadByDate(rule, st, page, status, k).transfers[i].status == StatusOk
    ensures var r := DownloadByDate(rule, st, page, status, k);
      View(DownloadByDate(rule, r.state, page, status', k').state.db) == View(r.state.db)
  {
    var gs := BuildCohorts(page);
    var r := DownloadByDate(rule, st, page, status, k);
    assert r == RunCohorts(rule, st, gs, status, k);
    BuildCohortsSpec(page);
    AscendingDistinct(gs);
    forall i | 0 <= i < |gs| ensures Absorbed(rule, r.state.db, gs[i]) {
      FirstRunAbsorbs(rule, st, gs, status, k, gs[i]);
    }
    AbsorbedRunKeepsView(rule, r.state, gs, status', k');
  }

  /** A one-item page forms one cohort, of the item's day. */
  lemma SingleItemCohorts(item: RemoteItem)
    ensures BuildCohorts([item]) == [Cohort(CapturedDay(item.capturedAt), [Project(item)])]
  {
    var m := Project(item);
    assert ProjectAll([item]) == [m];
    assert SortByDay([m]) == [m];
    assert RunLength([m], m.capturedDay) == 1;
  }

  /** A page of one cohort makes at most the one archive request that cohort calls for. */
  lemma SingleCohortRun(rule: FetchRule, st: State, c: Cohort, status: nat -> int, k: nat)
    requires IsRun(c)
    ensures RunCohorts(rule, st, [c], status, k) ==
      if Fetches(rule, st.db, c) then
        var o := DownloadMedia(st, ZipFilename(c.day, st.files), c.items, status(k));
        PageOutcome(o.state, [o.transfer])
      else PageOutcome(st, [])
  {
    assert [c][1..] == [];
  }

  /** Three distinct ids: the merge of `[a, b]` with `[c]` as a set, and its size. */
  lemma ThreeIds(a: string, b: string, c: string)
    requires a != b && a != c && b != c
    ensures Elems([a, b]) + Elems([c]) == {a, b, c} && |{a, b, c}| == 3
  {
    assert {a, b, c} == {a, b} + {c} && c !in {a, b};
    assert {a, b} == {a} + {b} && b !in {a};
  }

  /** With `day: [a, b]` in the ledger, merging a third id `c` leaves three distinct ids under the day. */
  lemma PartialDayMerge(day: string, a: string, b: string, c: string)
    requires a != b && a != c && b != c
    ensures var db := InsertIds([Record(day, [a, b])], day, [c]);
      Elems(GetIds(db, day)) == {a, b, c} && |GetIds(db, day)| == 3
  {
    var t := [Record(day, [a, b])];
    assert t[0].date in Dates(t);
    GetIdsSpec(t, day);
    ThreeIds(a, b, c);
    KnownDayCount(t, day, [c]);
  }

  /**
   A day the ledger already holds other ids for is requested again on the
   next run: with `day: [a, b]` in the ledger and a page holding one item
   `c` of that day, the first run stores `a, b, c` under the day. Three ids
   differ from a cohort of one, so the second run requests the day again,
   under a new archive name, and leaves the id sets as they were.
   */
  lemma ResyncRefetchesPartialDay(item: RemoteItem, a: string, b: string, files: set<string>,
                                  status: nat -> int, k: nat, status': nat -> int, k': nat)
    requires a != b && a != item.id && b != item.id
    requires status(k) == StatusOk
    ensures var day := CapturedDay(item.capturedAt);
      var st := State([Record(day, [a, b])], files);
      var r := DownloadByDate(ByCount, st, [item], status, k);
      var r' := DownloadByDate(ByCount, r.state, [item], status', k');
      && |r.transfers| == 1 && r.transfers[0].day == day && r.transfers[0].status == StatusOk
      && Elems(GetIds(r.state.db, day)) == {a, b, item.id}
      && |r'.transfers| == 1 && r'.transfers[0].day == day
      && r'.transfers[0].path !in r.state.files
      && View(r'.state.db) == View(r.state.db)
  {
    var day := CapturedDay(item.capturedAt);
    var st := State([Record(day, [a, b])], files);
    var c := Cohort(day, [Project(item)]);
    SingleItemCohorts(item);
    assert IsRun(c) && c.items[0].capturedDay == day && Ids(c.items) == [item.id];
    var r := DownloadByDate(ByCount, st, [item], status, k);
    var o := DownloadMedia(st, ZipFilename(day, files), c.items, status(k));
    assert r == PageOutcome(o.state, [o.transfer]) by {
      assert GetIds(st.db, day) == [a, b] by {
        assert st.db[0].date in Dates(st.db);
        GetIdsSpec(st.db, day);
      }
      SingleCohortRun(ByCount, st, c, status, k);
    }
    assert o.state.db == InsertIds(st.db, day, [item.id]);
    PartialDayMerge(day, a, b, item.id);
    var r' := DownloadByDate(ByCount, r.state, [item], status', k');
    var o' := DownloadMedia(r.state, ZipFilename(day, r.state.files), c.items, status'(k'));
    assert r' == PageOutcome(o'.state, [o'.transfer]) by {
      SingleCohortRun(ByCount, r.state, c, status', k');
    }
    ResyncKeepsView(ByCount, st, [item], status, k, status', k');
  }

  // ---------------------------------------------------------------------------
  // A day split over several pages
  // ---------------------------------------------------------------------------

  /** Every day of `db` is still in `db'`, with at least the same ids. */
  predicate ViewGrows(db: Table, db': Table) {
    forall d :: d in View(db) ==> d in View(db') && View(db)[d] <= View(db')[d]
  }

  /** Every id of the cohort is recorded under its day. */
  predicate CohortRecorded(db: Table, c: Cohort) {
    c.day in View(db) && Elems(Ids(c.items)) <= View(db)[c.day]
  }

  /** The item's id is recorded under the day of its `captured_at`. */
  predicate ItemRecorded(db: Table, item: RemoteItem) {
    item.id in GetIds(db, CapturedDay(item.capturedAt))
  }

  /** An item is recorded exactly when the ledger's view holds its id under its day. */
  lemma ItemRecordedInView(db: Table, item: RemoteItem)
    ensures var day := CapturedDay(item.capturedAt);
      ItemRecorded(db, item) <==> day in View(db) && item.id in View(db)[day]
  {
    GetIdsSpec(db, CapturedDay(item.capturedAt));
  }

  /** A download only adds ids to the ledger. */
  lemma DownloadGrowsView(st: State, zipName: string, items: seq<Media>, status: int)
    requires |items| > 0
    ensures ViewGrows(st.db, DownloadMedia(st, zipName, items, status).state.db)
  {
    DownloadMediaView(st, zipName, items, status);
  }

  /** A page, under either rule and whatever the statuses, only adds ids to the ledger. */
  lemma {:induction false} RunGrowsView(rule: FetchRule, st: State, gs: seq<Cohort>, status: nat -> int, k: nat)
    requires AllRuns(gs)
    ensures ViewGrows(st.db, RunCohorts(rule, st, gs, status, k).state.db)
    decreases |gs|
  {
    if |gs| > 0 {
      var c := gs[0];
      var zipName := ZipFilename(c.day, st.files);
      if Fetches(rule, st.db, c) {
        var o := DownloadMedia(st, zipName, c.items, status(k));
        DownloadGrowsView(st, zipName, c.items, status(k));
        RunGrowsView(rule, o.state, gs[1..], status, k + 1);
      } else {
        RunGrowsView(rule, st, gs[1..], status, k);
      }
    }
  }

  /** Under the corrected rule, a cohort that is not fetched is already recorded. */
  lemma SkippedIsRecorded(db: Table, c: Cohort)
    requires IsRun(c) && !Fetches(BySet, db, c)
    ensures CohortRecorded(db, c)
  {
    assert c.items[0] in c.items;
    assert Ids(c.items)[0] in Elems(Ids(c.items));
    NonEmptyIdsHaveDate(db, c.day);
  }

  /** A recorded cohort is not fetched under the corrected rule. */
  lemma RecordedIsSkipped(db: Table, c: Cohort)
    requires CohortRecorded(db, c)
    ensures !Fetches(BySet, db, c)
  {
  }

  /** Under the corrected rule, a successful download records the cohort. */
  lemma DownloadRecords(st: State, zipName: string, c: Cohort)
    requires IsRun(c)
    ensures CohortRecorded(DownloadMedia(st, zipName, c.items, StatusOk).state.db, c)
  {
    assert c.items[0] in c.items;
    DownloadMediaView(st, zipName, c.items, StatusOk);
  }

  /**
   Under the corrected rule, after a page whose every archive request
   returned 200, every cohort of the page is recorded: each id of the page
   is in the ledger under its day, whatever the ledger held before.
   */
  lemma {:induction false} BySetRecordsPage(st: State, gs: seq<Cohort>, status: nat -> int, k: nat)
    requires AllRuns(gs)
    requires forall i :: 0 <= i < |RunCohorts(BySet, st, gs, status, k).transfers| ==> RunCohorts(BySet, st, gs, status, k).transfers[i].status == StatusOk
    ensures forall i :: 0 <= i < |gs| ==> CohortRecorded(RunCohorts(BySet, st, gs, status, k).state.db, gs[i])
    decreases |gs|
  {
    if |gs| > 0 {
      var c, tail := gs[0], gs[1..];
      var zipName := ZipFilename(c.day, st.files);
      var r := RunCohorts(BySet, st, gs, status, k);
      var mid: State, k': nat;
      if Fetches(BySet, st.db, c) {
        mid, k' := DownloadMedia(st, zipName, c.items, status(k)).state, k + 1;
        var rest := RunCohorts(BySet, mid, tail, status, k');
        assert r.transfers == [DownloadMedia(st, zipName, c.items, status(k)).transfer] + rest.transfers;
        assert r.transfers[0].status == status(k);
        forall n | 0 <= n < |rest.transfers| ensures rest.transfers[n].status == StatusOk {
          assert r.transfers[n + 1] == rest.transfers[n];
        }
        DownloadRecords(st, zipName, c);
      } else {
        mid, k' := st, k;
        SkippedIsRecorded(st.db, c);
      }
      assert r.state == RunCohorts(BySet, mid, tail, status, k').state;
      BySetRecordsPage(mid, tail, status, k');
      RunGrowsView(BySet, mid, tail, status, k');
      var db' := RunCohorts(BySet, mid, tail, status, k').state.db;
      forall i | 0 <= i < |gs| ensures CohortRecorded(db', gs[i]) {
        if i == 0 {
          RecordedPersists(mid.db, db', c);
        } else {
          assert gs[i] == tail[i - 1];
        }
      }
    }
  }

  /** A recorded cohort stays recorded while the ledger only grows. */
  lemma RecordedPersists(db: Table, db': Table, c: Cohort)
    requires CohortRecorded(db, c) && ViewGrows(db, db')
    ensures CohortRecorded(db', c)
  {
  }

  lemma IdsHasId(items: seq<Media>, m: Media)
    requires m in items
    ensures m.id in Elems(Ids(items))
  {
    var n :| 0 <= n < |items| && items[n] == m;
    assert Ids(items)[n] == m.id;
  }

  /** A page, under either rule and whatever the statuses, only adds ids to the ledger. */
  lemma DownloadByDateGrowsView(rule: FetchRule, st: State, page: seq<RemoteItem>, status: nat -> int, k: nat)
    ensures ViewGrows(st.db, DownloadByDate(rule, st, page, status, k).state.db)
  {
    RunGrowsView(rule, st, BuildCohorts(page), status, k);
  }

  /**
   Under the corrected rule, after a page whose every archive request
   returned 200, the id of every item of the page is recorded under the day
   of its `captured_at`.
   */
  lemma BySetPageRecordsItems(st: State, page: seq<RemoteItem>, status: nat -> int, k: nat)
    requires forall i :: 0 <= i < |DownloadByDate(BySet, st, page, status, k).transfers| ==> DownloadByDate(BySet, st, page, status, k).transfers[i].status == StatusOk
    ensures forall j :: 0 <= j < |page| ==> ItemRecorded(DownloadByDate(BySet, st, page, status, k).state.db, page[j])
  {
    var gs := BuildCohorts(page);
    var db := DownloadByDate(BySet, st, page, status, k).state.db;
    BySetRecordsPage(st, gs, status, k);
    forall j | 0 <= j < |page| ensures ItemRecorded(db, page[j]) {
      EveryItemHasItsCohort(page, j);
      var i :| 0 <= i < |gs| && gs[i].day == CapturedDay(page[j].capturedAt) && Project(page[j]) in gs[i].items;
      IdsHasId(gs[i].items, Project(page[j]));
      assert CohortRecorded(db, gs[i]);
    }
  }

  /**
   Under the corrected rule, re-running a page right after a run whose
   every archive request returned 200 requests nothing and changes nothing,
   whatever the ledger held before the first run.
   */
  lemma BySetResyncIsNoOp(st: State, page: seq<RemoteItem>, status: nat -> int, k: nat, status': nat -> int, k': nat)
    requires forall i :: 0 <= i < |DownloadByDate(BySet, st, page, status, k).transfers| ==> DownloadByDate(BySet, st, page, status, k).transfers[i].status == StatusOk
    ensures var r := DownloadByDate(BySet, st, page, status, k);
      DownloadByDate(BySet, r.state, page, status', k') == PageOutcome(r.state, [])
  {
    var gs := BuildCohorts(page);
    var r := DownloadByDate(BySet, st, page, status, k);
    BySetRecordsPage(st, gs, status, k);
    forall i | 0 <= i < |gs| ensures !Fetches(BySet, r.state.db, gs[i]) {
      RecordedIsSkipped(r.state.db, gs[i]);
    }
    AllSyncedIsNoOp(BySet, r.state, gs, status', k');
  }

  /** Two items of one day form one cohort, in page order. */
  lemma TwoItemCohorts(x: RemoteItem, y: RemoteItem)
    requires CapturedDay(x.capturedAt) == CapturedDay(y.capturedAt)
    ensures BuildCohorts([x, y]) == [Cohort(CapturedDay(x.capturedAt), [Project(x), Project(y)])]
  {
    var mx, my := Project(x), Project(y);
    assert ProjectAll([x, y]) == [mx, my];
    assert SortByDay([my]) == [my];
    LexLeRefl(mx.capturedDay);
    assert SortByDay([mx, my]) == InsertByDay(mx, [my]) == [mx, my];
    var ms := [mx, my];
    assert ms[1..] == [my] && [my][1..] == [];
    assert RunLength([my], mx.capturedDay) == 1;
    assert RunLength(ms, mx.capturedDay) == 2;
    assert ms[..2] == ms && ms[2..] == [];
    assert GroupRuns(ms) == [Cohort(mx.capturedDay, ms)] + GroupRuns([]);
  }

  /**
   As written, half of a day can be skipped for good. With an empty ledger,
   one day split over two pages of two items each, `[x1, x2]` then
   `[y1, y2]`, and a first archive request that returns 200: the first page
   stores two ids under the day, the second page finds two ids for its two
   items and is skipped, and neither page requests anything on a re-run, so
   `y1` is never recorded on any later run.
   */
  lemma EvenSplitNeverFetched(x1: RemoteItem, x2: RemoteItem, y1: RemoteItem, y2: RemoteItem, files: set<string>,
                              status: nat -> int, k: nat, status': nat -> int, k': nat)
    requires CapturedDay(x1.capturedAt) == CapturedDay(x2.capturedAt) == CapturedDay(y1.capturedAt) == CapturedDay(y2.capturedAt)
    requires y1.id != x1.id && y1.id != x2.id
    requires status(k) == StatusOk
    ensures var day := CapturedDay(x1.capturedAt);
      var p1 := DownloadByDate(ByCount, State([], files), [x1, x2], status, k);
      var p2 := DownloadByDate(ByCount, p1.state, [y1, y2], status, k + 1);
      && |p1.transfers| == 1 && p1.transfers[0].status == StatusOk
      && p2 == PageOutcome(p1.state, [])
      && !ItemRecorded(p2.state.db, y1)
      && DownloadByDate(ByCount, p2.state, [x1, x2], status', k') == PageOutcome(p2.state, [])
      && DownloadByDate(ByCount, p2.state, [y1, y2], status', k') == PageOutcome(p2.state, [])
  {
    var day := CapturedDay(x1.capturedAt);
    var st := State([], files);
    var cx := Cohort(day, [Project(x1), Project(x2)]);
    var cy := Cohort(day, [Project(y1), Project(y2)]);
    TwoItemCohorts(x1, x2);
    TwoItemCohorts(y1, y2);
    assert IsRun(cx) && IsRun(cy);
    var o := DownloadMedia(st, ZipFilename(day, files), cx.items, status(k));
    assert DownloadByDate(ByCount, st, [x1, x2], status, k) == PageOutcome(o.state, [o.transfer]) by {
      SingleCohortRun(ByCount, st, cx, status, k);
    }
    var db := o.state.db;
    assert cx.items[0].capturedDay == day && Ids(cx.items) == [x1.id, x2.id];
    assert Find([], day).None?;
    assert db == [Record(day, [x1.id, x2.id])];
    assert GetIds(db, day) == [x1.id, x2.id] by {
      assert db[0].date == day;
    }
    SingleCohortRun(ByCount, o.state, cy, status, k + 1);
    SingleCohortRun(ByCount, o.state, cx, status', k');
    SingleCohortRun(ByCount, o.state, cy, status', k');
    assert View(db)[day] == {x1.id, x2.id} by {
      assert db[0].date in Dates(db);
      assert Elems([x1.id, x2.id]) == {x1.id, x2.id};
    }
  }

  /** A page, under either rule and whatever the statuses, never forgets a recorded item. */
  lemma DownloadByDateKeepsItem(rule: FetchRule, st: State, page: seq<RemoteItem>, status: nat -> int, k: nat, item: RemoteItem)
    requires ItemRecorded(st.db, item)
    ensures ItemRecorded(DownloadByDate(rule, st, page, status, k).state.db, item)
  {
    var db' := DownloadByDate(rule, st, page, status, k).state.db;
    DownloadByDateGrowsView(rule, st, page, status, k);
    ItemRecordedInView(st.db, item);
    ItemRecordedInView(db', item);
  }
}
