/**
 The page loop of `main`: search page 1 with the configured page size, run
 `download_by_date` on it, then search and process the later pages until the
 plan is exhausted or a search comes back falsy.

 The media search endpoint is an input: `listing(q)` is the answer to the
 search request `q`, `None` standing for every falsy answer (`None` after a
 401 or another failure status, or an empty JSON object). The archive
 endpoint is `status(k)`, the HTTP status of the `k`-th archive request of
 the run.
 */
module Pagination {
  import opened Wrappers
  import opened Cohorts
  import opened Ledger
  import opened Sync

  /** The `per_page` default of `search_media`, which the later pages fall back to. */
  const DefaultPerPage: nat := 30

  /** One call of `search_media`: the page number and the page size sent. */
  datatype Request = Request(page: nat, perPage: nat)

  /** A truthy search answer: the page's media and `_pages.total_pages`. */
  datatype Response = Response(media: seq<RemoteItem>, totalPages: int)

  /** Which page plan the loop follows: the one written in `main`, or the one its comments describe. */
  datatype PlanKind = AsWritten | Corrected

  /** What one run of the program did: the final state, every search request, every archive request, and whether it stopped early. */
  datatype RunResult = RunResult(state: State, requests: seq<Request>, transfers: seq<Transfer>, aborted: bool)

  // ---------------------------------------------------------------------------
  // Page plans
  // ---------------------------------------------------------------------------

  /** Page 1 with the configured size, then `range(2, total_pages)` with the default size. */
  function SourcePlan(perPage: nat, totalPages: int): seq<Request> {
    [Request(1, perPage)] + seq(if totalPages > 2 then totalPages - 2 else 0, (i: nat) => Request(i + 2, DefaultPerPage))
  }

  /** Every page from 1 to `total_pages`, all with the configured size (page 1 alone when there are none). */
  function IntendedPlan(perPage: nat, totalPages: int): seq<Request> {
    seq(if totalPages > 1 then totalPages else 1, (i: nat) => Request(i + 1, perPage))
  }

  function Plan(kind: PlanKind, perPage: nat, totalPages: int): (plan: seq<Request>)
    ensures |plan| >= 1 && plan[0] == Request(1, perPage)
  {
    match kind
    case AsWritten => SourcePlan(perPage, totalPages)
    case Corrected => IntendedPlan(perPage, totalPages)
  }

  // ---------------------------------------------------------------------------
  // The loop as a recursive reference
  // ---------------------------------------------------------------------------

  /** The work done on one search answer, given the number of archive requests made before it. */
  type PageStep = (State, seq<RemoteItem>, nat) -> PageOutcome

  /** The page step of the program: `download_by_date`, with the given test for which cohorts to download. */
  function DownloadStep(rule: FetchRule, status: nat -> int): PageStep {
    (s: State, media: seq<RemoteItem>, k: nat) => DownloadByDate(rule, s, media, status, k)
  }

  /**
   Search the requests of `plan` in order and run `step` on each answer,
   stopping right after the first falsy answer; `k` counts the archive
   requests made before.
   */
  function PlanRun(st: State, plan: seq<Request>, listing: Request -> Option<Response>, step: PageStep, k: nat): RunResult
    decreases |plan|
  {
    if |plan| == 0 then RunResult(st, [], [], false)
    else
      match listing(plan[0])
      case None => RunResult(st, [plan[0]], [], true)
      case Some(resp) =>
        var p := step(st, resp.media, k);
        var rest := PlanRun(p.state, plan[1..], listing, step, k + |p.transfers|);
        RunResult(rest.state, [plan[0]] + rest.requests, p.transfers + rest.transfers, rest.aborted)
  }

  /**
   The loop searches a prefix of the plan in order; every answer but the
   last one searched was truthy, the last one was falsy exactly when the run
   stopped early, and a run that did not stop searched the whole plan.
   */
  lemma {:induction false} PlanRunRequests(st: State, plan: seq<Request>, listing: Request -> Option<Response>, step: PageStep, k: nat)
    ensures var r := PlanRun(st, plan, listing, step, k);
      && |r.requests| <= |plan| && r.requests == plan[..|r.requests|]
      && (forall i :: 0 <= i < |r.requests| ==> (listing(r.requests[i]).None? <==> r.aborted && i == |r.requests| - 1))
      && (!r.aborted ==> r.requests == plan)
      && (r.aborted ==> |r.requests| > 0)
    decreases |plan|
  {
    if |plan| > 0 && listing(plan[0]).Some? {
      var p := step(st, listing(plan[0]).value.media, k);
      var rest := PlanRun(p.state, plan[1..], listing, step, k + |p.transfers|);
      PlanRunRequests(p.state, plan[1..], listing, step, k + |p.transfers|);
      var r := PlanRun(st, plan, listing, step, k);
      assert r.requests == [plan[0]] + rest.requests;
      assert forall i :: 1 <= i < |r.requests| ==> r.requests[i] == rest.requests[i - 1];
      assert plan == [plan[0]] + plan[1..];
      assert plan[..|r.requests|] == [plan[0]] + plan[1..][..|rest.requests|];
    }
  }

  /** `main` after authentication: page 1 decides the plan through its `total_pages`. */
  function ProgramRun(st: State, perPage: nat, kind: PlanKind, listing: Request -> Option<Response>, step: PageStep): RunResult {
    var first := Request(1, perPage);
    match listing(first)
    case None => RunResult(st, [first], [], true)
    case Some(resp) =>
      var p := step(st, resp.media, 0);
      var rest := PlanRun(p.state, Plan(kind, perPage, resp.totalPages)[1..], listing, step, |p.transfers|);
      RunResult(rest.state, [first] + rest.requests, p.transfers + rest.transfers, rest.aborted)
  }

  // ---------------------------------------------------------------------------
  // The loop as the program runs it
  // ---------------------------------------------------------------------------

  /** A run whose first requests and transfers are already known. */
  function After(requests: seq<Request>, transfers: seq<Transfer>, tail: RunResult): RunResult {
    RunResult(tail.state, requests + tail.requests, transfers + tail.transfers, tail.aborted)
  }

  lemma AfterAfter(rs: seq<Request>, ts: seq<Transfer>, rs': seq<Request>, ts': seq<Transfer>, tail: RunResult)
    ensures After(rs, ts, After(rs', ts', tail)) == After(rs + rs', ts + ts', tail)
  {
    assert rs + (rs' + tail.requests) == (rs + rs') + tail.requests;
    assert ts + (ts' + tail.transfers) == (ts + ts') + tail.transfers;
  }

  /** One turn of the loop on an answered request: process its page, then carry on with the rest of the plan. */
  lemma PlanRunStep(whole: RunResult, requests: seq<Request>, transfers: seq<Transfer>, st: State, todo: seq<Request>,
                    listing: Request -> Option<Response>, step: PageStep, k: nat, resp: Response)
    requires |todo| > 0 && listing(todo[0]) == Some(resp)
    requires whole == After(requests, transfers, PlanRun(st, todo, listing, step, k + |transfers|))
    ensures var p := step(st, resp.media, k + |transfers|);
      whole == After(requests + [todo[0]], transfers + p.transfers,
                     PlanRun(p.state, todo[1..], listing, step, k + |transfers + p.transfers|))
  {
    var p := step(st, resp.media, k + |transfers|);
    var next := PlanRun(p.state, todo[1..], listing, step, k + |transfers| + |p.transfers|);
    assert PlanRun(st, todo, listing, step, k + |transfers|) == After([todo[0]], p.transfers, next);
    AfterAfter(requests, transfers, [todo[0]], p.transfers, next);
  }

  /** The loop's exit on a falsy answer: the request is recorded and the run stops. */
  lemma PlanRunStop(whole: RunResult, requests: seq<Request>, transfers: seq<Transfer>, st: State, todo: seq<Request>,
                    listing: Request -> Option<Response>, step: PageStep, k: nat)
    requires |todo| > 0 && listing(todo[0]).None?
    requires whole == After(requests, transfers, PlanRun(st, todo, listing, step, k + |transfers|))
    ensures whole == RunResult(st, requests + [todo[0]], transfers, true)
  {
    assert transfers + [] == transfers;
  }

  /** The loop's normal exit: the plan is exhausted. */
  lemma PlanRunDone(whole: RunResult, requests: seq<Request>, transfers: seq<Transfer>, st: State,
                    listing: Request -> Option<Response>, step: PageStep, k: nat)
    requires whole == After(requests, transfers, PlanRun(st, [], listing, step, k + |transfers|))
    ensures whole == RunResult(st, requests, transfers, false)
  {
    assert requests + [] == requests && transfers + [] == transfers;
  }

  /** The `for page in ...` loop: search each page of the plan in turn and process it, returning at the first falsy answer. */
  method RunPlan(st: State, plan: seq<Request>, listing: Request -> Option<Response>, step: PageStep, k: nat)
    returns (r: RunResult)
    ensures r == PlanRun(st, plan, listing, step, k)
  {
    var cur, requests, transfers, todo := st, [], [], plan;
    ghost var whole := PlanRun(st, plan, listing, step, k);
    assert whole == After([], [], whole);
    while |todo| > 0
      invariant whole == After(requests, transfers, PlanRun(cur, todo, listing, step, k + |transfers|))
      decreases |todo|
    {
      var a := listing(todo[0]);
      if a.None? {
        PlanRunStop(whole, requests, transfers, cur, todo, listing, step, k);
        return RunResult(cur, requests + [todo[0]], transfers, true);
      }
      PlanRunStep(whole, requests, transfers, cur, todo, listing, step, k, a.value);
      var page := step(cur, a.value.media, k + |transfers|);
      cur, requests, transfers, todo := page.state, requests + [todo[0]], transfers + page.transfers, todo[1..];
    }
    PlanRunDone(whole, requests, transfers, cur, listing, step, k);
    r := RunResult(cur, requests, transfers, false);
  }

  /**
   `main`: search page 1 with the configured size and process it, then run
   the page loop over the rest of the plan its `total_pages` gives. Page 1
   is searched first; the searches are a prefix of that plan, all of it
   unless the run stopped, and the run stops exactly at the first falsy
   answer. No file is removed and the ledger keeps one document per day.
   */
  method RunProgram(st: State, perPage: nat, kind: PlanKind, rule: FetchRule, listing: Request -> Option<Response>, status: nat -> int)
    returns (r: RunResult)
    ensures |r.requests| >= 1 && r.requests[0] == Request(1, perPage)
    ensures forall i :: 0 <= i < |r.requests| ==> (listing(r.requests[i]).None? <==> r.aborted && i == |r.requests| - 1)
    ensures listing(Request(1, perPage)).Some? ==>
      var plan := Plan(kind, perPage, listing(Request(1, perPage)).value.totalPages);
      && |r.requests| <= |plan| && r.requests == plan[..|r.requests|]
      && (!r.aborted ==> r.requests == plan)
    ensures st.files <= r.state.files
    ensures UniqueDates(st.db) ==> UniqueDates(r.state.db)
    ensures r == ProgramRun(st, perPage, kind, listing, DownloadStep(rule, status))
  {
    ProgramRequests(st, perPage, kind, listing, DownloadStep(rule, status));
    ProgramKeepsInvariants(st, perPage, kind, rule, listing, status);
    var first := Request(1, perPage);
    var answer := listing(first);
    if answer.None? {
      return RunResult(st, [first], [], true);
    }
    var step := DownloadStep(rule, status);
    var p := step(st, answer.value.media, 0);
    var rest := RunPlan(p.state, Plan(kind, perPage, answer.value.totalPages)[1..], listing, step, |p.transfers|);
    r := RunResult(rest.state, [first] + rest.requests, p.transfers + rest.transfers, rest.aborted);
  }

  // ---------------------------------------------------------------------------
  // Properties of a whole run
  // ---------------------------------------------------------------------------

  /**
   `main` searches page 1 with the configured size first; when that answer
   is truthy, the later searches follow the plan its `total_pages` gives, in
   order. The run stops exactly at the first falsy answer, and a run that did
   not stop searched the whole plan.
   */
  lemma ProgramRequests(st: State, perPage: nat, kind: PlanKind, listing: Request -> Option<Response>, step: PageStep)
    ensures var r, first := ProgramRun(st, perPage, kind, listing, step), Request(1, perPage);
      && |r.requests| >= 1 && r.requests[0] == first
      && (forall i :: 0 <= i < |r.requests| ==> (listing(r.requests[i]).None? <==> r.aborted && i == |r.requests| - 1))
      && (listing(first).Some? ==>
            var plan := Plan(kind, perPage, listing(first).value.totalPages);
            && |r.requests| <= |plan| && r.requests == plan[..|r.requests|]
            && (!r.aborted ==> r.requests == plan))
  {
    var first := Request(1, perPage);
    if listing(first).Some? {
      var plan := Plan(kind, perPage, listing(first).value.totalPages);
      ProgramIsPlanRun(st, perPage, kind, listing, step);
      PlanRunRequests(st, plan, listing, step, 0);
    }
  }

  /** Once page 1 is answered, `main` is the page loop over the whole plan that answer gives, page 1 included. */
  lemma ProgramIsPlanRun(st: State, perPage: nat, kind: PlanKind, listing: Request -> Option<Response>, step: PageStep)
    requires listing(Request(1, perPage)).Some?
    ensures ProgramRun(st, perPage, kind, listing, step) ==
      PlanRun(st, Plan(kind, perPage, listing(Request(1, perPage)).value.totalPages), listing, step, 0)
  {
    var plan := Plan(kind, perPage, listing(Request(1, perPage)).value.totalPages);
    assert plan[0] == Request(1, perPage);
  }

  /** A page step that never removes a file and keeps the ledger at one document per day. */
  ghost predicate SafeStep(step: PageStep) {
    forall s: State, media: seq<RemoteItem>, k: nat ::
      s.files <= step(s, media, k).state.files && (UniqueDates(s.db) ==> UniqueDates(step(s, media, k).state.db))
  }

  /** `download_by_date` is such a step. */
  lemma DownloadStepSafe(rule: FetchRule, status: nat -> int)
    ensures SafeStep(DownloadStep(rule, status))
  {
    forall s: State, media: seq<RemoteItem>, k: nat
      ensures s.files <= DownloadByDate(rule, s, media, status, k).state.files
      ensures UniqueDates(s.db) ==> UniqueDates(DownloadByDate(rule, s, media, status, k).state.db)
    {
      DownloadByDateRequests(rule, s, media, status, k);
      if UniqueDates(s.db) {
        DownloadByDateKeepsUniqueDates(rule, s, media, status, k);
      }
    }
  }

  /** Over the pages of a plan, files are never removed and the ledger keeps one document per day. */
  lemma {:induction false} PlanRunSafe(st: State, plan: seq<Request>, listing: Request -> Option<Response>, step: PageStep, k: nat)
    requires SafeStep(step)
    ensures st.files <= PlanRun(st, plan, listing, step, k).state.files
    ensures UniqueDates(st.db) ==> UniqueDates(PlanRun(st, plan, listing, step, k).state.db)
    decreases |plan|
  {
    if |plan| > 0 && listing(plan[0]).Some? {
      var p := step(st, listing(plan[0]).value.media, k);
      PlanRunSafe(p.state, plan[1..], listing, step, k + |p.transfers|);
    }
  }

  /** A whole run of the program keeps one ledger document per day and never removes a file. */
  lemma ProgramKeepsInvariants(st: State, perPage: nat, kind: PlanKind, rule: FetchRule, listing: Request -> Option<Response>, status: nat -> int)
    ensures st.files <= ProgramRun(st, perPage, kind, listing, DownloadStep(rule, status)).state.files
    ensures UniqueDates(st.db) ==> UniqueDates(ProgramRun(st, perPage, kind, listing, DownloadStep(rule, status)).state.db)
  {
    var step := DownloadStep(rule, status);
    DownloadStepSafe(rule, status);
    var first := Request(1, perPage);
    if listing(first).Some? {
      var resp := listing(first).value;
      var p := step(st, resp.media, 0);
      PlanRunSafe(p.state, Plan(kind, perPage, resp.totalPages)[1..], listing, step, |p.transfers|);
    }
  }

  // ---------------------------------------------------------------------------
  // Which items a plan lists
  // ---------------------------------------------------------------------------

  /**
   The search endpoint pages through one fixed result list: page `p` of size
   `s` holds the items at positions `(p - 1) * s` up to `p * s`.
   */
  predicate Covers(q: Request, j: nat) {
    q.page >= 1 && (q.page - 1) * q.perPage <= j < q.page * q.perPage
  }

  /** `total_pages` for `n` items at `perPage` items a page. */
  function PageCount(n: nat, perPage: nat): nat
    requires perPage >= 1
  {
    (n + perPage - 1) / perPage
  }

  /** The page that holds item `j` at `perPage` items a page. */
  function PageOf(j: nat, perPage: nat): nat
    requires perPage >= 1
  {
    j / perPage + 1
  }

  /** Page `PageOf(j, s)` of size `s` holds item `j`, and it is a page of the listing when `j < n`. */
  lemma ItemPage(n: nat, perPage: nat, j: nat)
    requires perPage >= 1 && j < n
    ensures Covers(Request(PageOf(j, perPage), perPage), j)
    ensures PageOf(j, perPage) <= PageCount(n, perPage)
  {
    var q, s := j / perPage, perPage;
    DivBounds(j, s);
    var x := n + s - 1;
    DivBounds(x, s);
    var c := x / s;
    if c <= q {
      MulMono(c, q, s);
    }
  }

  /** Euclidean division of `j` by `s` brackets `j` between two neighbouring multiples of `s`. */
  lemma DivBounds(j: nat, s: nat)
    requires s >= 1
    ensures (j / s) * s <= j < (j / s) * s + s
  {
    assert j == (j / s) * s + j % s;
  }

  lemma MulMono(a: nat, b: nat, s: nat)
    requires a <= b
    ensures a * s <= b * s
  {
    assert b * s == a * s + (b - a) * s;
  }

  /** The corrected plan lists every item of the result: item `j` is on a page it searches. */
  lemma IntendedPlanCoversAll(n: nat, perPage: nat)
    requires perPage >= 1
    ensures forall j :: 0 <= j < n ==>
      Request(PageOf(j, perPage), perPage) in IntendedPlan(perPage, PageCount(n, perPage)) && Covers(Request(PageOf(j, perPage), perPage), j)
  {
    var plan := IntendedPlan(perPage, PageCount(n, perPage));
    forall j | 0 <= j < n
      ensures Request(PageOf(j, perPage), perPage) in plan && Covers(Request(PageOf(j, perPage), perPage), j)
    {
      ItemPage(n, perPage, j);
      var i := PageOf(j, perPage) - 1;
      assert plan[i] == Request(i + 1, perPage);
    }
  }

  /** When `total_pages` is 2 or more, the plan as written never searches the last page. */
  lemma SourcePlanSkipsLastPage(perPage: nat, totalPages: nat)
    requires totalPages >= 2
    ensures forall q :: q in SourcePlan(perPage, totalPages) ==> q.page < totalPages
  {
  }

  /**
   45 items at the default 30 a page make two pages, but only page 1 is
   searched: item 30 is never listed.
   */
  lemma LastPageMissed()
    ensures PageCount(45, 30) == 2
    ensures SourcePlan(30, 2) == [Request(1, 30)]
    ensures forall q :: q in SourcePlan(30, 2) ==> !Covers(q, 30)
  {
  }

  /**
   25 items at 10 a page make three pages. As written, page 2 is then
   searched at the default size 30 and holds positions 30 to 59, and page 3
   is never searched, so no run lists item 10.
   */
  lemma MixedPageSizeMisses(st: State, listing: Request -> Option<Response>, step: PageStep)
    requires listing(Request(1, 10)).Some? && listing(Request(1, 10)).value.totalPages == PageCount(25, 10)
    ensures forall q :: q in ProgramRun(st, 10, AsWritten, listing, step).requests ==> !Covers(q, 10)
  {
    var r := ProgramRun(st, 10, AsWritten, listing, step);
    ProgramRequests(st, 10, AsWritten, listing, step);
    var plan := SourcePlan(10, 3);
    assert plan == [Request(1, 10), Request(2, DefaultPerPage)] by {
      assert plan[1] == Request(2, DefaultPerPage);
    }
    forall q | q in r.requests ensures !Covers(q, 10) {
      var i :| 0 <= i < |r.requests| && r.requests[i] == q;
      assert q == plan[i];
    }
  }

  /** As written, when `total_pages` is 2 or more, no run of the program ever searches the page numbered `total_pages`. */
  lemma RunSkipsLastPage(st: State, perPage: nat, listing: Request -> Option<Response>, step: PageStep)
    requires listing(Request(1, perPage)).Some? && listing(Request(1, perPage)).value.totalPages >= 2
    ensures forall q :: q in ProgramRun(st, perPage, AsWritten, listing, step).requests ==>
      q.page < listing(Request(1, perPage)).value.totalPages
  {
    var total := listing(Request(1, perPage)).value.totalPages;
    var r := ProgramRun(st, perPage, AsWritten, listing, step);
    ProgramRequests(st, perPage, AsWritten, listing, step);
    SourcePlanSkipsLastPage(perPage, total);
    forall q | q in r.requests ensures q.page < total {
      var i :| 0 <= i < |r.requests| && r.requests[i] == q;
      assert q in SourcePlan(perPage, total);
    }
  }

  /**
   As written, the run searches page 1 with the configured size and then
   pages 2, 3, ... in increasing order, each with the default size 30 rather
   than the configured one.
   */
  lemma AsWrittenPageOrder(st: State, perPage: nat, listing: Request -> Option<Response>, step: PageStep)
    ensures var r := ProgramRun(st, perPage, AsWritten, listing, step);
      && r.requests[0] == Request(1, perPage)
      && forall i :: 1 <= i < |r.requests| ==> r.requests[i] == Request(i + 1, DefaultPerPage)
  {
    var r := ProgramRun(st, perPage, AsWritten, listing, step);
    ProgramRequests(st, perPage, AsWritten, listing, step);
    if listing(Request(1, perPage)).Some? {
      var plan := SourcePlan(perPage, listing(Request(1, perPage)).value.totalPages);
      forall i | 1 <= i < |r.requests| ensures r.requests[i] == Request(i + 1, DefaultPerPage) {
        assert r.requests[i] == plan[i];
      }
    }
  }

  /**
   With the corrected plan, a run that is not cut short by a falsy answer
   lists every item of an `n`-item result whose page 1 reports the true
   `total_pages`.
   */
  lemma CorrectedRunListsAll(st: State, perPage: nat, listing: Request -> Option<Response>, step: PageStep, n: nat)
    requires perPage >= 1
    requires listing(Request(1, perPage)).Some? && listing(Request(1, perPage)).value.totalPages == PageCount(n, perPage)
    requires !ProgramRun(st, perPage, Corrected, listing, step).aborted
    ensures forall j :: 0 <= j < n ==>
      Request(PageOf(j, perPage), perPage) in ProgramRun(st, perPage, Corrected, listing, step).requests
  {
    ProgramRequests(st, perPage, Corrected, listing, step);
    IntendedPlanCoversAll(n, perPage);
  }

  // ---------------------------------------------------------------------------
  // What a run records
  // ---------------------------------------------------------------------------

  /** Every archive request in `ts` returned 200. */
  predicate AllOk(ts: seq<Transfer>) {
    forall i :: 0 <= i < |ts| ==> ts[i].status == StatusOk
  }

  /** Every item of every page the run searched and got an answer for is recorded in the run's final ledger. */
  predicate RecordsAnswered(r: RunResult, listing: Request -> Option<Response>) {
    forall q :: q in r.requests && listing(q).Some? ==>
      forall item :: item in listing(q).value.media ==> ItemRecorded(r.state.db, item)
  }

  /** A page step that never forgets a recorded item. */
  ghost predicate KeepsRecorded(step: PageStep) {
    forall s: State, media: seq<RemoteItem>, k: nat, item: RemoteItem ::
      ItemRecorded(s.db, item) ==> ItemRecorded(step(s, media, k).state.db, item)
  }

  /** A page step that, when all its archive requests return 200, records every item of the page. */
  ghost predicate RecordsOnSuccess(step: PageStep) {
    forall s: State, media: seq<RemoteItem>, k: nat, item: RemoteItem ::
      item in media && AllOk(step(s, media, k).transfers) ==> ItemRecorded(step(s, media, k).state.db, item)
  }

  /** `download_by_date` never forgets a recorded item, under either rule. */
  lemma DownloadStepKeepsRecorded(rule: FetchRule, status: nat -> int)
    ensures KeepsRecorded(DownloadStep(rule, status))
  {
    forall s: State, media: seq<RemoteItem>, k: nat, item: RemoteItem | ItemRecorded(s.db, item)
      ensures ItemRecorded(DownloadByDate(rule, s, media, status, k).state.db, item)
    {
      DownloadByDateKeepsItem(rule, s, media, status, k, item);
    }
  }

  /** Under the corrected rule, a page whose archive requests all return 200 is recorded in full. */
  lemma BySetStepRecords(status: nat -> int)
    ensures RecordsOnSuccess(DownloadStep(BySet, status))
  {
    forall s: State, media: seq<RemoteItem>, k: nat, item: RemoteItem
      | item in media && AllOk(DownloadByDate(BySet, s, media, status, k).transfers)
      ensures ItemRecorded(DownloadByDate(BySet, s, media, status, k).state.db, item)
    {
      BySetPageRecordsItems(s, media, status, k);
      var j :| 0 <= j < |media| && media[j] == item;
    }
  }

  /** An item recorded before a run over a plan stays recorded after it. */
  lemma {:induction false} PlanRunKeepsItem(st: State, plan: seq<Request>, listing: Request -> Option<Response>, step: PageStep, k: nat, item: RemoteItem)
    requires KeepsRecorded(step) && ItemRecorded(st.db, item)
    ensures ItemRecorded(PlanRun(st, plan, listing, step, k).state.db, item)
    decreases |plan|
  {
    if |plan| > 0 && listing(plan[0]).Some? {
      var p := step(st, listing(plan[0]).value.media, k);
      PlanRunKeepsItem(p.state, plan[1..], listing, step, k + |p.transfers|, item);
    }
  }

  /**
   A run over a plan with a step that keeps and, on success, records items,
   whose every archive request returned 200, records every item of every
   page it got an answer for.
   */
  lemma {:induction false} PlanRunRecordsAll(st: State, plan: seq<Request>, listing: Request -> Option<Response>, step: PageStep, k: nat)
    requires KeepsRecorded(step) && RecordsOnSuccess(step)
    requires AllOk(PlanRun(st, plan, listing, step, k).transfers)
    ensures RecordsAnswered(PlanRun(st, plan, listing, step, k), listing)
    decreases |plan|
  {
    var r := PlanRun(st, plan, listing, step, k);
    if |plan| > 0 && listing(plan[0]).Some? {
      var media := listing(plan[0]).value.media;
      var p := step(st, media, k);
      var rest := PlanRun(p.state, plan[1..], listing, step, k + |p.transfers|);
      assert r == RunResult(rest.state, [plan[0]] + rest.requests, p.transfers + rest.transfers, rest.aborted);
      AllOkSplit(p.transfers, rest.transfers);
      PlanRunRecordsAll(p.state, plan[1..], listing, step, k + |p.transfers|);
      forall item | item in media ensures ItemRecorded(r.state.db, item) {
        PlanRunKeepsItem(p.state, plan[1..], listing, step, k + |p.transfers|, item);
      }
      assert forall q :: q in r.requests ==> q == plan[0] || q in rest.requests;
    }
  }

  /** Both halves of a successful sequence of transfers are successful. */
  lemma AllOkSplit(ts: seq<Transfer>, us: seq<Transfer>)
    requires AllOk(ts + us)
    ensures AllOk(ts) && AllOk(us)
  {
    assert forall i :: 0 <= i < |ts| ==> ts[i] == (ts + us)[i];
    assert forall i :: 0 <= i < |us| ==> us[i] == (ts + us)[|ts| + i];
  }

  /** A page step whose archive requests all return 200. */
  ghost predicate AlwaysOk(step: PageStep) {
    forall s: State, media: seq<RemoteItem>, k: nat :: AllOk(step(s, media, k).transfers)
  }

  /** When the server answers every archive request with 200, so does every page of `download_by_date`. */
  lemma DownloadStepAlwaysOk(rule: FetchRule, status: nat -> int)
    requires forall n :: status(n) == StatusOk
    ensures AlwaysOk(DownloadStep(rule, status))
  {
    forall s: State, media: seq<RemoteItem>, k: nat
      ensures AllOk(DownloadByDate(rule, s, media, status, k).transfers)
    {
      DownloadByDateRequests(rule, s, media, status, k);
    }
  }

  /** With a step whose requests all return 200, every archive request of a run over a plan returns 200. */
  lemma {:induction false} PlanRunAllOk(st: State, plan: seq<Request>, listing: Request -> Option<Response>, step: PageStep, k: nat)
    requires AlwaysOk(step)
    ensures AllOk(PlanRun(st, plan, listing, step, k).transfers)
    decreases |plan|
  {
    if |plan| > 0 && listing(plan[0]).Some? {
      var p := step(st, listing(plan[0]).value.media, k);
      var rest := PlanRun(p.state, plan[1..], listing, step, k + |p.transfers|);
      PlanRunAllOk(p.state, plan[1..], listing, step, k + |p.transfers|);
      assert AllOk(p.transfers);
      assert forall i :: |p.transfers| <= i < |p.transfers + rest.transfers| ==>
        (p.transfers + rest.transfers)[i] == rest.transfers[i - |p.transfers|];
    }
  }

  /**
   With the corrected rule, a run of the program in which the server answers
   every archive request with 200 records every item of every page it got an
   answer for, under either page plan, even when a day is split over several
   pages. A run reads `status` only at the indices of its own requests, so
   this is the same as asking that every request the run made returned 200.
   */
  lemma BySetProgramRecordsAll(st: State, perPage: nat, kind: PlanKind, listing: Request -> Option<Response>, status: nat -> int)
    requires forall n :: status(n) == StatusOk
    ensures RecordsAnswered(ProgramRun(st, perPage, kind, listing, DownloadStep(BySet, status)), listing)
  {
    var step := DownloadStep(BySet, status);
    if listing(Request(1, perPage)).Some? {
      var plan := Plan(kind, perPage, listing(Request(1, perPage)).value.totalPages);
      ProgramIsPlanRun(st, perPage, kind, listing, step);
      DownloadStepKeepsRecorded(BySet, status);
      BySetStepRecords(status);
      DownloadStepAlwaysOk(BySet, status);
      PlanRunAllOk(st, plan, listing, step, 0);
      PlanRunRecordsAll(st, plan, listing, step, 0);
    }
  }
}
