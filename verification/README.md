# GoPro Plus cloud downloader: the sync engine in Dafny

`main.py` mirrors a GoPro Plus media library onto the local disk. It pages
through the media search results and groups each page's items by capture day.
For every day it asks a TinyDB ledger how many ids it already holds, and
downloads that day's ZIP archive when the count is zero or differs from the
group's size. After a successful download it merges the day's ids into the
ledger. This project models that engine, with that count test and with a
corrected test that compares id sets (`FetchRule`: `ByCount`, `BySet`), as pure Dafny functions over strings,
sequences and sets, and proves what the code promises:

- **`--date-range` validation** (`Dates`): the `re.match` shape check, `str.split(',')`,
  and `strptime('%Y-%m-%d')` read as its token grammar, over the proleptic
  Gregorian calendar. The start is not after the end.
- **Cohorts** (`Cohorts`): each item's `captured_day` is the text of `captured_at`
  before the first `T`. Items are sorted stably by that day (an insertion sort
  standing for Python's `sorted`) and cut into `groupby` runs.
- **Ledger** (`Ledger`): the TinyDB table as a sequence of `{date, ids}` documents in
  document order, with `insert_ids_by_date`, `get_ids_by_date` and `search_id`.
  `View` is the same table seen as a map from day to set of ids.
- **Archive naming** (`Archive`): `get_zip_filename`'s counter loop. The
  `os.path.exists` test is membership in the set of existing paths.
- **One page** (`Sync`): `download_by_date` and `download_media`. The HTTP status of
  the `k`-th archive request is an input function `status`.
- **The page loop of `main`** (`Pagination`): as a recursive reference (`PlanRun`) and
  as the loop itself (`RunPlan`, `RunProgram`). The search endpoint is an
  input function `listing` whose `None` stands for every falsy answer.

Shared pieces are kept apart:
- `Text`: decimal rendering, `split`/`join`, and Python's `str` order.
- `Wrappers`: `Option`.

The module docstring (main.py:10-15) promises that files already downloaded are
not downloaded again, and the comment at main.py:211 says the loop handles each
page. Where the code departs from what it evidently intends, the model follows
the code:
- When `total_pages` is 2 or more, the loop never requests the last page.
- Later pages are requested at the default size 30.
- Cohorts of one day seen on different pages are not merged.
- A day's first ledger document stores the ids as given, not deduplicated.
- Downloading is decided by comparing counts, not id sets. So a re-sync is not always a no-op, and a run can leave items unrecorded.
  - After a successful download, the ledger's count for a day can stay different from the cohort's size. This happens when the day already held other ids. That day is then requested again on the next run, and a new archive is written. Re-running the same page straight after a fully successful run leaves the id sets unchanged.
  - Over a whole run, a day split over several pages can lose items for good. Take two pages that each hold two items of one day. After page 1 is stored, the ledger counts 2 ids for the day. Page 2's cohort also has 2 items, so it is skipped: its items are never downloaded or recorded, and a re-run skips them again.

The first two, and the split day, are listed under Findings.

## Model

| member | source | states |
|---|---|---|
| Text.NatToString | main.py:134 | the `{counter}` rendering is a non-empty digit string without a leading zero unless the counter is 0 |
| Text.DecimalRoundTrip | main.py:134 | reading the rendered counter back as decimal digits gives the counter |
| Text.DecimalInjective | main.py:134 | distinct counters render to distinct strings |
| Text.JoinSplit | main.py:46 | joining the parts of `s.split(sep)` with `sep` gives `s` back |
| Text.SplitJoin | main.py:46 | splitting a join of separator-free parts gives exactly those parts |
| Text.FirstField | main.py:149 | `s.split('T')[0]` is a prefix of `s` without a `T`, ending at the end of `s` or at its first `T` |
| Text.LexLeTotal | main.py:152 | Python's `str` order compares any two day keys |
| Text.LexLeTrans | main.py:152 | Python's `str` order is transitive |
| Text.LexLeAntisym | main.py:152 | two strings each at most the other are equal |
| Text.DigitOrder | main.py:53-56 | on equal-width digit strings the `str` order is the numeric order, and equal texts mean equal numbers |
| Dates.MonthTokenOfTwoDigits | main.py:35 | two digits form a `%m` token exactly when they spell 1 to 12 |
| Dates.DayTokenOfTwoDigits | main.py:35 | two digits form a `%d` token exactly when they spell 1 to 31, and that is the value strptime reads |
| Dates.FixedDateValid | main.py:32-38 | on a `DDDD-DD-DD` text, `is_valid_date` holds exactly when its year, month and day form a real calendar date, which is the date parsed |
| Dates.FixedDateOrder | main.py:53-57 | on `DDDD-DD-DD` texts the string order of the halves is the order of the `datetime` values they parse to |
| Dates.SplitRange | main.py:42-46 | a text the pattern admits splits on `,` into exactly its two ten-character halves, so the unpacking never fails |
| Dates.ValidRangeCharacterization | main.py:41-59 | `is_valid_date_range` holds iff the text is exactly `DDDD-DD-DD,DDDD-DD-DD`, both halves are calendar dates, and the start is not after the end |
| Dates.TrailingNewlineRejected | main.py:42-49 | the one extra text `$` admits, a range plus a final newline, matches the pattern but fails the date check |
| Dates.ReversedRangeRejected | main.py:56-57 | a range whose end comes before its start is refused |
| Cohorts.CapturedDay | main.py:149 | `captured_day` is the part of `captured_at` before its first `T`, with no time-zone conversion |
| Cohorts.ProjectAll | main.py:147-150 | the projection keeps one entry per item, in page order |
| Cohorts.InsertByDay | main.py:152 | one insertion step of the sort adds exactly the inserted item |
| Cohorts.InsertKeepsSorted | main.py:152 | inserting into a day-sorted sequence keeps it day-sorted |
| Cohorts.InsertOnDay | main.py:152 | inserting puts the item in front of the other items of its day and leaves every other day's items as they were |
| Cohorts.SortByDaySpec | main.py:152 | `sorted(..., key=itemgetter('captured_day'))` is ordered by day, is a permutation, and keeps each day's items in input order |
| Cohorts.StableSortUnique | main.py:152 | any two day-sorted sequences holding the same items per day in the same order are equal, so the model's sort is Python's sort |
| Cohorts.GroupRunsFlatten | main.py:154-155 | the `groupby` runs put back together give the sorted sequence |
| Cohorts.GroupRunsAreRuns | main.py:154-155 | every run is non-empty and all its items carry the run's key |
| Cohorts.GroupRunsMaximal | main.py:154-155 | neighbouring runs have different keys, as `groupby` starts a new group exactly when the key changes |
| Cohorts.GroupsOfSorted | main.py:152-155 | on a sorted sequence the runs have strictly ascending days and each run holds every item of its day |
| Cohorts.BuildCohorts | main.py:147-155 | every cohort of a page is non-empty and of one day |
| Cohorts.BuildCohortsSpec | main.py:147-156 | the page's cohorts have strictly ascending, hence distinct, days; each holds all of its day's items in page order; together they hold exactly the page's items |
| Cohorts.EveryItemHasItsCohort | main.py:147-156 | every listed item lands in the cohort whose day is its `captured_at` before the first `T` |
| Ledger.Find | main.py:169 | the first document of the day, or none exactly when no document has that day |
| Ledger.GetIdsSpec | main.py:186-190 | `get_ids_by_date` is `[]` for a day without a document, and otherwise the ids of that day's only document |
| Ledger.SearchId | main.py:179-183 | `search_id` is true iff some document's id list contains the id |
| Ledger.Dedup | main.py:173 | `list(set(xs))` has the same elements as `xs` and no repetition |
| Ledger.UpdateIds | main.py:174 | `db.update` replaces the ids of the matching documents and touches nothing else |
| Ledger.InsertDates | main.py:168-176 | after inserting, the day has a document and no other day gains or loses one; the table grows only for a new day |
| Ledger.InsertOtherDays | main.py:168-176 | inserting leaves `get_ids_by_date` of every other day unchanged |
| Ledger.InsertMerges | main.py:168-176 | after inserting, the day's ids are the union of the old and new ids; a new day stores the list as given; an existing day's list has no repetition |
| Ledger.InsertKeepsUniqueDates | main.py:168-176 | inserting never creates a second document for a day |
| Ledger.InsertSearch | main.py:168-183 | after inserting, an id is found iff it was found before or was inserted |
| Ledger.KnownDayCount | main.py:168-174 | on a day that already has a document, the merged list holds exactly as many ids as the union of the old and new ids |
| Ledger.InsertRefinesUnion | main.py:168-176 | seen as a map from day to set of ids, inserting is a set union on one key and nothing else changes |
| Ledger.SearchIdByView | main.py:179-183 | `search_id` asks whether some day's set of ids holds the id |
| Archive.PathJoin | main.py:134 | POSIX `os.path.join`: an absolute second part wins; otherwise the result starts with the first part and ends with the second |
| Archive.ArchiveNameInjective | main.py:134 | the counter can be read back from `{day}_{n}_GoPro.zip` |
| Archive.ZipPathInjective | main.py:134-137 | distinct counters give distinct paths for the same day |
| Archive.FreeFrom | main.py:135-137 | the `while os.path.exists` loop stops, at a counter not below its start whose path does not exist |
| Archive.FreeFromSkips | main.py:135-137 | every counter the loop passes over names an existing path |
| Archive.FreeFromLeast | main.py:135-137 | every counter below the result and not below the start is taken |
| Archive.ZipCounter | main.py:132-139 | the chosen counter is at least 1 and its path does not exist |
| Archive.ZipCounterLeast | main.py:132-139 | the chosen counter is the least `n >= 1` whose path is free |
| Archive.ZipFilename | main.py:132-139 | `get_zip_filename` never returns an existing path |
| Archive.NextArchiveCounts | main.py:132-139 | once the chosen archive exists, the next archive of that day gets a higher counter |
| Sync.Ids | main.py:66 | `media_ids` lists the items' ids, in order |
| Sync.TotalSizeAppend | main.py:63 | the announced size is additive over any split of the items |
| Sync.TotalSizeNonNegative | main.py:63 | with non-negative file sizes the announced size is non-negative |
| Sync.DownloadMedia | main.py:62-89 | the request carries the first item's day, the ids in order and the size sum; only a 200 writes the archive and inserts the ids under that day, and any other status changes nothing |
| Sync.DownloadMediaFrame | main.py:62-89 | a download leaves every other day's ledger entry unchanged |
| Sync.DownloadMediaMerges | main.py:75-86 | after a 200 the day's ids are the union of old and new, and a new day holds exactly the cohort's ids |
| Sync.DownloadMediaView | main.py:62-89 | on the day-to-set view a download is a union on one key after a 200 and nothing otherwise |
| Sync.DownloadMediaKeepsUniqueDates | main.py:62-89 | a download keeps the ledger at one document per day |
| Sync.RunCohorts | main.py:156-165 | processing a page's cohorts never removes a file |
| Sync.WantedMembers | main.py:159-163 | a cohort is requested iff it is on the page and the rule calls for it: as written, when the ledger's count for its day is zero or differs from the cohort's size; corrected, when some id of the cohort is not yet recorded under its day |
| Sync.RunRequestsWanted | main.py:156-165 | the page's archive requests are exactly the wanted cohorts in page order, judged against the ledger before the page, each with its day, ids, size and the next status |
| Sync.TransferDays | main.py:156-165 | every archive request is filed under one of the page's days |
| Sync.RunFrame | main.py:156-165 | the ledger entry of a day with no successful request on the page is unchanged |
| Sync.RunMerges | main.py:156-165 | each successful request merges its ids into its day's entry, and a day new to the ledger ends with exactly the cohort's ids |
| Sync.RunWritesFiles | main.py:77-86 | the files after the page are those before plus exactly the archives of the successful requests |
| Sync.RunPathsFresh | main.py:157 | every archive the page requests is a path that did not exist before the page |
| Sync.RunPathsDistinct | main.py:157-163 | no two successful requests of a page write the same archive |
| Sync.RunKeepsUniqueDates | main.py:156-165 | the page keeps the ledger at one document per day |
| Sync.AllSyncedIsNoOp | main.py:159-165 | a page where the rule calls for no cohort (as written, every day already has the right non-zero count) requests nothing and changes nothing |
| Sync.AscendingDistinct | main.py:154-156 | cohorts with ascending days have distinct days |
| Sync.DownloadByDateRequests | main.py:142-165 | `download_by_date` never removes a file and requests exactly the page's wanted cohorts in ascending day order |
| Sync.DownloadByDateKeepsUniqueDates | main.py:142-165 | `download_by_date` keeps the ledger at one document per day |
| Sync.ResyncCohort | main.py:159-165 | under either rule, a day new to the ledger whose own archive request returned 200 is not called for again after the page, whatever the page's other requests returned |
| Sync.ResyncIsNoOp | main.py:142-165 | under either rule, re-running a page after a fully successful first run over new days requests nothing and changes nothing |
| Sync.AbsorbedRunKeepsView | main.py:156-176 | a page whose every cohort either needs no fetch or has all its ids under its day leaves the ledger's day-to-set view unchanged, whatever the statuses |
| Sync.UnwantedKeepsEntry | main.py:156-165 | a cohort the rule does not call for keeps that day's ledger entry through the page |
| Sync.FirstRunAbsorbs | main.py:156-176 | after a page whose every archive request returned 200, every cohort of the page either needs no fetch or has all its ids under its day |
| Sync.ResyncKeepsView | main.py:142-176 | under either rule, after a page whose every archive request returned 200, re-running it leaves the ledger's day-to-set view unchanged, whatever the second run's statuses |
| Sync.RunMergesFirst | main.py:156-165 | when the page's first cohort is downloaded with a 200, its ids are merged into its day's entry, and a day new to the ledger ends with exactly those ids |
| Sync.FetchesUnrecorded | main.py:159-163 | under either rule, a cohort whose day has no ids in the ledger is downloaded |
| Sync.SkipsRecorded | main.py:159-163 | under either rule, a cohort whose day holds exactly its ids is skipped |
| Sync.ResyncRefetchesPartialDay | main.py:156-176 | with two other ids `a`, `b` already under a day and a one-item page of that day, a successful first run stores three ids under the day, and the second run requests the day again under a new archive name while the id sets stay the same |
| Sync.ItemRecordedInView | main.py:179-190 | an item is recorded exactly when the day-to-set view holds its id under the day of its `captured_at` |
| Sync.DownloadGrowsView | main.py:62-89 | a download only adds ids to the day-to-set view, whatever the status |
| Sync.RunGrowsView | main.py:156-165 | under either rule and whatever the statuses, a page only adds ids to the day-to-set view |
| Sync.DownloadByDateGrowsView | main.py:142-165 | `download_by_date` only adds ids to the day-to-set view |
| Sync.DownloadByDateKeepsItem | main.py:142-165 | an item recorded before a page is still recorded after it |
| Sync.SkippedIsRecorded | main.py:159-163 | a cohort the corrected rule skips has all its ids under its day |
| Sync.RecordedIsSkipped | main.py:159-163 | a cohort with all its ids under its day is skipped by the corrected rule |
| Sync.DownloadRecords | main.py:75-86 | a 200 puts all the cohort's ids under its day |
| Sync.RecordedPersists | main.py:168-176 | a recorded cohort stays recorded while the view only grows |
| Sync.IdsHasId | main.py:66 | the id of every item is in `media_ids` |
| Sync.BySetRecordsPage | main.py:156-165 | with the corrected rule, after a page whose every archive request returned 200, every cohort of the page has all its ids under its day |
| Sync.BySetPageRecordsItems | main.py:142-165 | with the corrected rule, after a page whose every archive request returned 200, every item of the page is recorded under the day of its `captured_at` |
| Sync.BySetResyncIsNoOp | main.py:142-165 | with the corrected rule, re-running a page straight after a run whose every archive request returned 200 requests nothing and changes nothing, whatever the ledger held before |
| Sync.TwoItemCohorts | main.py:147-155 | two items of one day form one cohort holding both, in page order |
| Sync.EvenSplitNeverFetched | main.py:156-165 | as written, with an empty ledger and two pages of two items each of one day, page 1 is downloaded with a 200, page 2 requests nothing, an item of page 2 is never recorded, and re-running either page requests nothing |
| Pagination.Plan | main.py:202-212 | every plan starts with page 1 at the configured size |
| Pagination.PlanRunRequests | main.py:212-217 | the loop searches a prefix of the plan in order; only the last search can be falsy, and only when the run stopped; a run that did not stop searched the whole plan |
| Pagination.RunPlan | main.py:212-217 | the loop computes the recursive reference run |
| Pagination.RunProgram | main.py:202-217 | with either rule, `main` searches page 1 at the configured size first; its searches are a prefix of the plan page 1's `total_pages` fixes, all of it unless it stopped; it stops exactly at the first falsy answer; it never removes a file and keeps the ledger at one document per day |
| Pagination.ProgramRequests | main.py:202-217 | `main` searches page 1 first, stops right after the first falsy answer, and otherwise follows the plan that page 1's `total_pages` fixes |
| Pagination.ProgramIsPlanRun | main.py:202-217 | once page 1 is answered, `main` is the loop over the whole plan, page 1 included |
| Pagination.DownloadStepSafe | main.py:142-165 | under either rule, `download_by_date` never removes a file and keeps one document per day |
| Pagination.PlanRunSafe | main.py:212-217 | over all the pages of a plan, files are never removed and the ledger keeps one document per day |
| Pagination.ProgramKeepsInvariants | main.py:202-217 | a whole run never removes a file and keeps the ledger at one document per day |
| Pagination.ItemPage | main.py:212-213 | item `j` lies on page `j / size + 1`, which is within `total_pages` |
| Pagination.IntendedPlanCoversAll | main.py:211-213 | searching pages 1 to `total_pages` at one size lists every item of the result |
| Pagination.AsWrittenPageOrder | main.py:202-213 | as written, the run searches page 1 at the configured size, then pages 2, 3, ... in increasing order at the default size 30 |
| Pagination.RunSkipsLastPage | main.py:212 | as written, when `total_pages` is 2 or more, no run ever searches the page numbered `total_pages` |
| Pagination.SourcePlanSkipsLastPage | main.py:212 | when `total_pages` is 2 or more, every page of the plan as written is numbered below `total_pages` |
| Pagination.LastPageMissed | main.py:212 | 45 items at 30 a page make two pages, the plan as written searches page 1 only, and item 30 is on no page searched |
| Pagination.MixedPageSizeMisses | main.py:202-213 | as written, a run with `per_page` 10 over 25 items (three pages) never lists item 10, because page 2 is searched at size 30 and page 3 not at all |
| Pagination.CorrectedRunListsAll | main.py:202-217 | with pages 1 to `total_pages` at the configured size, a run not cut short lists every item of the result |
| Pagination.DownloadStepKeepsRecorded | main.py:142-165 | under either rule, `download_by_date` never forgets a recorded item |
| Pagination.BySetStepRecords | main.py:142-165 | with the corrected rule, a page whose archive requests all returned 200 records every one of its items |
| Pagination.PlanRunKeepsItem | main.py:212-217 | over all the pages of a plan, a recorded item stays recorded |
| Pagination.PlanRunRecordsAll | main.py:212-217 | over a plan, with a step that keeps recorded items and records a fully successful page, a run whose archive requests all returned 200 records every item of every page it got an answer for |
| Pagination.DownloadStepAlwaysOk | main.py:142-165 | when the server answers every archive request with 200, every request of a `download_by_date` page returns 200 |
| Pagination.PlanRunAllOk | main.py:212-217 | with a step whose requests all return 200, every archive request of a run over a plan returns 200 |
| Pagination.BySetProgramRecordsAll | main.py:202-217 | with the corrected rule, a whole run in which the server answers every archive request with 200 records every item of every page it got an answer for, even a day split over several pages, under either page plan |

## Left out

- HTTP, URLs, headers and query strings of `search_media` and `download_media` (main.py:67-73, 92-128). These are a client of a remote API. The answers are inputs: `listing` for searches, `status` for archive requests.
- A truthy search answer without `_pages` raises `KeyError` in the source. The model's `Response` always carries `total_pages`.
- A truthy search answer without `_embedded.media` (main.py:147), or a media item missing one of the six fields `download_by_date` copies (main.py:148), also raises `KeyError`. The model's `Response` always carries the media list and `RemoteItem` always carries the six fields, so these crashes are not modelled.
- Streaming the archive in chunks and the tqdm progress bar (main.py:77-83). A successful download is modelled as the archive path coming into existence.
- Exceptions that end the whole run. The source does not catch them: `rsession.get` (main.py:73, 117), `open(zip_name, 'wb')` (main.py:77, which fails for a day containing `/`), `iter_content` part-way through a stream (main.py:80-83) and `response.json()` (main.py:123) can all raise. Only `KeyboardInterrupt` is caught (main.py:256-260). A stream that fails after main.py:77 leaves a partial archive on disk and inserts no ids, so the next run moves that day to `counter+1`. In the model, `status` and `listing` always answer and processing always continues to the next cohort and page.
- The rounded MB figure (main.py:64): floating point, used only in a message. The exact byte sum is modelled.
- Printed messages, cookie loading and session setup, argparse, the media-type strings, creating the download directory and `KeyboardInterrupt` (main.py:193-199, 220-260): command-line and environment plumbing.
- Paths are modelled for POSIX only (Archive.PathJoin is `posixpath.join`). On Windows `os.path` is `ntpath`, which also splits on `\` and has its own rules for drive letters and absolute paths; those are not modelled.
- TinyDB persistence to `gopro_media_db.json`: the table is an in-memory value carried in `State`.
- `\d` in Python's `re` also matches non-ASCII decimal digits, and so does the `%Y` directive of `strptime`, whose pattern is not compiled in ASCII mode; `int()` then reads those digits. So a range written with, say, Arabic-Indic digits in its years passes `is_valid_date_range` in the source, but the model's digit class is ASCII only and refuses it. The model covers ASCII date ranges only.
- The years of `datetime` are 1 to 9999. Four-digit years cannot exceed 9999, so only the lower bound matters.
- `list(set(...))` has no specified order in Python. The model keeps first occurrences, and no contract depends on the order.
- Sync.DownloadMedia: requires a non-empty cohort, because `groupby` never yields an empty group. Its `data[0]` would otherwise fail.
- Sync.RunCohorts: its own contract only says files never disappear. The rest of its behaviour is stated in the lemmas about it.
- Sync.ResyncIsNoOp: for the count test as written, idempotence is proved only for a page whose days were all new to the ledger. For a day the ledger already knew, the source may request the archive again on the next run and write a new archive (Sync.ResyncRefetchesPartialDay exhibits it), because its check compares counts, not id sets. What holds for every page is weaker: re-running the same page straight after a fully successful run leaves the id sets unchanged (Sync.ResyncKeepsView). This says nothing about a whole run: a day split over pages can stay unrecorded for good (Sync.EvenSplitNeverFetched). With the corrected rule, re-running any page straight after a fully successful run is a no-op (Sync.BySetResyncIsNoOp), and a whole fully successful run records every item it listed (Pagination.BySetProgramRecordsAll).
- Pagination.RunProgram: takes `download_by_date`, with either rule, as the page step. The run-level lemmas hold for any page step, or for any step that keeps files and one document per day.

## Findings

| source | as written | input that shows it | evidently intended | confidence | as-written member | corrected member |
|---|---|---|---|---|---|---|
| main.py:212 | `range(2, _pages['total_pages'])` stops before `total_pages`, so the last page is never searched | 45 items at 30 a page: `total_pages` is 2, only page 1 is searched, and item 30 is never downloaded | search pages 2 to `total_pages` inclusive | high (not executed) | Pagination.RunSkipsLastPage | Pagination.CorrectedRunListsAll |
| main.py:160 | `len(db_ids) != len(items)` compares counts, so a cohort whose day already holds as many ids is skipped even when its own ids were never recorded | an empty ledger, all statuses 200, and one day whose four items are split over two pages as [a, b] and [c, d]: page 1 stores a and b, page 2 is skipped because 2 == 2, and c and d are never downloaded, also on every later run | download when some id of the cohort is not yet recorded for its day | high (not executed) | Sync.EvenSplitNeverFetched | Pagination.BySetProgramRecordsAll |
| main.py:213 | later pages call `search_media` without `per_page`, so they use the default 30 while `total_pages` was computed for the configured size | `--per-page 10` and 25 items: page 2 is searched at size 30 and holds items 30 to 59, so items 10 to 24 are never listed | pass `per_page=arguments.per_page` on every page | high (not executed) | Pagination.MixedPageSizeMisses | Pagination.CorrectedRunListsAll |
