/**
 The download ledger: a TinyDB table of documents `{date, ids}` kept in
 insertion order, with the three queries the engine runs against it
 (`insert_ids_by_date`, `search_id`, `get_ids_by_date`).
 */
module Ledger {
  import opened Wrappers

  /** One ledger document: a capture day and the media ids archived for it. */
  datatype Record = Record(date: string, ids: seq<string>)

  /** The table's documents in document-id order, the order `search` reports them in. */
  type Table = seq<Record>

  function Elems(s: seq<string>): set<string> {
    set x | x in s
  }

  predicate NoDup(s: seq<string>) {
    forall i, j :: 0 <= i < j < |s| ==> s[i] != s[j]
  }

  /** A list without repetition has as many elements as its set. */
  lemma {:induction false} NoDupCount(s: seq<string>)
    requires NoDup(s)
    ensures |Elems(s)| == |s|
    decreases |s|
  {
    if |s| > 0 {
      var t := s[1..];
      forall i, j | 0 <= i < j < |t| ensures t[i] != t[j] {
        assert t[i] == s[i + 1] && t[j] == s[j + 1];
      }
      NoDupCount(t);
      assert s == [s[0]] + t;
      assert Elems(s) == {s[0]} + Elems(t);
      assert s[0] !in Elems(t);
    }
  }

  /** The days that have a document. */
  function Dates(t: Table): set<string> {
    set i | 0 <= i < |t| :: t[i].date
  }

  /** At most one document per day. */
  predicate UniqueDates(t: Table) {
    forall i, j :: 0 <= i < j < |t| ==> t[i].date != t[j].date
  }

  // ---------------------------------------------------------------------------
  // Queries
  // ---------------------------------------------------------------------------

  /** The position of the first document of `date`: `search(MediaQuery.date == date)[0]`. */
  function Find(t: Table, date: string): (r: Option<nat>)
    ensures r.None? <==> forall i :: 0 <= i < |t| ==> t[i].date != date
    ensures r.Some? ==> r.value < |t| && t[r.value].date == date
    ensures r.Some? ==> forall j :: 0 <= j < r.value ==> t[j].date != date
    decreases |t|
  {
    if |t| == 0 then None
    else if t[0].date == date then Some(0)
    else
      assert forall i :: 0 < i < |t| ==> t[i] == t[1..][i - 1];
      match Find(t[1..], date)
      case None => None
      case Some(i) => Some(i + 1)
  }

  /** `get_ids_by_date`: the ids of the first document of the day, or `[]` when there is none. */
  function GetIds(t: Table, date: string): seq<string> {
    match Find(t, date)
    case None => []
    case Some(i) => t[i].ids
  }

  /** A day without a document reads as `[]`; on a table with one document per day, a day reads as its document's ids. */
  lemma GetIdsSpec(t: Table, date: string)
    ensures date !in Dates(t) ==> GetIds(t, date) == []
    ensures UniqueDates(t) ==> forall i :: 0 <= i < |t| && t[i].date == date ==> GetIds(t, date) == t[i].ids
  {
    if date !in Dates(t) {
      assert forall i :: 0 <= i < |t| ==> t[i].date in Dates(t);
    }
  }

  /** `search_id`: some document's ids contain `id`. */
  function SearchId(t: Table, id: string): (found: bool)
    ensures found <==> exists i :: 0 <= i < |t| && id in t[i].ids
    decreases |t|
  {
    if |t| == 0 then false
    else if id in t[0].ids then true
    else
      var found := SearchId(t[1..], id);
      assert found <==> exists i :: 0 < i < |t| && id in t[i].ids by {
        if found {
          var i :| 0 <= i < |t[1..]| && id in t[1..][i].ids;
          assert t[i + 1] == t[1..][i];
        }
        if exists i :: 0 < i < |t| && id in t[i].ids {
          var i :| 0 < i < |t| && id in t[i].ids;
          assert t[1..][i - 1] == t[i];
        }
      }
      found
  }

  // ---------------------------------------------------------------------------
  // insert_ids_by_date
  // ---------------------------------------------------------------------------

  /**
   `list(set(xs))`: the same elements without repetitions. Python leaves the
   order unspecified; this model keeps first occurrences, and no contract
   below depends on that choice.
   */
  function Dedup(s: seq<string>): (r: seq<string>)
    ensures Elems(r) == Elems(s)
    ensures NoDup(r)
    ensures |r| <= |s|
    decreases |s|
  {
    if |s| == 0 then []
    else
      var init, x := s[..|s| - 1], s[|s| - 1];
      assert s == init + [x];
      var r := Dedup(init);
      assert Elems(s) == Elems(init) + {x};
      if x in r then r
      else
        assert Elems(r + [x]) == Elems(r) + {x};
        r + [x]
  }

  /** `db.update({'ids': ids}, MediaQuery.date == date)`: every document of the day gets the new ids. */
  function UpdateIds(t: Table, date: string, ids: seq<string>): (u: Table)
    ensures |u| == |t|
    ensures forall i :: 0 <= i < |t| ==> u[i].date == t[i].date
    ensures forall i :: 0 <= i < |t| ==> u[i].ids == if t[i].date == date then ids else t[i].ids
  {
    seq(|t|, i requires 0 <= i < |t| => if t[i].date == date then t[i].(ids := ids) else t[i])
  }

  /**
   `insert_ids_by_date`: merge `ids` into the day's document (union, no
   repetitions), or append a new document holding `ids` as given.
   */
  function InsertIds(t: Table, date: string, ids: seq<string>): Table {
    match Find(t, date)
    case None => t + [Record(date, ids)]
    case Some(i) => UpdateIds(t, date, Dedup(t[i].ids + ids))
  }

  /** After inserting, the day has a document, no other day gains or loses one, and a table grows only by a new day's document. */
  lemma InsertDates(t: Table, date: string, ids: seq<string>)
    ensures Dates(InsertIds(t, date, ids)) == Dates(t) + {date}
    ensures |InsertIds(t, date, ids)| == if date in Dates(t) then |t| else |t| + 1
  {
    match Find(t, date)
    case None =>
      AppendDates(t, Record(date, ids));
    case Some(i) =>
      assert t[i].date in Dates(t);
      SameDates(t, InsertIds(t, date, ids));
  }

  /** Appending a document adds its day. */
  lemma AppendDates(t: Table, r: Record)
    ensures Dates(t + [r]) == Dates(t) + {r.date}
  {
    var u := t + [r];
    assert u[|t|] == r;
    forall d | d in Dates(u) ensures d in Dates(t) + {r.date} {
      var i :| 0 <= i < |u| && u[i].date == d;
      if i < |t| {
        assert u[i] == t[i];
      }
    }
    forall d | d in Dates(t) ensures d in Dates(u) {
      var i :| 0 <= i < |t| && t[i].date == d;
      assert u[i] == t[i];
    }
  }

  /** Tables with the same days in the same places have the same set of days. */
  lemma SameDates(t: Table, u: Table)
    requires |u| == |t| && forall i :: 0 <= i < |t| ==> u[i].date == t[i].date
    ensures Dates(u) == Dates(t)
  {
    forall d | d in Dates(u) ensures d in Dates(t) {
      var k :| 0 <= k < |u| && u[k].date == d;
      assert t[k].date == d;
    }
    forall d | d in Dates(t) ensures d in Dates(u) {
      var k :| 0 <= k < |t| && t[k].date == d;
      assert u[k].date == d;
    }
  }

  /** Two tables whose documents have the same days in the same places answer `Find` alike. */
  lemma {:induction false} FindSameDates(t: Table, u: Table, date: string)
    requires |t| <= |u|
    requires forall i :: 0 <= i < |t| ==> u[i].date == t[i].date
    requires forall i :: |t| <= i < |u| ==> u[i].date != date
    ensures Find(u, date) == Find(t, date)
    decreases |t|
  {
    if |t| > 0 && t[0].date != date {
      var t', u' := t[1..], u[1..];
      assert forall i :: 0 <= i < |t'| ==> t'[i] == t[i + 1] && u'[i] == u[i + 1];
      assert forall i :: |t'| <= i < |u'| ==> u'[i] == u[i + 1];
      FindSameDates(t', u', date);
    }
  }

  /** Inserting leaves the ids of every other day as they were. */
  lemma InsertOtherDays(t: Table, date: string, ids: seq<string>, d: string)
    requires d != date
    ensures GetIds(InsertIds(t, date, ids), d) == GetIds(t, d)
  {
    var u := InsertIds(t, date, ids);
    match Find(t, date)
    case None =>
      assert u == t + [Record(date, ids)];
      FindSameDates(t, u, d);
    case Some(i) =>
      FindSameDates(t, u, d);
      match Find(t, d)
      case None =>
      case Some(k) =>
        assert u[k] == t[k];
  }

  /** After inserting, the day's ids are the old ones together with the new ones, and a new day holds exactly the given list. */
  lemma InsertMerges(t: Table, date: string, ids: seq<string>)
    ensures Elems(GetIds(InsertIds(t, date, ids), date)) == Elems(GetIds(t, date)) + Elems(ids)
    ensures date !in Dates(t) ==> GetIds(InsertIds(t, date, ids), date) == ids
    ensures date in Dates(t) ==> NoDup(GetIds(InsertIds(t, date, ids), date))
  {
    var u := InsertIds(t, date, ids);
    match Find(t, date)
    case None =>
      assert u == t + [Record(date, ids)];
      assert Find(u, date) == Some(|t|) by {
        assert forall k :: 0 <= k < |t| ==> u[k] == t[k];
        assert u[|t|].date == date;
      }
    case Some(i) =>
      FindSameDates(t, u, date);
      var v := Dedup(t[i].ids + ids);
      assert u[i].ids == v;
      assert Elems(t[i].ids + ids) == Elems(t[i].ids) + Elems(ids);
  }

  /** Inserting never creates a second document for a day. */
  lemma InsertKeepsUniqueDates(t: Table, date: string, ids: seq<string>)
    requires UniqueDates(t)
    ensures UniqueDates(InsertIds(t, date, ids))
  {
    var u := InsertIds(t, date, ids);
    match Find(t, date)
    case None =>
      assert u == t + [Record(date, ids)];
      forall i, j | 0 <= i < j < |u| ensures u[i].date != u[j].date {
        if j == |t| {
          assert u[i] == t[i];
        } else {
          assert u[i] == t[i] && u[j] == t[j];
        }
      }
    case Some(_) =>
  }

  /** On a table with one document per day, an id is found after inserting exactly when it was found before or is among the inserted ids. */
  lemma InsertSearch(t: Table, date: string, ids: seq<string>, id: string)
    requires UniqueDates(t)
    ensures SearchId(InsertIds(t, date, ids), id) <==> SearchId(t, id) || id in ids
  {
    var u := InsertIds(t, date, ids);
    match Find(t, date)
    case None =>
      assert u == t + [Record(date, ids)];
      if SearchId(u, id) {
        var k :| 0 <= k < |u| && id in u[k].ids;
        if k < |t| {
          assert u[k] == t[k];
        }
      }
      if SearchId(t, id) {
        var k :| 0 <= k < |t| && id in t[k].ids;
        assert u[k] == t[k];
      }
      assert id in u[|t|].ids <==> id in ids;
    case Some(i) =>
      var v := Dedup(t[i].ids + ids);
      assert Elems(v) == Elems(t[i].ids) + Elems(ids);
      assert u[i].ids == v;
      if SearchId(u, id) {
        var k :| 0 <= k < |u| && id in u[k].ids;
        if t[k].date == date {
          assert k == i;
          assert id in Elems(v);
        }
      }
      if SearchId(t, id) {
        var k :| 0 <= k < |t| && id in t[k].ids;
        if t[k].date == date {
          assert k == i;
          assert id in Elems(v);
        } else {
          assert u[k] == t[k];
        }
      }
      if id in ids {
        assert id in Elems(v);
      }
  }

  // ---------------------------------------------------------------------------
  // The ledger as a map from day to set of ids
  // ---------------------------------------------------------------------------

  /** What the ledger records, seen through `get_ids_by_date`: for each day with a document, its set of ids. */
  function View(t: Table): map<string, set<string>> {
    map d | d in Dates(t) :: Elems(GetIds(t, d))
  }

  /** On a day that has a document, the merged list holds as many ids as the union of old and new. */
  lemma KnownDayCount(t: Table, date: string, ids: seq<string>)
    requires date in Dates(t)
    ensures |GetIds(InsertIds(t, date, ids), date)| == |Elems(GetIds(t, date)) + Elems(ids)|
  {
    InsertMerges(t, date, ids);
    NoDupCount(GetIds(InsertIds(t, date, ids), date));
  }

  /** `insert_ids_by_date` is a set union on the day's entry of the view, and nothing else changes. */
  lemma InsertRefinesUnion(t: Table, date: string, ids: seq<string>)
    ensures View(InsertIds(t, date, ids)) ==
      View(t)[date := (if date in View(t) then View(t)[date] else {}) + Elems(ids)]
  {
    var u := InsertIds(t, date, ids);
    var m := View(t)[date := (if date in View(t) then View(t)[date] else {}) + Elems(ids)];
    InsertMerges(t, date, ids);
    InsertDates(t, date, ids);
    forall d | d in Dates(u) ensures View(u)[d] == m[d] {
      if d != date {
        InsertOtherDays(t, date, ids, d);
      }
    }
  }

  /** On a table with one document per day, `search_id` asks whether any day of the view holds the id. */
  lemma SearchIdByView(t: Table, id: string)
    requires UniqueDates(t)
    ensures SearchId(t, id) <==> exists d :: d in View(t) && id in View(t)[d]
  {
    if SearchId(t, id) {
      var k :| 0 <= k < |t| && id in t[k].ids;
      var d := t[k].date;
      assert d in Dates(t);
      GetIdsSpec(t, d);
      assert id in View(t)[d];
    }
    if exists d :: d in View(t) && id in View(t)[d] {
      var d :| d in View(t) && id in View(t)[d];
      var k :| 0 <= k < |t| && t[k].date == d;
      GetIdsSpec(t, d);
    }
  }
}
