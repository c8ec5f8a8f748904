/** The read-only parts of the dashboard: the two search filters over the
    roster, the per-date present/absent counts of the chart and header, the
    marked-progress count that enables the finalize button, the finalize
    summary itself, and the per-employee CSV report. */
module DashboardViews {
  import opened Records
  import opened Text
  import opened Dashboard

  /** `Array.prototype.filter`. */
  function Filter<T(!new)>(s: seq<T>, keep: T -> bool): (r: seq<T>)
    ensures |r| <= |s|
    ensures forall x :: x in r <==> x in s && keep(x)
  {
    if s == [] then []
    else (if keep(s[0]) then [s[0]] else []) + Filter(s[1..], keep)
  }

  /** Filtering distributes over concatenation. */
  lemma {:induction false} FilterConcat<T(!new)>(a: seq<T>, b: seq<T>, keep: T -> bool)
    ensures Filter(a + b, keep) == Filter(a, keep) + Filter(b, keep)
  {
    if a == [] {
      assert a + b == b;
    } else {
      var head := if keep(a[0]) then [a[0]] else [];
      FilterConcat(a[1..], b, keep);
      assert (a + b)[0] == a[0] && (a + b)[1..] == a[1..] + b;
      calc {
        Filter(a + b, keep);
        head + Filter(a[1..] + b, keep);
        head + (Filter(a[1..], keep) + Filter(b, keep));
        (head + Filter(a[1..], keep)) + Filter(b, keep);
        Filter(a, keep) + Filter(b, keep);
      }
    }
  }

  /** A filter that keeps everything is the identity. */
  lemma {:induction false} FilterKeepsAll<T(!new)>(s: seq<T>, keep: T -> bool)
    requires forall k :: 0 <= k < |s| ==> keep(s[k])
    ensures Filter(s, keep) == s
  {
    if s != [] {
      FilterKeepsAll(s[1..], keep);
    }
  }

  /** Filtering by `keep`, then by a narrower `narrow`, is filtering by
      `narrow` alone. */
  lemma {:induction false} FilterNarrows<T(!new)>(s: seq<T>, keep: T -> bool, narrow: T -> bool)
    requires forall x :: narrow(x) ==> keep(x)
    ensures Filter(Filter(s, keep), narrow) == Filter(s, narrow)
  {
    if s != [] {
      FilterNarrows(s[1..], keep, narrow);
      FilterConcat(if keep(s[0]) then [s[0]] else [], Filter(s[1..], keep), narrow);
    }
  }

  /** The employees tab search: name, employee code or department contains
      the term, ignoring case. */
  predicate MatchesDirectory(term: string, e: Employee)
  {
    var t := ToLower(term);
    Contains(ToLower(e.fullName), t) || Contains(ToLower(e.code), t) || Contains(ToLower(e.department), t)
  }

  /** The attendance tab search: name or employee code only. */
  predicate MatchesAttendance(term: string, e: Employee)
  {
    var t := ToLower(term);
    Contains(ToLower(e.fullName), t) || Contains(ToLower(e.code), t)
  }

  function DirectoryFilter(emps: seq<Employee>, term: string): seq<Employee>
  {
    Filter(emps, e => MatchesDirectory(term, e))
  }

  function AttendanceFilter(emps: seq<Employee>, term: string): seq<Employee>
  {
    Filter(emps, e => MatchesAttendance(term, e))
  }

  /** An empty search shows the whole roster on both tabs. */
  lemma EmptySearchShowsAll(emps: seq<Employee>)
    ensures DirectoryFilter(emps, "") == emps
    ensures AttendanceFilter(emps, "") == emps
  {
    forall k | 0 <= k < |emps| ensures MatchesAttendance("", emps[k]) {
      ContainsEmpty(ToLower(emps[k].fullName));
    }
    FilterKeepsAll(emps, e => MatchesDirectory("", e));
    FilterKeepsAll(emps, e => MatchesAttendance("", e));
  }

  /** The attendance tab shows, in order, exactly those employees of the
      employees tab's result that match on name or code. */
  lemma AttendanceNarrowsDirectory(emps: seq<Employee>, term: string)
    ensures Filter(DirectoryFilter(emps, term), e => MatchesAttendance(term, e)) == AttendanceFilter(emps, term)
  {
    FilterNarrows(emps, e => MatchesDirectory(term, e), e => MatchesAttendance(term, e));
  }

  /** A record the header and chart count as present on `date`. */
  predicate PresentOnDate(date: string, r: Record)
  {
    r.date == date && (r.status == "On-time" || r.status == "Present")
  }

  predicate AbsentOnDate(date: string, r: Record)
  {
    r.date == date && r.status == "Absent"
  }

  function PresentCount(rs: seq<Record>, date: string): nat
  {
    |Filter(rs, r => PresentOnDate(date, r))|
  }

  function AbsentCount(rs: seq<Record>, date: string): nat
  {
    |Filter(rs, r => AbsentOnDate(date, r))|
  }

  /** Present and absent never count one record twice: together they are at
      most the number of records on that date. */
  lemma {:induction false} DayCountsBounded(rs: seq<Record>, date: string)
    ensures PresentCount(rs, date) + AbsentCount(rs, date) <= |Filter(rs, (r: Record) => r.date == date)|
  {
    if rs != [] {
      DayCountsBounded(rs[1..], date);
    }
  }

  /** The entries whose status is `status`. */
  function WithStatus(state: map<Id, Entry>, status: string): set<Id>
  {
    set id | id in state && state[id].status == status
  }

  /** The marked-progress figure: entries that are not PENDING. */
  function Marked(state: map<Id, Entry>): set<Id>
  {
    set id | id in state && state[id].status != Pending
  }

  /** The finalize button is enabled when the marked count equals the
      roster size. */
  predicate FinalizeEnabled(state: map<Id, Entry>, rosterSize: nat)
  {
    |Marked(state)| == rosterSize
  }

  datatype Summary = Summary(date: string, total: nat, present: nat, absent: nat)

  lemma SubsetCard<T>(a: set<T>, b: set<T>)
    requires a <= b
    ensures |a| <= |b|
    ensures a < b ==> |a| < |b|
  {
    assert b == a + (b - a);
  }

  /** `finalizeReport`: no summary while an entry is PENDING; otherwise the
      present figure is the PRESENT count, or the ON-TIME count when there
      is no PRESENT entry, and the absent figure is the ABSENT count. */
  function Finalize(state: map<Id, Entry>, rosterSize: nat, date: string): (r: Option<Summary>)
    ensures r.None? <==> exists id :: id in state && state[id].status == Pending
    ensures r.Some? ==> r.value.date == date && r.value.total == rosterSize
    ensures r.Some? ==> r.value.absent == |WithStatus(state, "ABSENT")|
    ensures r.Some? ==> r.value.present == (if |WithStatus(state, "PRESENT")| > 0 then |WithStatus(state, "PRESENT")|
                                            else |WithStatus(state, "ON-TIME")|)
    ensures r.Some? ==> r.value.present + r.value.absent <= |state|
  {
    if exists id :: id in state && state[id].status == Pending then None
    else
      var present := |WithStatus(state, "PRESENT")|;
      var onTime := |WithStatus(state, "ON-TIME")|;
      var absent := |WithStatus(state, "ABSENT")|;
      assert absent + present <= |state| by {
        assert WithStatus(state, "ABSENT") * WithStatus(state, "PRESENT") == {};
        SubsetCard(WithStatus(state, "ABSENT") + WithStatus(state, "PRESENT"), state.Keys);
      }
      assert absent + onTime <= |state| by {
        assert WithStatus(state, "ABSENT") * WithStatus(state, "ON-TIME") == {};
        SubsetCard(WithStatus(state, "ABSENT") + WithStatus(state, "ON-TIME"), state.Keys);
      }
      Some(Summary(date, rosterSize, if present != 0 then present else onTime, absent))
  }

  /** When the map has one entry per roster employee, the button is enabled
      exactly when `finalizeReport` produces a summary. */
  lemma GateAgreement(state: map<Id, Entry>, rosterSize: nat, date: string)
    requires |state| == rosterSize
    ensures FinalizeEnabled(state, rosterSize) <==> Finalize(state, rosterSize, date).Some?
  {
    SubsetCard(Marked(state), state.Keys);
    if id :| id in state && state[id].status == Pending {
      assert id !in Marked(state);
    } else {
      assert Marked(state) == state.Keys;
    }
  }

  /** Distinct roster ids give one entry per employee. */
  lemma {:induction false} DistinctIdsCard(emps: seq<Employee>)
    requires forall i, j :: 0 <= i < j < |emps| ==> emps[i].id != emps[j].id
    ensures |Ids(emps)| == |emps|
  {
    if emps != [] {
      var init := emps[..|emps| - 1];
      DistinctIdsCard(init);
      IdsSnoc(emps);
      assert emps[|emps| - 1].id !in Ids(init);
    }
  }

  /** Right after a rebuild from a roster with distinct ids, the finalize
      button and the finalize gate agree. */
  lemma SyncedGateAgreement(emps: seq<Employee>, rs: seq<Record>, date: string)
    requires forall i, j :: 0 <= i < j < |emps| ==> emps[i].id != emps[j].id
    ensures FinalizeEnabled(Synced(emps, rs, date), |emps|) <==>
            Finalize(Synced(emps, rs, date), |emps|, date).Some?
  {
    SyncedCovers(emps, rs, date);
    DistinctIdsCard(emps);
    assert |Synced(emps, rs, date).Keys| == |emps|;
    GateAgreement(Synced(emps, rs, date), |emps|, date);
  }

  /** A time cell of the report: JavaScript prints null as "null". */
  function TimeCell(t: Option<string>): string
  {
    match t
    case None => "null"
    case Some(s) => s
  }

  const CsvHeader: string := "Date,Status,Check-in,Check-out"

  /** One line of an employee's report. */
  function CsvRow(r: Record): string
  {
    r.date + "," + r.status + "," + TimeCell(r.checkIn) + "," + TimeCell(r.checkOut)
  }

  /** The employee's records, in list order. */
  function RecordsOf(rs: seq<Record>, id: Id): seq<Record>
  {
    Filter(rs, (r: Record) => r.employee == id)
  }

  function CsvRows(recs: seq<Record>): (rows: seq<string>)
    ensures |rows| == |recs|
    ensures forall k :: 0 <= k < |recs| ==> rows[k] == CsvRow(recs[k])
  {
    seq(|recs|, k requires 0 <= k < |recs| => CsvRow(recs[k]))
  }

  /** The text of `downloadReport` for one employee: the header line, then
      one line per record of that employee. */
  function CsvText(rs: seq<Record>, id: Id): string
  {
    CsvHeader + "\n" + Join(CsvRows(RecordsOf(rs, id)), "\n")
  }

  /** A row splits back into its four cells when no cell holds a comma. */
  lemma CsvRowCells(r: Record)
    requires ',' !in r.date && ',' !in r.status
    requires ',' !in TimeCell(r.checkIn) && ',' !in TimeCell(r.checkOut)
    ensures SplitOn(CsvRow(r), ',') == [r.date, r.status, TimeCell(r.checkIn), TimeCell(r.checkOut)]
  {
    var a, b, c, d := r.date, r.status, TimeCell(r.checkIn), TimeCell(r.checkOut);
    assert CsvRow(r) == a + [','] + (b + [','] + (c + [','] + d));
    SplitAtFirst(a, b + [','] + (c + [','] + d), ',');
    SplitAtFirst(b, c + [','] + d, ',');
    SplitAtFirst(c, d, ',');
    SplitNoSeparator(d, ',');
  }

  /** The report's lines are the header and then one row per record of the
      employee, when no cell holds a line break. */
  lemma CsvTextLines(rs: seq<Record>, id: Id)
    requires forall r :: r in rs ==> '\n' !in CsvRow(r)
    ensures RecordsOf(rs, id) != [] ==>
      SplitOn(CsvText(rs, id), '\n') == [CsvHeader] + CsvRows(RecordsOf(rs, id))
    ensures RecordsOf(rs, id) == [] ==> SplitOn(CsvText(rs, id), '\n') == [CsvHeader, ""]
  {
    var rows := CsvRows(RecordsOf(rs, id));
    assert '\n' !in CsvHeader;
    assert CsvText(rs, id) == CsvHeader + ['\n'] + Join(rows, "\n");
    SplitAtFirst(CsvHeader, Join(rows, "\n"), '\n');
    if rows != [] {
      forall k | 0 <= k < |rows| ensures '\n' !in rows[k] {
        assert RecordsOf(rs, id)[k] in RecordsOf(rs, id);
      }
      SplitJoin(rows, '\n');
    }
  }
}
