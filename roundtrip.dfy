/** What the browser and the server promise together: an attendance write
    sent by the dashboard, upserted by the server and fetched back, rebuilds
    to the status the optimistic update showed. */
module EndToEnd {
  import opened Records
  import opened Text
  import opened Dashboard
  import opened DashboardViews
  import Store

  /** After an accepted write, `find` on the written pair returns the written
      status, stripped of surrounding whitespace, and the written check-in,
      whichever branch the server took. */
  lemma UpsertFindsWritten(rs: seq<Record>, known: set<Id>, p: Payload)
    requires Store.CreateValid(p, known)
    ensures var f := FindRecord(Store.Upsert(rs, known, p).records, p.employee.value, p.date.value);
      f.Some? && f.value.status == Strip(p.status.value) &&
      (p.checkIn.Given? ==> f.value.checkIn == p.checkIn.value)
  {
    var out := Store.Upsert(rs, known, p).records;
    var id, date := p.employee.value, p.date.value;
    match Store.Target(rs, p)
    case Some(i) =>
      Store.KeysStable(rs, known, p);
      SameKeysSameFirst(rs, out, id, date);
    case None =>
      var n := |rs|;
      assert out == rs + [Store.NewRecord(p)];
      assert IsFor(out[n], id, date);
      assert FirstFor(out, id, date) == Some(n);
  }

  /** A write for one pair does not change what `find` returns for any
      other pair. */
  lemma UpsertFindsOthersUnchanged(rs: seq<Record>, known: set<Id>, p: Payload, id: Id, date: string)
    requires !(p.employee == Given(id) && p.date == Given(date))
    ensures FindRecord(Store.Upsert(rs, known, p).records, id, date) == FindRecord(rs, id, date)
  {
    var out := Store.Upsert(rs, known, p);
    Store.KeysStable(rs, known, p);
    if out.response.code == 201 {
      assert Store.Target(rs, p).None?;
      assert out.records == rs + [out.records[|rs|]];
      assert !IsFor(out.records[|rs|], id, date);
      assert FirstFor(out.records, id, date) == FirstFor(rs, id, date) by {
        match FirstFor(rs, id, date)
        case None =>
        case Some(k) =>
      }
    } else {
      SameKeysSameFirst(rs, out.records, id, date);
      match FirstFor(rs, id, date)
      case None =>
      case Some(k) =>
        Store.OtherPairsUnchanged(rs, known, p, k);
    }
  }

  /** The dashboard's status strings carry no surrounding whitespace. */
  lemma LabelsStripped()
    ensures Strip("On-time") == "On-time"
    ensures Strip("Present") == "Present"
    ensures Strip("Absent") == "Absent"
  {
    StripSpec("On-time");
    StripSpec("Present");
    StripSpec("Absent");
  }

  /** "Present" goes out as "On-time"; either way a status the server
      accepts stays acceptable. */
  lemma EncodedValid(status: string)
    requires Store.StatusValid(status)
    ensures Store.StatusValid(Encoded(status))
  {
    LabelsStripped();
  }

  /** The status stored for a mark reads back as the upper-cased stripped
      status, unless that is "On-time" itself. */
  lemma EncodedReadsBack(status: string)
    requires Strip(status) != "On-time"
    ensures ReconciledStatus(Some(Record("", "", Strip(Encoded(status)), None, None))) == ToUpper(Strip(status))
  {
    if status == "Present" {
      LabelsStripped();
      assert ToUpper("Present") == Present;
    }
  }

  /** The synchronous mark, the server's upsert and the rebuild after the
      refetch agree: a status without surrounding whitespace other than the
      literal "On-time" rebuilds to the optimistic entry, and the stored
      check-in is null exactly for "Absent". */
  lemma MarkRoundTrip(emps: seq<Employee>, server: seq<Record>, known: set<Id>,
                      id: Id, date: string, status: string, now: string)
    requires id in Ids(emps) && id in known
    requires Store.StatusValid(status)
    requires Strip(status) != "On-time"
    ensures var after := Store.Upsert(server, known, WritePayload(id, date, status, now));
      after.response.code != 400 &&
      id in Synced(emps, after.records, date) &&
      Synced(emps, after.records, date)[id] == Entry(ToUpper(Strip(status)), false)
    ensures var f := FindRecord(Store.Upsert(server, known, WritePayload(id, date, status, now)).records, id, date);
      f.Some? && f.value.status == Strip(Encoded(status)) && f.value.checkIn == EncodedCheckIn(status, now)
  {
    var p := WritePayload(id, date, status, now);
    var after := Store.Upsert(server, known, p).records;
    EncodedValid(status);
    EncodedReadsBack(status);
    UpsertFindsWritten(server, known, p);
    SyncedCovers(emps, after, date);
  }

  /** A mark whose status is blank is refused by the server, so its
      continuation is the revert: the table, and hence the rebuild, stay as
      they were. */
  lemma BlankMarkRejected(emps: seq<Employee>, server: seq<Record>, known: set<Id>,
                          id: Id, date: string, status: string, now: string)
    requires Blank(status)
    ensures Store.Upsert(server, known, WritePayload(id, date, status, now))
            == Store.Outcome(server, Store.Response(400, None))
  {
    assert status == "" || IsSpace(status[0]);
    assert !IsSpace("Present"[0]);
    Store.BlankStatusRejected(server, known, WritePayload(id, date, status, now));
  }

  /** The dashboard marks only "Present" and "Absent"; a direct "On-time"
      mark is the one status whose optimistic value the rebuild does not
      reproduce: it shows ON-TIME first and PRESENT after the refetch. */
  lemma OnTimeMarkReadsBackPresent(emps: seq<Employee>, server: seq<Record>, known: set<Id>,
                                   id: Id, date: string, now: string)
    requires id in Ids(emps) && id in known
    ensures var after := Store.Upsert(server, known, WritePayload(id, date, "On-time", now)).records;
      id in Synced(emps, after, date) &&
      Synced(emps, after, date)[id].status == Present != ToUpper("On-time")
  {
    var p := WritePayload(id, date, "On-time", now);
    LabelsStripped();
    UpsertFindsWritten(server, known, p);
    SyncedCovers(emps, Store.Upsert(server, known, p).records, date);
    assert ToUpper("On-time")[1] == 'N';
  }

  /** The server applying a batch of writes one after the other. */
  function ApplyAll(rs: seq<Record>, known: set<Id>, ps: seq<Payload>): seq<Record>
    decreases |ps|
  {
    if ps == [] then rs else ApplyAll(Store.Upsert(rs, known, ps[0]).records, known, ps[1..])
  }

  /** One write of a batch: accepted, for `date`, with the batch's status
      and check-in. */
  predicate BatchWrite(p: Payload, known: set<Id>, date: string, enc: string, checkIn: Option<string>)
  {
    Store.CreateValid(p, known) && p.date == Given(date) && p.status == Given(enc) && p.checkIn == Given(checkIn)
  }

  /** After a batch of accepted writes for one date that all carry the same
      status and check-in, `find` returns that status and check-in for
      every employee written, and what it returned before for everyone
      else. */
  lemma {:induction false} ApplyAllFind(rs: seq<Record>, known: set<Id>, ps: seq<Payload>,
                                        id: Id, date: string, enc: string, checkIn: Option<string>)
    requires forall k :: 0 <= k < |ps| ==> BatchWrite(ps[k], known, date, enc, checkIn)
    ensures (exists k :: 0 <= k < |ps| && ps[k].employee == Given(id)) ==>
      var f := FindRecord(ApplyAll(rs, known, ps), id, date);
      f.Some? && f.value.status == Strip(enc) && f.value.checkIn == checkIn
    ensures (forall k :: 0 <= k < |ps| ==> ps[k].employee != Given(id)) ==>
      FindRecord(ApplyAll(rs, known, ps), id, date) == FindRecord(rs, id, date)
    decreases |ps|
  {
    if ps != [] {
      var next := Store.Upsert(rs, known, ps[0]).records;
      ApplyAllFind(next, known, ps[1..], id, date, enc, checkIn);
      assert forall k :: 1 <= k < |ps| ==> ps[k] == ps[1..][k - 1];
      if ps[0].employee == Given(id) {
        UpsertFindsWritten(rs, known, ps[0]);
        if exists k :: 1 <= k < |ps| && ps[k].employee == Given(id) {
          var k :| 1 <= k < |ps| && ps[k].employee == Given(id);
          assert ps[1..][k - 1].employee == Given(id);
        }
      } else {
        UpsertFindsOthersUnchanged(rs, known, ps[0], id, date);
        if exists k :: 0 <= k < |ps| && ps[k].employee == Given(id) {
          var k :| 0 <= k < |ps| && ps[k].employee == Given(id);
          assert ps[1..][k - 1].employee == Given(id);
        }
      }
    }
  }

  /** A confirmed bulk mark whose writes are all accepted rebuilds, after
      the refetch, to the bulk status for every roster employee, but with
      the bulk flag cleared. */
  lemma BulkRoundTrip(emps: seq<Employee>, server: seq<Record>, known: set<Id>,
                      date: string, status: string, now: string)
    requires Ids(emps) <= known
    requires Store.StatusValid(status)
    requires Strip(status) != "On-time"
    ensures var after := ApplyAll(server, known, BulkWrites(emps, date, status, now));
      Synced(emps, after, date).Keys == Ids(emps) &&
      forall id :: id in Ids(emps) ==> Synced(emps, after, date)[id] == Entry(ToUpper(Strip(status)), false)
  {
    var ws := BulkWrites(emps, date, status, now);
    var after := ApplyAll(server, known, ws);
    SyncedCovers(emps, after, date);
    BulkWritesAreBatch(emps, known, date, status, now);
    forall id | id in Ids(emps)
      ensures EntryFor(after, date, id) == Entry(ToUpper(Strip(status)), false)
    {
      BulkEntry(emps, ws, server, known, date, status, now, id);
    }
  }

  lemma BulkWritesAreBatch(emps: seq<Employee>, known: set<Id>, date: string, status: string, now: string)
    requires Ids(emps) <= known
    requires Store.StatusValid(status)
    requires Strip(status) != "On-time"
    ensures var ws := BulkWrites(emps, date, status, now);
      forall k :: 0 <= k < |ws| ==> BatchWrite(ws[k], known, date, Encoded(status), EncodedCheckIn(status, now))
  {
    var ws := BulkWrites(emps, date, status, now);
    EncodedValid(status);
    forall k | 0 <= k < |ws|
      ensures BatchWrite(ws[k], known, date, Encoded(status), EncodedCheckIn(status, now))
    {
      assert emps[k] in emps;
      assert emps[k].id in Ids(emps);
    }
  }

  lemma BulkEntry(emps: seq<Employee>, ws: seq<Payload>, server: seq<Record>, known: set<Id>,
                  date: string, status: string, now: string, id: Id)
    requires ws == BulkWrites(emps, date, status, now)
    requires forall k :: 0 <= k < |ws| ==> BatchWrite(ws[k], known, date, Encoded(status), EncodedCheckIn(status, now))
    requires id in Ids(emps)
    requires Store.StatusValid(status)
    requires Strip(status) != "On-time"
    ensures EntryFor(ApplyAll(server, known, ws), date, id) == Entry(ToUpper(Strip(status)), false)
  {
    var k :| 0 <= k < |emps| && emps[k].id == id;
    assert ws[k].employee == Given(id);
    ApplyAllFind(server, known, ws, id, date, Encoded(status), EncodedCheckIn(status, now));
    EncodedReadsBack(status);
  }

  /** Because the rebuild clears the bulk flag, a second bulk request right
      after a successful one warns of overriding individual selections,
      although every entry was set by the bulk action. */
  lemma BulkThenRefetchWarnsOverride(emps: seq<Employee>, server: seq<Record>, known: set<Id>,
                                     date: string, status: string, now: string)
    requires emps != []
    requires Ids(emps) <= known
    requires status == "Present" || status == "Absent"
    ensures HasIndividuals(Synced(emps, ApplyAll(server, known, BulkWrites(emps, date, status, now)), date))
  {
    LabelsStripped();
    BulkRoundTrip(emps, server, known, date, status, now);
    var id := emps[0].id;
    assert id in Ids(emps);
    assert ToUpper(status)[1] != 'E';
  }

  /** Marking one employee on a date moves the header counts for that date
      by exactly the record it replaces and the record it writes. */
  lemma MarkMovesDayCounts(rs: seq<Record>, known: set<Id>, id: Id, date: string, status: string, now: string)
    requires id in known && Store.StatusValid(status)
    ensures var after := Store.Upsert(rs, known, WritePayload(id, date, status, now)).records;
      var before := FindRecord(rs, id, date);
      var written := Strip(Encoded(status));
      PresentCount(after, date) ==
        PresentCount(rs, date) - (if before.Some? && PresentOnDate(date, before.value) then 1 else 0)
          + (if written == "On-time" || written == "Present" then 1 else 0) &&
      AbsentCount(after, date) ==
        AbsentCount(rs, date) - (if before.Some? && AbsentOnDate(date, before.value) then 1 else 0)
          + (if written == "Absent" then 1 else 0)
  {
    var p := WritePayload(id, date, status, now);
    var after := Store.Upsert(rs, known, p).records;
    var written := Strip(Encoded(status));
    match Store.Target(rs, p)
    case Some(i) =>
      var u := Store.Patch(rs[i], p);
      assert after == rs[i := u] && FindRecord(rs, id, date) == Some(rs[i]) by {
        EncodedValid(status);
      }
      assert u.date == date && u.status == written;
      CountsAfterReplace(rs, i, u, date);
    case None =>
      var n := Store.NewRecord(p);
      assert after == rs + [n] && FindRecord(rs, id, date) == None by {
        EncodedValid(status);
      }
      assert n.date == date && n.status == written;
      CountsAfterAppend(rs, n, date);
  }

  /** Replacing one record moves each count by that record alone. */
  lemma CountsAfterReplace(rs: seq<Record>, i: nat, u: Record, date: string)
    requires i < |rs|
    ensures PresentCount(rs[i := u], date) ==
      PresentCount(rs, date) - (if PresentOnDate(date, rs[i]) then 1 else 0) + (if PresentOnDate(date, u) then 1 else 0)
    ensures AbsentCount(rs[i := u], date) ==
      AbsentCount(rs, date) - (if AbsentOnDate(date, rs[i]) then 1 else 0) + (if AbsentOnDate(date, u) then 1 else 0)
  {
    assert rs[i := u] == rs[..i] + [u] + rs[i + 1..];
    assert rs == rs[..i] + [rs[i]] + rs[i + 1..];
    FilterSplit(rs[..i], rs[i], rs[i + 1..], r => PresentOnDate(date, r));
    FilterSplit(rs[..i], u, rs[i + 1..], r => PresentOnDate(date, r));
    FilterSplit(rs[..i], rs[i], rs[i + 1..], r => AbsentOnDate(date, r));
    FilterSplit(rs[..i], u, rs[i + 1..], r => AbsentOnDate(date, r));
  }

  /** Appending one record moves each count by that record alone. */
  lemma CountsAfterAppend(rs: seq<Record>, n: Record, date: string)
    ensures PresentCount(rs + [n], date) == PresentCount(rs, date) + (if PresentOnDate(date, n) then 1 else 0)
    ensures AbsentCount(rs + [n], date) == AbsentCount(rs, date) + (if AbsentOnDate(date, n) then 1 else 0)
  {
    FilterConcat(rs, [n], r => PresentOnDate(date, r));
    FilterConcat(rs, [n], r => AbsentOnDate(date, r));
  }

  lemma FilterSplit(a: seq<Record>, x: Record, b: seq<Record>, keep: Record -> bool)
    ensures |Filter(a + [x] + b, keep)| == |Filter(a, keep)| + (if keep(x) then 1 else 0) + |Filter(b, keep)|
  {
    FilterConcat(a + [x], b, keep);
    FilterConcat(a, [x], keep);
  }

  /** The rebuild and the bulk overwrite of the two-employee scenario. */
  lemma ScenarioMaps(a: Employee, b: Employee)
    requires a.id == "A" && b.id == "B"
    ensures Synced([a, b], [], "2024-01-01") == map["A" := Entry(Pending, false), "B" := Entry(Pending, false)]
    ensures BulkApplied(map["A" := Entry(Present, false), "B" := Entry(Pending, false)], [a, b], "Absent")
            == map["A" := Entry("ABSENT", true), "B" := Entry("ABSENT", true)]
  {
    SyncedCovers([a, b], [], "2024-01-01");
    assert Ids([a, b]) == {"A", "B"};
    BulkAppliedSpec(map["A" := Entry(Present, false), "B" := Entry(Pending, false)], [a, b], "Absent");
    assert ToUpper("Absent") == "ABSENT";
  }

  /** Finalizing three employees: refused while one is PENDING, then two
      present and one absent once that one is marked present. */
  lemma FinalizeScenario(date: string)
    ensures Finalize(map["A" := Entry(Present, false), "B" := Entry("ABSENT", false),
                         "C" := Entry(Pending, false)], 3, date) == None
    ensures Finalize(map["A" := Entry(Present, false), "B" := Entry("ABSENT", false),
                         "C" := Entry(Present, false)], 3, date) == Some(Summary(date, 3, 2, 1))
  {
    var pending := map["A" := Entry(Present, false), "B" := Entry("ABSENT", false), "C" := Entry(Pending, false)];
    assert "C" in pending && pending["C"].status == Pending;
    var done := pending["C" := Entry(Present, false)];
    assert Present[1] != Pending[1];
    assert done.Keys == {"A", "B", "C"};
    assert !exists id :: id in done && done[id].status == Pending;
    assert WithStatus(done, Present) == {"A", "C"};
    assert WithStatus(done, "ABSENT") == {"B"};
    assert |WithStatus(done, Present)| == 2;
    assert |WithStatus(done, "ABSENT")| == 1;
    assert done == map["A" := Entry(Present, false), "B" := Entry("ABSENT", false), "C" := Entry(Present, false)];
  }

  /** A client of the dashboard state: two employees with no records, one
      individual mark, and a bulk mark over it that warns of the override. */
  method Scenario()
  {
    var a := Employee("A", "E001", "Ada", "Ops");
    var b := Employee("B", "E002", "Bo", "Ops");
    ScenarioMaps(a, b);
    var board := new AttendanceBoard("2024-01-01");
    board.Load(Some([a, b]), Some([]));
    assert board.state == map["A" := Entry(Pending, false), "B" := Entry(Pending, false)];
    var w := board.MarkOne("A", "Present", "09:00:00");
    assert ToUpper("Present") == Present;
    assert board.state == map["A" := Entry(Present, false), "B" := Entry(Pending, false)];
    assert w.status == Given("On-time") && w.checkIn == Given(Some("09:00:00"));
    board.RequestBulk("Absent");
    assert board.confirm.override by {
      assert "A" in board.state && board.state["A"].status != Pending && !board.state["A"].isBulkAction;
    }
    var ws := board.ConfirmBulk("09:01:00");
    assert board.state == map["A" := Entry("ABSENT", true), "B" := Entry("ABSENT", true)];
    assert |ws| == 2 && ws[1].checkIn == Given(None);
    assert board.confirm == Closed;
  }
}
