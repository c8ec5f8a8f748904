/** The attendance reconciliation state of the dashboard: the roster, the
    fetched attendance records, the selected date, the per-employee map of
    reconciled statuses and the bulk-confirmation dialog, with the handlers
    that rebuild, patch and overwrite the map. */
module Dashboard {
  import opened Records
  import opened Text

  datatype Employee = Employee(id: Id, code: string, fullName: string, department: string)

  /** One value of the `attendanceState` map. */
  datatype Entry = Entry(status: string, isBulkAction: bool)

  /** The `showBulkConfirm` dialog record. */
  datatype BulkConfirm = BulkConfirm(show: bool, status: string, override: bool)

  const Pending: string := "PENDING"
  const Present: string := "PRESENT"
  const Closed: BulkConfirm := BulkConfirm(false, "", false)

  /** How an attendance write ends: the request was rejected (a network
      error, or a non-ok answer where the caller checks for one), or it was
      accepted and the list was fetched again, which itself may fail and
      then leaves the fetched records as they were. */
  datatype WriteOutcome = Rejected | Accepted(refetched: Option<seq<Record>>)

  /** The identifiers of a roster. */
  function Ids(emps: seq<Employee>): set<Id>
  {
    set e | e in emps :: e.id
  }

  /** The status shown for an employee, given the record `find` returned:
      "On-time" reads as PRESENT, any other status is upper-cased, and no
      record at all is PENDING. */
  function ReconciledStatus(rec: Option<Record>): string
  {
    match rec
    case None => Pending
    case Some(r) => if r.status == "On-time" then Present else ToUpper(r.status)
  }

  /** The entry a rebuild gives employee `id` on `date`. */
  function EntryFor(rs: seq<Record>, date: string, id: Id): Entry
  {
    Entry(ReconciledStatus(FindRecord(rs, id, date)), false)
  }

  /** `syncAttendanceToState`: a rebuilt map filled roster entry by roster
      entry (a repeated id is simply written again). */
  function Synced(emps: seq<Employee>, rs: seq<Record>, date: string): map<Id, Entry>
    decreases |emps|
  {
    if emps == [] then map[]
    else
      var last := emps[|emps| - 1];
      Synced(emps[..|emps| - 1], rs, date)[last.id := EntryFor(rs, date, last.id)]
  }

  lemma IdsSnoc(emps: seq<Employee>)
    requires emps != []
    ensures Ids(emps) == Ids(emps[..|emps| - 1]) + {emps[|emps| - 1].id}
  {
    assert emps == emps[..|emps| - 1] + [emps[|emps| - 1]];
  }

  /** After a rebuild the map has exactly one entry per roster employee,
      computed from the records alone and never marked as bulk. */
  lemma {:induction false} SyncedCovers(emps: seq<Employee>, rs: seq<Record>, date: string)
    ensures Synced(emps, rs, date).Keys == Ids(emps)
    ensures forall id :: id in Ids(emps) ==> Synced(emps, rs, date)[id] == EntryFor(rs, date, id)
    ensures forall id :: id in Ids(emps) ==> !Synced(emps, rs, date)[id].isBulkAction
    decreases |emps|
  {
    if emps != [] {
      SyncedCovers(emps[..|emps| - 1], rs, date);
      IdsSnoc(emps);
    }
  }

  /** An employee with no record on the date is PENDING. */
  lemma NoRecordIsPending(emps: seq<Employee>, rs: seq<Record>, date: string, id: Id)
    requires id in Ids(emps)
    requires forall j :: 0 <= j < |rs| ==> !IsFor(rs[j], id, date)
    ensures id in Synced(emps, rs, date) && Synced(emps, rs, date)[id] == Entry(Pending, false)
  {
    SyncedCovers(emps, rs, date);
  }

  /** With several records for the pair, the first in list order decides:
      "On-time" shows as PRESENT and any other status upper-cased. */
  lemma FirstRecordDecides(emps: seq<Employee>, rs: seq<Record>, date: string, j: nat)
    requires j < |rs| && rs[j].employee in Ids(emps) && rs[j].date == date
    requires forall k :: 0 <= k < j ==> !IsFor(rs[k], rs[j].employee, date)
    ensures rs[j].employee in Synced(emps, rs, date)
    ensures var e := Synced(emps, rs, date)[rs[j].employee];
      !e.isBulkAction &&
      (rs[j].status == "On-time" ==> e.status == Present) &&
      (rs[j].status != "On-time" ==> e.status == ToUpper(rs[j].status))
  {
    SyncedCovers(emps, rs, date);
    assert FirstFor(rs, rs[j].employee, date) == Some(j);
  }

  /** PENDING means no record, or a first record whose status upper-cases
      to PENDING; "On-time" never does. */
  lemma PendingIffUnrecorded(emps: seq<Employee>, rs: seq<Record>, date: string, id: Id)
    requires id in Ids(emps)
    ensures id in Synced(emps, rs, date)
    ensures Synced(emps, rs, date)[id].status == Pending <==>
      (FindRecord(rs, id, date).None? || ToUpper(FindRecord(rs, id, date).value.status) == Pending)
  {
    SyncedCovers(emps, rs, date);
    var rec := FindRecord(rs, id, date);
    if rec.Some? && rec.value.status == "On-time" {
      assert ToUpper(rec.value.status)[0] == 'O';
    }
  }

  /** The override warning: some entry is marked and was not set by a bulk
      action. */
  predicate HasIndividuals(state: map<Id, Entry>)
  {
    exists id :: id in state && state[id].status != Pending && !state[id].isBulkAction
  }

  /** The optimistic map after a confirmed bulk mark: every roster employee
      set to the upper-cased status with the bulk flag, in roster order. */
  function BulkApplied(state: map<Id, Entry>, emps: seq<Employee>, status: string): map<Id, Entry>
    decreases |emps|
  {
    if emps == [] then state
    else
      var last := emps[|emps| - 1];
      BulkApplied(state, emps[..|emps| - 1], status)[last.id := Entry(ToUpper(status), true)]
  }

  /** A bulk mark sets every roster employee and keeps the entries of
      everyone else. */
  lemma {:induction false} BulkAppliedSpec(state: map<Id, Entry>, emps: seq<Employee>, status: string)
    ensures BulkApplied(state, emps, status).Keys == state.Keys + Ids(emps)
    ensures forall id :: id in Ids(emps) ==> BulkApplied(state, emps, status)[id] == Entry(ToUpper(status), true)
    ensures forall id :: id in state && id !in Ids(emps) ==> BulkApplied(state, emps, status)[id] == state[id]
    decreases |emps|
  {
    if emps != [] {
      BulkAppliedSpec(state, emps[..|emps| - 1], status);
      IdsSnoc(emps);
    }
  }

  /** Once a bulk mark covers every entry, asking for another raises no
      override warning. */
  lemma BulkLeavesNoIndividuals(state: map<Id, Entry>, emps: seq<Employee>, status: string)
    requires state.Keys <= Ids(emps)
    ensures !HasIndividuals(BulkApplied(state, emps, status))
  {
    BulkAppliedSpec(state, emps, status);
  }

  /** An individual mark with a non-PENDING status always raises the
      override warning for the next bulk request. */
  lemma MarkRaisesOverride(state: map<Id, Entry>, id: Id, status: string)
    requires ToUpper(status) != Pending
    ensures HasIndividuals(state[id := Entry(ToUpper(status), false)])
  {
    var s := state[id := Entry(ToUpper(status), false)];
    assert id in s && s[id].status != Pending && !s[id].isBulkAction;
  }

  /** The body of the attendance write for one employee: "Present" goes out
      as "On-time" with a check-in time, "Absent" with a null check-in, any
      other status as it is with a check-in time. No check-out is sent. */
  function WritePayload(id: Id, date: string, status: string, now: string): Payload
  {
    Payload(Given(id), Given(date), Given(Encoded(status)), Given(EncodedCheckIn(status, now)), Missing)
  }

  /** The status string sent for a mark. */
  function Encoded(status: string): string
  {
    if status == "Present" then "On-time" else status
  }

  /** The check-in sent for a mark: the clock reading, or null for
      "Absent". */
  function EncodedCheckIn(status: string, now: string): Option<string>
  {
    if status == "Absent" then None else Some(now)
  }

  /** The bodies `handleBulkAction` sends: one write per roster employee, in
      roster order, all for one date, status and clock reading. */
  function BulkWrites(emps: seq<Employee>, date: string, status: string, now: string): seq<Payload>
  {
    seq(|emps|, k requires 0 <= k < |emps| => WritePayload(emps[k].id, date, status, now))
  }

  /** The dashboard's attendance state. */
  class AttendanceBoard {
    var employees: seq<Employee>
    var records: seq<Record>
    var selectedDate: string
    var state: map<Id, Entry>
    var confirm: BulkConfirm

    /** The initial `useState` values, before anything is fetched. */
    constructor (today: string)
      ensures employees == [] && records == [] && selectedDate == today
      ensures state == map[] && confirm == Closed
    {
      employees, records, selectedDate := [], [], today;
      state, confirm := map[], Closed;
    }

    /** `syncAttendanceToState`. */
    method Sync()
      modifies this`state
      ensures state == Synced(employees, records, selectedDate)
    {
      var rebuilt: map<Id, Entry> := map[];
      var i := 0;
      while i < |employees|
        invariant 0 <= i <= |employees|
        invariant rebuilt == Synced(employees[..i], records, selectedDate)
      {
        var emp := employees[i];
        var rec := FindRecord(records, emp.id, selectedDate);
        rebuilt := rebuilt[emp.id := Entry(ReconciledStatus(rec), false)];
        assert employees[..i + 1][..i] == employees[..i];
        i := i + 1;
      }
      assert employees[..i] == employees;
      state := rebuilt;
    }

    /** `initApp`: each list is replaced when its fetch succeeds; a change
        of either one triggers a rebuild. */
    method Load(emps: Option<seq<Employee>>, recs: Option<seq<Record>>)
      modifies this`employees, this`records, this`state
      ensures employees == (if emps.Some? then emps.value else old(employees))
      ensures records == (if recs.Some? then recs.value else old(records))
      ensures emps.Some? || recs.Some? ==> state == Synced(employees, records, selectedDate)
      ensures emps.None? && recs.None? ==> state == old(state)
    {
      if emps.Some? {
        employees := emps.value;
      }
      if recs.Some? {
        records := recs.value;
      }
      if emps.Some? || recs.Some? {
        Sync();
      }
    }

    /** The date picker: a different date triggers a rebuild. */
    method SelectDate(date: string)
      modifies this`selectedDate, this`state
      ensures selectedDate == date
      ensures date != old(selectedDate) ==> state == Synced(employees, records, date)
      ensures date == old(selectedDate) ==> state == old(state)
    {
      if date != selectedDate {
        selectedDate := date;
        Sync();
      }
    }

    /** The synchronous half of `markAttendance`: the optimistic update of
        one entry, and the body of the write it sends. */
    method MarkOne(id: Id, status: string, now: string) returns (write: Payload)
      modifies this`state
      ensures state == old(state)[id := Entry(ToUpper(status), false)]
      ensures forall other :: other in old(state) && other != id ==> state[other] == old(state)[other]
      ensures write == WritePayload(id, selectedDate, status, now)
    {
      state := state[id := Entry(ToUpper(status), false)];
      write := WritePayload(id, selectedDate, status, now);
    }

    /** The continuation of a single or bulk write: a rejected write reverts
        by rebuilding from the unchanged records; an accepted one installs
        the refetched list, which triggers a rebuild, unless that fetch
        failed too. */
    method Settle(outcome: WriteOutcome)
      modifies this`state, this`records
      ensures outcome.Rejected? ==> records == old(records) && state == Synced(employees, records, selectedDate)
      ensures outcome.Accepted? && outcome.refetched.Some? ==>
                records == outcome.refetched.value && state == Synced(employees, records, selectedDate)
      ensures outcome == Accepted(None) ==> records == old(records) && state == old(state)
    {
      match outcome {
        case Rejected =>
          Sync();
        case Accepted(refetched) =>
          if refetched.Some? {
            records := refetched.value;
            Sync();
          }
      }
    }

    /** `bulkMarkAttendance`: opens the dialog, warning of an override when
        an individually marked entry exists; the map is not touched. */
    method RequestBulk(status: string)
      modifies this`confirm
      ensures confirm == BulkConfirm(true, status, HasIndividuals(state))
    {
      confirm := BulkConfirm(true, status, HasIndividuals(state));
    }

    /** The dialog's Cancel button. */
    method CancelBulk()
      modifies this`confirm
      ensures confirm == Closed
    {
      confirm := Closed;
    }

    /** The synchronous half of `handleBulkAction`: closes the dialog, sets
        every roster employee to the dialog's status with the bulk flag, and
        returns one write per roster employee, in roster order. */
    method ConfirmBulk(now: string) returns (writes: seq<Payload>)
      modifies this`state, this`confirm
      ensures confirm == Closed
      ensures state == BulkApplied(old(state), employees, old(confirm).status)
      ensures writes == BulkWrites(employees, selectedDate, old(confirm).status, now)
    {
      var status := confirm.status;
      confirm := Closed;
      var updated := state;
      var i := 0;
      while i < |employees|
        invariant 0 <= i <= |employees|
        invariant updated == BulkApplied(old(state), employees[..i], status)
      {
        updated := updated[employees[i].id := Entry(ToUpper(status), true)];
        assert employees[..i + 1][..i] == employees[..i];
        i := i + 1;
      }
      assert employees[..i] == employees;
      state := updated;
      writes := [];
      i := 0;
      while i < |employees|
        invariant 0 <= i <= |employees|
        invariant |writes| == i
        invariant forall k :: 0 <= k < i ==> writes[k] == WritePayload(employees[k].id, selectedDate, status, now)
      {
        writes := writes + [WritePayload(employees[i].id, selectedDate, status, now)];
        i := i + 1;
      }
      assert writes == BulkWrites(employees, selectedDate, status, now);
    }
  }
}
