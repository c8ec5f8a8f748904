/** The attendance endpoint of the server: `POST /attendance/` is an upsert
    keyed on (employee, date). An existing record for the pair is partially
    updated in place (200); otherwise a new record is created (201); a body
    the serializer rejects leaves the table as it was (400). */
module Store {
  import opened Records
  import opened Text

  /** `status = CharField(max_length=20)`. */
  const MaxStatusLength: nat := 20

  datatype Response = Response(code: int, body: Option<Record>)

  /** The table after a request, and the answer to it. */
  datatype Outcome = Outcome(records: seq<Record>, response: Response)

  /** Every record points at an existing employee (the foreign key). */
  ghost predicate KnownEmployees(rs: seq<Record>, known: set<Id>)
  {
    forall j :: 0 <= j < |rs| ==> rs[j].employee in known
  }

  /** The status column is a `CharField` without `blank=True`: the
      serializer strips surrounding whitespace, refuses what is left when it
      is empty, checks the stripped value against the column width, and
      refuses any NUL character. */
  predicate StatusValid(status: string)
  {
    Strip(status) != "" && |Strip(status)| <= MaxStatusLength && '\0' !in status
  }

  /** What the serializer checks of the fields a body carries: the employee
      must exist and the status must be valid for its column. */
  predicate FieldsValid(p: Payload, known: set<Id>)
  {
    (p.employee.Given? ==> p.employee.value in known) &&
    (p.status.Given? ==> StatusValid(p.status.value))
  }

  /** A full (non-partial) body must also carry every required field;
      check-in and check-out may be left out. */
  predicate CreateValid(p: Payload, known: set<Id>)
  {
    FieldsValid(p, known) && p.employee.Given? && p.date.Given? && p.status.Given?
  }

  /** The status the serializer stores: the given one, stripped. */
  function StoredStatus(p: Payload, current: string): string
  {
    if p.status.Given? then Strip(p.status.value) else current
  }

  /** The partial update: only the fields the body carries change. */
  function Patch(r: Record, p: Payload): Record
  {
    Record(p.employee.GetOr(r.employee), p.date.GetOr(r.date), StoredStatus(p, r.status),
           p.checkIn.GetOr(r.checkIn), p.checkOut.GetOr(r.checkOut))
  }

  /** The row a full body creates; a left-out time is stored as null. */
  function NewRecord(p: Payload): Record
    requires p.employee.Given? && p.date.Given? && p.status.Given?
  {
    Record(p.employee.value, p.date.value, Strip(p.status.value),
           p.checkIn.GetOr(None), p.checkOut.GetOr(None))
  }

  /** The existing row the request would update: the first record for the
      body's (employee, date). A body lacking either key matches nothing. */
  function Target(rs: seq<Record>, p: Payload): (t: Option<nat>)
    ensures t.Some? ==> t.value < |rs| && p.employee == Given(rs[t.value].employee)
                        && p.date == Given(rs[t.value].date)
    ensures t.None? <==> forall j :: 0 <= j < |rs| ==>
                          !(p.employee == Given(rs[j].employee) && p.date == Given(rs[j].date))
  {
    if p.employee.Given? && p.date.Given? then FirstFor(rs, p.employee.value, p.date.value)
    else None
  }

  /** `AttendanceViewSet.create`, as a function of the table before the
      request. */
  function Upsert(rs: seq<Record>, known: set<Id>, p: Payload): (out: Outcome)
    ensures out.response.code == 400 ==> out.records == rs && out.response.body.None?
    ensures out.response.code == 200 ==> |out.records| == |rs|
    ensures out.response.code == 201 ==> |out.records| == |rs| + 1
    ensures out.response.code in {200, 201, 400}
    ensures out.response.code == 400 <==>
              (if Target(rs, p).Some? then !FieldsValid(p, known) else !CreateValid(p, known))
  {
    match Target(rs, p)
    case Some(i) =>
      if FieldsValid(p, known) then
        var updated := Patch(rs[i], p);
        Outcome(rs[i := updated], Response(200, Some(updated)))
      else
        Outcome(rs, Response(400, None))
    case None =>
      if CreateValid(p, known) then
        var created := NewRecord(p);
        Outcome(rs + [created], Response(201, Some(created)))
      else
        Outcome(rs, Response(400, None))
  }

  /** An existing record is updated in place and answered with 200; no
      record is added and every other row is untouched, including the later
      duplicates of the pair (only the first match is consulted). */
  lemma UpdateInPlace(rs: seq<Record>, known: set<Id>, p: Payload, i: nat)
    requires Target(rs, p) == Some(i)
    requires FieldsValid(p, known)
    ensures Upsert(rs, known, p).response == Response(200, Some(Patch(rs[i], p)))
    ensures |Upsert(rs, known, p).records| == |rs|
    ensures Upsert(rs, known, p).records[i] == Patch(rs[i], p)
    ensures forall j :: 0 <= j < |rs| && j != i ==> Upsert(rs, known, p).records[j] == rs[j]
  {
  }

  /** With no record for the pair, a valid body appends exactly one new row. */
  lemma CreateNew(rs: seq<Record>, known: set<Id>, p: Payload)
    requires p.employee.Given? && p.date.Given?
    requires forall j :: 0 <= j < |rs| ==> !IsFor(rs[j], p.employee.value, p.date.value)
    requires CreateValid(p, known)
    ensures Upsert(rs, known, p).records == rs + [NewRecord(p)]
    ensures Upsert(rs, known, p).response == Response(201, Some(NewRecord(p)))
  {
  }

  /** The update is partial: a field the body leaves out keeps its stored
      value (a re-mark does not erase the check-out time), while the key
      fields stay those of the matched row. */
  lemma PartialUpdateKeeps(rs: seq<Record>, known: set<Id>, p: Payload, i: nat)
    requires Target(rs, p) == Some(i)
    requires FieldsValid(p, known)
    ensures var u := Upsert(rs, known, p).records[i];
      u.employee == rs[i].employee && u.date == rs[i].date &&
      (p.status.Missing? ==> u.status == rs[i].status) &&
      (p.checkIn.Missing? ==> u.checkIn == rs[i].checkIn) &&
      (p.checkOut.Missing? ==> u.checkOut == rs[i].checkOut)
  {
  }

  /** Rows for any other (employee, date) pair are left alone by both
      branches. */
  lemma OtherPairsUnchanged(rs: seq<Record>, known: set<Id>, p: Payload, j: nat)
    requires j < |rs|
    requires !(p.employee == Given(rs[j].employee) && p.date == Given(rs[j].date))
    ensures Upsert(rs, known, p).records[j] == rs[j]
  {
  }

  /** The row index, employee and date of every row survive the upsert. */
  lemma {:induction false} KeysStable(rs: seq<Record>, known: set<Id>, p: Payload)
    ensures var out := Upsert(rs, known, p).records;
      |rs| <= |out| && forall j :: 0 <= j < |rs| ==>
        out[j].employee == rs[j].employee && out[j].date == rs[j].date
  {
    match Target(rs, p)
    case Some(i) =>
    case None =>
  }

  /** The upsert keeps the table free of duplicate (employee, date) rows. */
  lemma {:induction false} UpsertKeepsUnique(rs: seq<Record>, known: set<Id>, p: Payload)
    requires UniquePerDay(rs)
    ensures UniquePerDay(Upsert(rs, known, p).records)
  {
    var out := Upsert(rs, known, p);
    KeysStable(rs, known, p);
    if out.response.code == 201 {
      assert Target(rs, p).None?;
      forall i, j | 0 <= i < j < |out.records|
        ensures !IsFor(out.records[j], out.records[i].employee, out.records[i].date)
      {
        if j == |rs| {
          assert out.records[j] == NewRecord(p);
        }
      }
    } else {
      forall i, j | 0 <= i < j < |out.records|
        ensures !IsFor(out.records[j], out.records[i].employee, out.records[i].date)
      {
        assert !IsFor(rs[j], rs[i].employee, rs[i].date);
      }
    }
  }

  /** No request makes a row point at an unknown employee. */
  lemma {:induction false} UpsertKeepsKnown(rs: seq<Record>, known: set<Id>, p: Payload)
    requires KnownEmployees(rs, known)
    ensures KnownEmployees(Upsert(rs, known, p).records, known)
  {
    KeysStable(rs, known, p);
    var out := Upsert(rs, known, p);
    if out.response.code == 201 {
      assert out.records[|rs|] == NewRecord(p);
    }
  }

  /** Posting the same body twice leaves the table as posting it once. */
  lemma {:induction false} UpsertIdempotent(rs: seq<Record>, known: set<Id>, p: Payload)
    ensures var once := Upsert(rs, known, p).records;
      Upsert(once, known, p).records == once
  {
    var once := Upsert(rs, known, p);
    match Target(rs, p)
    case Some(i) =>
      if FieldsValid(p, known) {
        KeysStable(rs, known, p);
        assert Target(once.records, p) == Some(i) by {
          SameKeysSameFirst(rs, once.records, p.employee.value, p.date.value);
        }
      }
    case None =>
      if CreateValid(p, known) {
        var n := |rs|;
        assert once.records[n] == NewRecord(p);
        assert Target(once.records, p) == Some(n);
      }
  }

  /** A body naming a known employee with a status that fits its column is
      always accepted, whichever branch it takes. */
  lemma UpsertAccepts(rs: seq<Record>, known: set<Id>, p: Payload)
    requires CreateValid(p, known)
    ensures Upsert(rs, known, p).response.code != 400
  {
  }

  /** A body whose status is empty or only whitespace is answered 400 and
      changes nothing, whether or not a record for its pair exists. */
  lemma BlankStatusRejected(rs: seq<Record>, known: set<Id>, p: Payload)
    requires p.status.Given? && Blank(p.status.value)
    ensures Upsert(rs, known, p) == Outcome(rs, Response(400, None))
  {
    StripSpec(p.status.value);
  }

  /** A body whose status holds a NUL character is answered 400 and changes
      nothing, whether or not a record for its pair exists. */
  lemma NulStatusRejected(rs: seq<Record>, known: set<Id>, p: Payload)
    requires p.status.Given? && '\0' in p.status.value
    ensures Upsert(rs, known, p) == Outcome(rs, Response(400, None))
  {
  }

  /** With one row per (employee, date), a body for the pair of row `j`
      updates row `j` itself, whichever row that is. */
  lemma {:induction false} UniqueRowUpdated(rs: seq<Record>, known: set<Id>, p: Payload, j: nat)
    requires UniquePerDay(rs)
    requires j < |rs| && p.employee == Given(rs[j].employee) && p.date == Given(rs[j].date)
    requires FieldsValid(p, known)
    ensures Upsert(rs, known, p).response == Response(200, Some(Patch(rs[j], p)))
    ensures Upsert(rs, known, p).records == rs[j := Patch(rs[j], p)]
  {
    FirstForUnique(rs, j);
  }

  /** With one row per (employee, date), the record a 200 answer carries is
      the only row for its pair afterwards. */
  lemma {:induction false} UpdatedRowIsOnly(rs: seq<Record>, known: set<Id>, p: Payload)
    requires UniquePerDay(rs)
    requires Upsert(rs, known, p).response.code == 200
    ensures var out := Upsert(rs, known, p);
      out.response.body.Some? &&
      forall j :: 0 <= j < |out.records| && IsFor(out.records[j], out.response.body.value.employee, out.response.body.value.date)
        ==> out.records[j] == out.response.body.value
  {
    var out := Upsert(rs, known, p);
    var i := Target(rs, p).value;
    UpsertKeepsUnique(rs, known, p);
    KeysStable(rs, known, p);
    forall j | 0 <= j < |out.records| && IsFor(out.records[j], out.response.body.value.employee, out.response.body.value.date)
      ensures out.records[j] == out.response.body.value
    {
      assert j == i;
    }
  }

  /** The stored status is the sent one without surrounding whitespace. */
  lemma StatusStoredStripped(rs: seq<Record>, known: set<Id>, p: Payload)
    requires p.status.Given?
    requires Upsert(rs, known, p).response.code != 400
    ensures Upsert(rs, known, p).response.body.Some?
    ensures Upsert(rs, known, p).response.body.value.status == Strip(p.status.value)
    ensures |Upsert(rs, known, p).response.body.value.status| <= MaxStatusLength
  {
  }

  /** The attendance table behind the endpoint. The employee table is read
      but never written here. */
  class AttendanceStore {
    var records: seq<Record>
    const employees: set<Id>

    ghost predicate Valid()
      reads this
    {
      UniquePerDay(records) && KnownEmployees(records, employees)
    }

    constructor (known: set<Id>)
      ensures Valid() && records == [] && employees == known
    {
      records := [];
      employees := known;
    }

    /** `AttendanceViewSet.create`: look up the first row for the body's
        pair, then save it in place or insert a new row. */
    method Create(p: Payload) returns (resp: Response)
      requires Valid()
      modifies this`records
      ensures Valid()
      ensures records == Upsert(old(records), employees, p).records
      ensures resp == Upsert(old(records), employees, p).response
      ensures resp.code == 200 ==> (resp.body.Some? &&
                forall j :: 0 <= j < |records| && IsFor(records[j], resp.body.value.employee, resp.body.value.date)
                  ==> records[j] == resp.body.value)
    {
      UpsertKeepsUnique(records, employees, p);
      UpsertKeepsKnown(records, employees, p);
      if Upsert(records, employees, p).response.code == 200 {
        UpdatedRowIsOnly(records, employees, p);
      }
      var instance: Option<nat> := None;
      if p.employee.Given? && p.date.Given? {
        instance := FirstFor(records, p.employee.value, p.date.value);
      }
      match instance {
        case Some(i) =>
          if !FieldsValid(p, employees) {
            resp := Response(400, None);
            return;
          }
          var updated := Patch(records[i], p);
          records := records[i := updated];
          resp := Response(200, Some(updated));
        case None =>
          if !CreateValid(p, employees) {
            resp := Response(400, None);
            return;
          }
          var created := NewRecord(p);
          records := records + [created];
          resp := Response(201, Some(created));
      }
    }
  }
}
