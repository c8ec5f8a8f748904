/** Shapes shared by the browser and the server: attendance records as the
    store keeps them and as the list endpoint returns them, and the body of
    a "create attendance" request. */
module Records {

  /** Employee identifiers are compared only for equality. */
  type Id = string

  datatype Option<T> = None | Some(value: T)

  /** A request field that may be left out of the body; a partial update
      touches only the fields that are `Given`. */
  datatype Field<T> = Missing | Given(value: T)
  {
    function GetOr(default: T): T
    {
      if Given? then value else default
    }
  }

  /** One attendance row: an employee, a calendar date (an opaque comparison
      key), a free-form status ("Present", "Absent", "Late", "On-time", ...)
      and optional check-in and check-out times (`None` is JSON `null`). */
  datatype Record = Record(
    employee: Id,
    date: string,
    status: string,
    checkIn: Option<string>,
    checkOut: Option<string>)

  /** The JSON body of `POST /attendance/`. */
  datatype Payload = Payload(
    employee: Field<Id>,
    date: Field<string>,
    status: Field<string>,
    checkIn: Field<Option<string>>,
    checkOut: Field<Option<string>>)

  predicate IsFor(r: Record, id: Id, date: string)
  {
    r.employee == id && r.date == date
  }

  /** Index of the first record for (`id`, `date`) in list order, if any:
      both `Array.prototype.find` in the browser and `.filter(...).first()`
      over the primary-key order on the server. */
  function FirstFor(rs: seq<Record>, id: Id, date: string): (r: Option<nat>)
    ensures r.Some? ==> r.value < |rs| && IsFor(rs[r.value], id, date)
    ensures r.Some? ==> forall j :: 0 <= j < r.value ==> !IsFor(rs[j], id, date)
    ensures r.None? <==> forall j :: 0 <= j < |rs| ==> !IsFor(rs[j], id, date)
  {
    if rs == [] then None
    else if IsFor(rs[0], id, date) then Some(0)
    else match FirstFor(rs[1..], id, date)
      case None => None
      case Some(k) => Some(k + 1)
  }

  /** The record `find` returns for (`id`, `date`). */
  function FindRecord(rs: seq<Record>, id: Id, date: string): (r: Option<Record>)
    ensures r.None? <==> forall j :: 0 <= j < |rs| ==> !IsFor(rs[j], id, date)
    ensures r.Some? ==> exists j :: 0 <= j < |rs| && rs[j] == r.value && IsFor(rs[j], id, date)
                          && forall k :: 0 <= k < j ==> !IsFor(rs[k], id, date)
  {
    match FirstFor(rs, id, date)
    case None => None
    case Some(i) => Some(rs[i])
  }

  /** At most one record per (employee, date): the `unique_together`
      constraint of the attendance table. */
  ghost predicate UniquePerDay(rs: seq<Record>)
  {
    forall i, j :: 0 <= i < j < |rs| ==> !IsFor(rs[j], rs[i].employee, rs[i].date)
  }

  /** The first match is the only match when records are unique per day. */
  lemma {:induction false} FirstForUnique(rs: seq<Record>, j: nat)
    requires UniquePerDay(rs)
    requires j < |rs|
    ensures FirstFor(rs, rs[j].employee, rs[j].date) == Some(j)
  {
    var id, date := rs[j].employee, rs[j].date;
    forall k | 0 <= k < j
      ensures !IsFor(rs[k], id, date)
    {
      assert !IsFor(rs[j], rs[k].employee, rs[k].date);
    }
  }

  /** The first record for (`id`, `date`) is determined by the keys of the
      records alone, position by position. */
  lemma {:induction false} SameKeysSameFirst(a: seq<Record>, b: seq<Record>, id: Id, date: string)
    requires |a| == |b|
    requires forall j :: 0 <= j < |a| ==> a[j].employee == b[j].employee && a[j].date == b[j].date
    ensures FirstFor(a, id, date) == FirstFor(b, id, date)
  {
    assert forall j :: 0 <= j < |a| ==> (IsFor(a[j], id, date) <==> IsFor(b[j], id, date));
  }
}
