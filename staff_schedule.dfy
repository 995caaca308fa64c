/**
 * A staff member's schedule, `api/Staff/viewStaffSchedule.php`: the caller
 * checks, the query text grown by the mode and the date range, and the
 * rows ordered by date and time.
 */
module StaffSchedule {
  import opened Common
  import opened Calendar
  import opened Store
  import Sorting

  /** Which rows of the staff member's appointments the request asks for. */
  datatype Range = Everything | TodayOnly | Between(from: string, to: string)

  /** `mode === 'today'` wins; otherwise both dates must be truthy for a range. */
  function RangeOf(mode: Option<string>, dateFrom: Option<string>, dateTo: Option<string>): (r: Range)
    ensures r.Between? ==> TruthyText(dateFrom) && TruthyText(dateTo) && r == Between(dateFrom.value, dateTo.value)
  {
    if mode == Some("today") then TodayOnly
    else if TruthyText(dateFrom) && TruthyText(dateTo) then Between(dateFrom.value, dateTo.value)
    else Everything
  }

  const StaffCondition := " WHERE a.staff_id = ?"
  const TodaySuffix := " AND a.date = CURDATE()"
  const BetweenSuffix := " AND a.date BETWEEN ? AND ?"

  /** One row of `appointments a JOIN users u ON a.client_id = u.id JOIN services s ON a.service_id = s.id`. */
  datatype ScheduleRow = ScheduleRow(appt: Appointment, clientName: Option<string>, serviceName: string)

  /** The client and the service of an appointment both have rows. */
  predicate Joinable(users: seq<User>, services: seq<Service>, a: Appointment) {
    FindUser(users, a.clientId).Some? && FindService(services, a.serviceId).Some?
  }

  /** The appointment behind each schedule row, in order. */
  function ApptsOf(rows: seq<ScheduleRow>): (r: seq<Appointment>)
    ensures |r| == |rows|
    ensures forall i :: 0 <= i < |rows| ==> r[i] == rows[i].appt
  {
    if rows == [] then [] else [rows[0].appt] + ApptsOf(rows[1..])
  }

  /** The two inner joins; an appointment without its client or service yields no row. */
  function JoinClientService(users: seq<User>, services: seq<Service>, appts: seq<Appointment>): (r: seq<ScheduleRow>)
    ensures |r| <= |appts|
    ensures forall row :: row in r ==> row.appt in appts
    ensures ApptsOf(r) == Filter(appts, a => Joinable(users, services, a))
    ensures forall row :: row in r ==>
              && Joinable(users, services, row.appt)
              && row.clientName == FindUser(users, row.appt.clientId).value.fullName
              && row.serviceName == FindService(services, row.appt.serviceId).value.name
    ensures forall a :: a in appts ==>
              (FindUser(users, a.clientId).Some? && FindService(services, a.serviceId).Some?
               ==> exists row :: row in r && row.appt == a)
  {
    if appts == [] then []
    else
      var a := appts[0];
      var rest := JoinClientService(users, services, appts[1..]);
      var client := FindUser(users, a.clientId);
      var service := FindService(services, a.serviceId);
      if client.Some? && service.Some? then [ScheduleRow(a, client.value.fullName, service.value.name)] + rest
      else rest
  }

  /** `a.date BETWEEN from AND to`, with both texts read as dates; text that is not a date matches nothing. */
  predicate InRange(d: Date, from: string, to: string) {
    var f := ParseIso(from);
    var t := ParseIso(to);
    f.Some? && t.Some? && !Before(d, f.value) && !Before(t.value, d)
  }

  /** The store's reading of the WHERE text with its bound values; `today` is `CURDATE()`. */
  predicate WhereHolds(where: string, ps: seq<Param>, row: ScheduleRow, today: Date) {
    |ps| >= 1 && ps[0].Int? && row.appt.staffId == Some(ps[0].n) &&
    if where == StaffCondition then |ps| == 1
    else if where == StaffCondition + TodaySuffix then |ps| == 1 && row.appt.date == today
    else if where == StaffCondition + BetweenSuffix then
      |ps| == 3 && ps[1].Text? && ps[2].Text? && InRange(row.appt.date, ps[1].text, ps[2].text)
    else false
  }

  /** What the request selects, stated on the rows directly. */
  predicate Selects(staff: int, range: Range, row: ScheduleRow, today: Date) {
    row.appt.staffId == Some(staff) &&
    match range
    case Everything => true
    case TodayOnly => row.appt.date == today
    case Between(from, to) => InRange(row.appt.date, from, to)
  }

  /**
   * The query text and its bindings: one integer for the staff member, and
   * two strings more for a date range; the WHERE clause selects exactly the
   * staff member's rows in the range.
   */
  method BuildScheduleQuery(staffId: Option<IdValue>, mode: Option<string>, dateFrom: Option<string>, dateTo: Option<string>)
    returns (where: string, params: seq<Param>, types: string)
    ensures |types| == |params|
    ensures RangeOf(mode, dateFrom, dateTo).Between? ==> types == "iss"
    ensures !RangeOf(mode, dateFrom, dateTo).Between? ==> types == "i"
    ensures forall i :: 0 <= i < |params| ==> (types[i] == 'i' <==> params[i].Int?) && (types[i] == 's' <==> params[i].Text?)
    ensures forall row, today :: WhereHolds(where, params, row, today) <==> Selects(IntOf(staffId), RangeOf(mode, dateFrom, dateTo), row, today)
  {
    where := StaffCondition;
    params := [Int(IntOf(staffId))];
    types := "i";
    if mode == Some("today") {
      where := where + TodaySuffix;
    } else if TruthyText(dateFrom) && TruthyText(dateTo) {
      where := where + BetweenSuffix;
      params := params + [Text(dateFrom.value)];
      params := params + [Text(dateTo.value)];
      types := types + "ss";
    }
    assert |TodaySuffix| == 23 && |BetweenSuffix| == 27;
  }

  /** `ORDER BY a.date, a.time`. */
  predicate RowLe(x: ScheduleRow, y: ScheduleRow) {
    DateTimeLe(x.appt, y.appt)
  }

  /** The rows the request selects, in date and time order. */
  function ScheduleRows(db: Database, staff: int, range: Range, today: Date): seq<ScheduleRow> {
    Sorting.InsertionSort(
      Filter(JoinClientService(db.users, db.services, db.appointments), row => Selects(staff, range, row, today)),
      RowLe)
  }

  /**
   * The schedule holds exactly the staff member's joined appointments in
   * the range, each once, ordered by date and time; with the "today" mode
   * every row is today's.
   */
  lemma ScheduleRowsCorrect(db: Database, staff: int, range: Range, today: Date)
    ensures var rows := ScheduleRows(db, staff, range, today);
      && Sorting.SortedBy(rows, RowLe)
      && multiset(rows) == multiset(Filter(JoinClientService(db.users, db.services, db.appointments), row => Selects(staff, range, row, today)))
      && (forall row :: row in rows ==> row.appt.staffId == Some(staff) && row.appt in db.appointments)
      && (range == TodayOnly ==> forall row :: row in rows ==> row.appt.date == today)
  {
    var joined := JoinClientService(db.users, db.services, db.appointments);
    var selected := Filter(joined, row => Selects(staff, range, row, today));
    assert Sorting.TotalPreorder(RowLe);
    Sorting.InsertionSortCorrect(selected, RowLe);
    var rows := Sorting.InsertionSort(selected, RowLe);
    assert rows == ScheduleRows(db, staff, range, today);
    forall row | row in rows
      ensures row.appt.staffId == Some(staff) && row.appt in db.appointments
      ensures range == TodayOnly ==> row.appt.date == today
    {
      assert row in multiset(rows);
      SelectedRow(joined, db.appointments, staff, range, today, row);
    }
  }

  /** A selected joined row is one of the staff member's appointments, and today's in the "today" mode. */
  lemma SelectedRow(joined: seq<ScheduleRow>, appts: seq<Appointment>, staff: int, range: Range, today: Date, row: ScheduleRow)
    requires forall x :: x in joined ==> x.appt in appts
    requires row in Filter(joined, row => Selects(staff, range, row, today))
    ensures row.appt.staffId == Some(staff) && row.appt in appts
    ensures range == TodayOnly ==> row.appt.date == today
  {
  }

  /** One row of the response's `data`: the appointment's own price. */
  datatype ScheduleItem = ScheduleItem(
    appointmentId: int,
    clientName: Option<string>,
    serviceName: string,
    date: Date,
    time: int,
    status: string,
    price: real)

  function Item(row: ScheduleRow): (r: ScheduleItem)
    ensures r.appointmentId == row.appt.id && r.price == row.appt.price
  {
    ScheduleItem(row.appt.id, row.clientName, row.serviceName, row.appt.date, row.appt.time, row.appt.status, row.appt.price)
  }

  datatype ScheduleOutcome =
    | Schedule(data: seq<ScheduleItem>, dateFrom: Option<string>, dateTo: Option<string>, mode: Option<string>)
    | ScheduleError(message: string)

  /** The query, its execution and the fetch loop, once the checks have passed. */
  method FetchSchedule(db: Database, staffId: Option<IdValue>, mode: Option<string>,
                       dateFrom: Option<string>, dateTo: Option<string>, today: Date)
    returns (data: seq<ScheduleItem>)
    requires TruthyId(staffId)
    ensures var rows := ScheduleRows(db, IntOf(staffId), RangeOf(mode, dateFrom, dateTo), today);
      && |data| == |rows|
      && (forall k :: 0 <= k < |rows| ==> data[k] == Item(rows[k]))
  {
    var where, params, types := BuildScheduleQuery(staffId, mode, dateFrom, dateTo);
    var joined := JoinClientService(db.users, db.services, db.appointments);
    var range := RangeOf(mode, dateFrom, dateTo);
    var fetched := Filter(joined, row => WhereHolds(where, params, row, today));
    FilterAgrees(joined, row => WhereHolds(where, params, row, today), row => Selects(IntOf(staffId), range, row, today));
    assert fetched == Filter(joined, row => Selects(IntOf(staffId), range, row, today));
    var rows := Sorting.InsertionSort(fetched, RowLe);
    assert rows == ScheduleRows(db, IntOf(staffId), range, today);
    data := Items(rows);
  }

  /** The fetch loop: one item per result row, in order. */
  method Items(rows: seq<ScheduleRow>) returns (data: seq<ScheduleItem>)
    ensures |data| == |rows|
    ensures forall k :: 0 <= k < |rows| ==> data[k] == Item(rows[k])
  {
    data := [];
    var i := 0;
    while i < |rows|
      invariant 0 <= i <= |rows|
      invariant |data| == i
      invariant forall k :: 0 <= k < i ==> data[k] == Item(rows[k])
    {
      data := data + [Item(rows[i])];
      i := i + 1;
    }
  }

  /**
   * The endpoint, with every statement executing. Role and id must be
   * truthy, the role "staff" or "admin", and a user with that id and role
   * must exist; then a truthy `staff_id` is required. Any staff member or
   * admin may read any staff member's schedule. The result lists the
   * schedule rows in order and echoes the three filter fields.
   */
  method ViewStaffSchedule(db: Database, c: Caller, staffId: Option<IdValue>,
                           dateFrom: Option<string>, dateTo: Option<string>, mode: Option<string>, today: Date)
    returns (r: ScheduleOutcome)
    ensures !TruthyText(PostedFirstRole(c)) || !TruthyId(PostedFirstId(c)) ==> r == ScheduleError("Role or staff ID is missing")
    ensures TruthyText(PostedFirstRole(c)) && TruthyId(PostedFirstId(c))
      && PostedFirstRole(c) != Some("staff") && PostedFirstRole(c) != Some("admin")
      ==> r == ScheduleError("Unauthorized access")
    ensures TruthyText(PostedFirstRole(c)) && TruthyId(PostedFirstId(c))
      && (PostedFirstRole(c) == Some("staff") || PostedFirstRole(c) == Some("admin"))
      && !HasUser(db.users, Some(IntOf(PostedFirstId(c))), PostedFirstRole(c).value)
      ==> r == ScheduleError("Staff not found or invalid role")
    ensures TruthyText(PostedFirstRole(c)) && TruthyId(PostedFirstId(c))
      && (PostedFirstRole(c) == Some("staff") || PostedFirstRole(c) == Some("admin"))
      && HasUser(db.users, Some(IntOf(PostedFirstId(c))), PostedFirstRole(c).value)
      && !TruthyId(staffId)
      ==> r == ScheduleError("Missing staff ID")
    ensures r.Schedule? <==>
      && (PostedFirstRole(c) == Some("staff") || PostedFirstRole(c) == Some("admin"))
      && TruthyId(PostedFirstId(c))
      && HasUser(db.users, Some(IntOf(PostedFirstId(c))), PostedFirstRole(c).value)
      && TruthyId(staffId)
    ensures r.Schedule? ==>
      var rows := ScheduleRows(db, IntOf(staffId), RangeOf(mode, dateFrom, dateTo), today);
      && |r.data| == |rows|
      && (forall k :: 0 <= k < |rows| ==> r.data[k] == Item(rows[k]))
      && r.dateFrom == dateFrom && r.dateTo == dateTo && r.mode == mode
  {
    var role := PostedFirstRole(c);
    var callerId := PostedFirstId(c);
    if !TruthyText(role) || !TruthyId(callerId) {
      return ScheduleError("Role or staff ID is missing");
    }
    if role != Some("staff") && role != Some("admin") {
      return ScheduleError("Unauthorized access");
    }
    if !HasUser(db.users, Some(IntOf(callerId)), role.value) {
      return ScheduleError("Staff not found or invalid role");
    }
    if !TruthyId(staffId) {
      return ScheduleError("Missing staff ID");
    }
    var data := FetchSchedule(db, staffId, mode, dateFrom, dateTo, today);
    r := Schedule(data, dateFrom, dateTo, mode);
  }
}
