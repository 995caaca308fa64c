/**
 * The admin appointment listing, `api/Booking/viewAllAppointments.php`:
 * the admin gate, the filter switch that builds the WHERE clause and its
 * bound parameters, the count query, and the page of rows ordered by date
 * and time.
 */
module AdminListing {
  import opened Common
  import opened Calendar
  import opened Store
  import opened Pagination
  import Sorting

  // ---------------------------------------------------------------------
  // The gate
  // ---------------------------------------------------------------------

  /** `SELECT id FROM users WHERE id = ? AND role = 'admin' AND is_active = 1`: the id fetched, if any. */
  function ActiveAdminId(users: seq<User>, id: int): (r: Option<int>)
    ensures r.Some? <==> IsActiveAdmin(users, id)
    ensures r.Some? ==> r.value == id
  {
    if users == [] then None
    else if users[0].id == id && users[0].role == "admin" && users[0].isActive then Some(id)
    else ActiveAdminId(users[1..], id)
  }

  predicate IsActiveAdmin(users: seq<User>, id: int) {
    exists u :: u in users && u.id == id && u.role == "admin" && u.isActive
  }

  /**
   * The two checks of the gate: the fetched id, cast to int, must equal the
   * caller's id cast to int ("Unauthorized access1"), then the role must be
   * "admin" and the id truthy ("Unauthorized access"). `None` lets the
   * request through.
   */
  function AdminGate(users: seq<User>, c: Caller): (r: Option<string>)
    ensures r.Some? ==> r.value == "Unauthorized access1" || r.value == "Unauthorized access"
  {
    var adminId := PostedFirstId(c);
    var fetched := if adminId.None? then None else ActiveAdminId(users, IntOf(adminId));
    if (if fetched.Some? then fetched.value else 0) != IntOf(adminId) then Some("Unauthorized access1")
    else if PostedFirstRole(c) != Some("admin") || !TruthyId(adminId) then Some("Unauthorized access")
    else None
  }

  /**
   * The gate lets a caller through exactly when the role is "admin", the id
   * is truthy, and the id cast to int is an active admin's id or 0: a
   * truthy id whose cast is 0 is compared with the missing row's 0.
   */
  lemma AdminGateExact(users: seq<User>, c: Caller)
    ensures AdminGate(users, c).None? <==>
      PostedFirstRole(c) == Some("admin") && TruthyId(PostedFirstId(c))
      && (IsActiveAdmin(users, IntOf(PostedFirstId(c))) || IntOf(PostedFirstId(c)) == 0)
  {
  }

  /** With an integer id (the session's), only an active admin gets through. */
  lemma AdminGateForIntegerId(users: seq<User>, c: Caller, n: int)
    requires PostedFirstId(c) == Some(IdInt(n))
    ensures AdminGate(users, c).None? <==> PostedFirstRole(c) == Some("admin") && n != 0 && IsActiveAdmin(users, n)
  {
    AdminGateExact(users, c);
    if IsActiveAdmin(users, n) {
      var u :| u in users && u.id == n && u.role == "admin" && u.isActive;
    }
  }

  /** Posted text that does not start with a digit passes the gate with the role "admin" and no admin row at all. */
  lemma AdminGateAdmitsNonNumericText(users: seq<User>)
    requires forall u :: u in users ==> u.role != "admin"
    ensures AdminGate(users, Caller(Some(IdText("abc")), Some("admin"), None, None)).None?
  {
    TruthyIdCastingToZero();
    AdminGateExact(users, Caller(Some(IdText("abc")), Some("admin"), None, None));
  }

  // ---------------------------------------------------------------------
  // The filter switch
  // ---------------------------------------------------------------------

  // The WHERE-clause templates the switch appends, as SQL text.
  const TodayClause := "a.date = CURDATE()"
  const UpcomingClause := "a.date > CURDATE()"
  const PastClause := "a.date < CURDATE()"
  const CompletedClause := "LOWER(a.status) = \"completed\""
  const PendingClause := "LOWER(a.status) = \"pending\""
  const CancelledClause := "LOWER(a.status) = \"cancelled\""
  const ClientNameClause := "u.full_name LIKE ?"
  const StaffNameClause := "st.full_name LIKE ?"
  const DateClause := "a.date = ?"

  /** A clause is one of the fixed templates: request text only ever reaches the query as a bound parameter. */
  predicate IsTemplate(c: string) {
    c in {TodayClause, UpcomingClause, PastClause, CompletedClause, PendingClause,
          CancelledClause, ClientNameClause, StaffNameClause, DateClause}
  }

  datatype ListingFilter =
    | Today | Upcoming | Past | Completed | Pending | Cancelled
    | ByClientName | ByStaffName | BySpecificDate | NoCondition

  /** `$_POST['filter'] ?? 'all'` matched against the cases; "all" and unknown names fall to the default. */
  function FilterOf(name: Option<string>): (f: ListingFilter)
    ensures name.None? ==> f == NoCondition
  {
    var n := if name.Some? then name.value else "all";
    if n == "today" then Today
    else if n == "upcoming" then Upcoming
    else if n == "past" then Past
    else if n == "completed" then Completed
    else if n == "pending" then Pending
    else if n == "cancelled" then Cancelled
    else if n == "by_client_name" then ByClientName
    else if n == "by_staff_name" then ByStaffName
    else if n == "by_specific_date" then BySpecificDate
    else NoCondition
  }

  /** The POST fields the listing reads besides the caller. */
  datatype Request = Request(
    caller: Caller,
    filter: Option<string>,
    clientName: Option<string>,
    staffName: Option<string>,
    date: Option<string>,
    page: PostedNumber)

  predicate NeedsValue(f: ListingFilter) {
    f == ByClientName || f == ByStaffName || f == BySpecificDate
  }

  /** The POST field a filter reads its value from. */
  function FilterValue(f: ListingFilter, req: Request): Option<string> {
    match f
    case ByClientName => req.clientName
    case ByStaffName => req.staffName
    case BySpecificDate => req.date
    case _ => None
  }

  /** The value as text, "" where there is none. */
  function ValueText(f: ListingFilter, req: Request): string {
    var v := FilterValue(f, req);
    if v.Some? then v.value else ""
  }

  function MissingMessage(f: ListingFilter): string
    requires NeedsValue(f)
  {
    match f
    case ByClientName => "Missing client_name for this filter."
    case ByStaffName => "Missing staff_name for this filter."
    case BySpecificDate => "Missing date for this filter."
  }

  /** `isset($_POST['page']) && is_numeric($_POST['page']) ? intval($_POST['page']) : 1`. */
  function PageOf(p: PostedNumber): int {
    if p.Numeric? then p.value else 1
  }

  /** The clause list, the values bound to its placeholders and `bind_param`'s type string. */
  datatype Query = Query(conditions: seq<string>, params: seq<Param>, types: string)

  datatype Built = Built(query: Query, offset: int) | MissingValue(message: string)

  /** The number of `?` placeholders in a template. */
  function Arity(c: string): nat {
    if c == ClientNameClause || c == StaffNameClause || c == DateClause then 1 else 0
  }

  /** One result row of the three inner joins, before projection. */
  datatype JoinedRow = JoinedRow(
    appt: Appointment,
    clientName: Option<string>,
    staffName: Option<string>,
    serviceName: string,
    servicePrice: real)

  /** The store's reading of a template with its bound values on a joined row; `today` is `CURDATE()`. */
  predicate ClauseHolds(c: string, ps: seq<Param>, row: JoinedRow, today: Date) {
    if c == TodayClause then row.appt.date == today
    else if c == UpcomingClause then Before(today, row.appt.date)
    else if c == PastClause then Before(row.appt.date, today)
    else if c == CompletedClause then Lower(row.appt.status) == "completed"
    else if c == PendingClause then Lower(row.appt.status) == "pending"
    else if c == CancelledClause then Lower(row.appt.status) == "cancelled"
    else if c == ClientNameClause then
      |ps| == 1 && ps[0].Text? && row.clientName.Some? && Like(row.clientName.value, ps[0].text)
    else if c == StaffNameClause then
      |ps| == 1 && ps[0].Text? && row.staffName.Some? && Like(row.staffName.value, ps[0].text)
    else if c == DateClause then
      |ps| == 1 && ps[0].Text? && ParseIso(ps[0].text) == Some(row.appt.date)
    else false
  }

  /** `WHERE c1 AND c2 ...` with the values bound to the placeholders left to right. */
  predicate WhereHolds(cs: seq<string>, ps: seq<Param>, row: JoinedRow, today: Date)
    decreases |cs|
  {
    if cs == [] then ps == []
    else
      Arity(cs[0]) <= |ps|
      && ClauseHolds(cs[0], ps[..Arity(cs[0])], row, today)
      && WhereHolds(cs[1..], ps[Arity(cs[0])..], row, today)
  }

  /** What each filter selects, stated on the rows directly. */
  predicate Selects(f: ListingFilter, value: string, row: JoinedRow, today: Date) {
    match f
    case Today => row.appt.date == today
    case Upcoming => Before(today, row.appt.date)
    case Past => Before(row.appt.date, today)
    case Completed => Lower(row.appt.status) == "completed"
    case Pending => Lower(row.appt.status) == "pending"
    case Cancelled => Lower(row.appt.status) == "cancelled"
    case ByClientName => row.clientName.Some? && Like(row.clientName.value, "%" + value + "%")
    case ByStaffName => row.staffName.Some? && Like(row.staffName.value, "%" + value + "%")
    case BySpecificDate => ParseIso(value) == Some(row.appt.date)
    case NoCondition => true
  }

  /**
   * The filter switch: a filter that needs a value and has none that is
   * truthy stops with its message; otherwise it appends its template and
   * what the template binds, with one `s` per bound value.
   */
  method AppendFilter(f: ListingFilter, req: Request) returns (conditions: seq<string>, params: seq<Param>, types: string, missing: Option<string>)
    ensures missing.Some? <==> NeedsValue(f) && !TruthyText(FilterValue(f, req))
    ensures missing.Some? ==> NeedsValue(f) && missing.value == MissingMessage(f)
    ensures missing.None? && f == NoCondition ==> conditions == [] && params == [] && types == ""
    ensures missing.None? && f != NoCondition ==>
      conditions == [TemplateOf(f)] && params == BoundFor(f, ValueText(f, req)) && types == seq(|params|, _ => 's')
  {
    conditions, params, types, missing := [], [], "", None;
    match f {
      case Today =>
        conditions := conditions + [TodayClause];
      case Upcoming =>
        conditions := conditions + [UpcomingClause];
      case Past =>
        conditions := conditions + [PastClause];
      case Completed =>
        conditions := conditions + [CompletedClause];
      case Pending =>
        conditions := conditions + [PendingClause];
      case Cancelled =>
        conditions := conditions + [CancelledClause];
      case ByClientName =>
        if !TruthyText(req.clientName) {
          missing := Some(MissingMessage(f));
          return;
        }
        conditions := conditions + [ClientNameClause];
        params := params + [Text("%" + req.clientName.value + "%")];
        types := types + "s";
      case ByStaffName =>
        if !TruthyText(req.staffName) {
          missing := Some(MissingMessage(f));
          return;
        }
        conditions := conditions + [StaffNameClause];
        params := params + [Text("%" + req.staffName.value + "%")];
        types := types + "s";
      case BySpecificDate =>
        if !TruthyText(req.date) {
          missing := Some(MissingMessage(f));
          return;
        }
        conditions := conditions + [DateClause];
        params := params + [Text(req.date.value)];
        types := types + "s";
      case NoCondition =>
    }
  }

  /**
   * The switch and the pagination tail: when the switch went through, the
   * clauses are templates, the types match the parameters one for one, the
   * last two parameters are the limit and the offset, and the WHERE clause
   * with the other parameters selects exactly what the filter means.
   */
  method BuildQuery(req: Request) returns (r: Built)
    ensures var f := FilterOf(req.filter);
      r.MissingValue? <==> NeedsValue(f) && !TruthyText(FilterValue(f, req))
    ensures r.MissingValue? ==> NeedsValue(FilterOf(req.filter)) && r.message == MissingMessage(FilterOf(req.filter))
    ensures r.Built? ==>
      var q := r.query;
      && (forall c :: c in q.conditions ==> IsTemplate(c))
      && (q.conditions == [] <==> FilterOf(req.filter) == NoCondition)
      && |q.types| == |q.params| >= 2
      && (forall i :: 0 <= i < |q.params| ==> (q.types[i] == 's' <==> q.params[i].Text?) && (q.types[i] == 'i' <==> q.params[i].Int?))
      && r.offset == Offset(PageOf(req.page), PageSize)
      && q.params[|q.params| - 2..] == [Int(PageSize), Int(r.offset)]
    ensures r.Built? ==>
      var q := r.query;
      var f := FilterOf(req.filter);
      forall row, today :: WhereHolds(q.conditions, q.params[..|q.params| - 2], row, today)
        <==> Selects(f, ValueText(f, req), row, today)
  {
    var f := FilterOf(req.filter);
    var conditions, params, types, missing := AppendFilter(f, req);
    if missing.Some? {
      return MissingValue(missing.value);
    }
    if f != NoCondition {
      TemplateMeaning(f, ValueText(f, req));
    }
    var q, offset := AppendPaging(conditions, params, types, PageOf(req.page));
    r := Built(q, offset);
  }

  /** The pagination tail: `LIMIT ? OFFSET ?` binds the page size and the offset after the filter's values. */
  method AppendPaging(conditions: seq<string>, params: seq<Param>, types: string, page: int) returns (q: Query, offset: int)
    requires |types| == |params|
    requires forall i :: 0 <= i < |params| ==> (types[i] == 's' <==> params[i].Text?) && (types[i] == 'i' <==> params[i].Int?)
    ensures q.conditions == conditions
    ensures offset == Offset(page, PageSize)
    ensures |q.types| == |q.params| == |params| + 2
    ensures q.params[..|q.params| - 2] == params
    ensures q.params[|q.params| - 2..] == [Int(PageSize), Int(offset)]
    ensures forall i :: 0 <= i < |q.params| ==> (q.types[i] == 's' <==> q.params[i].Text?) && (q.types[i] == 'i' <==> q.params[i].Int?)
  {
    offset := Offset(page, PageSize);
    var all := params + [Int(PageSize)] + [Int(offset)];
    assert all[..|all| - 2] == params;
    q := Query(conditions, all, types + "ii");
  }

  /** The template a filter appends. */
  function TemplateOf(f: ListingFilter): string
    requires f != NoCondition
  {
    match f
    case Today => TodayClause
    case Upcoming => UpcomingClause
    case Past => PastClause
    case Completed => CompletedClause
    case Pending => PendingClause
    case Cancelled => CancelledClause
    case ByClientName => ClientNameClause
    case ByStaffName => StaffNameClause
    case BySpecificDate => DateClause
  }

  /** The value a filter binds: the name between `%` wildcards, or the date as posted. */
  function BoundFor(f: ListingFilter, value: string): seq<Param> {
    if f == ByClientName || f == ByStaffName then [Text("%" + value + "%")]
    else if f == BySpecificDate then [Text(value)]
    else []
  }

  /** Each filter's template, with what the filter binds, selects what the filter means. */
  lemma TemplateMeaning(f: ListingFilter, value: string)
    requires f != NoCondition
    ensures IsTemplate(TemplateOf(f))
    ensures forall row, today :: WhereHolds([TemplateOf(f)], BoundFor(f, value), row, today) <==> Selects(f, value, row, today)
  {
    var c := TemplateOf(f);
    var ps := BoundFor(f, value);
    assert Arity(c) == |ps| by {
      assert ClientNameClause[0] == 'u' && StaffNameClause[0] == 's' && DateClause[0] == 'a';
      assert TodayClause[7] == '=' && UpcomingClause[7] == '>' && PastClause[7] == '<';
      assert DateClause[7] == '=' && DateClause[9] == '?' && TodayClause[9] == 'C';
      assert CompletedClause[0] == 'L';
    }
    assert [c][1..] == [] && ps[Arity(c)..] == [] && ps[..Arity(c)] == ps;
  }

  // ---------------------------------------------------------------------
  // The joins, the count and the page of rows
  // ---------------------------------------------------------------------

  /** The client, the service and the assigned staff member of an appointment all have rows. */
  predicate Joinable(users: seq<User>, services: seq<Service>, a: Appointment) {
    && a.staffId.Some?
    && FindUser(users, a.clientId).Some?
    && FindService(services, a.serviceId).Some?
    && FindUser(users, a.staffId.value).Some?
  }

  /** The appointment behind each joined row, in order. */
  function ApptsOf(rows: seq<JoinedRow>): (r: seq<Appointment>)
    ensures |r| == |rows|
    ensures forall i :: 0 <= i < |rows| ==> r[i] == rows[i].appt
  {
    if rows == [] then [] else [rows[0].appt] + ApptsOf(rows[1..])
  }

  /**
   * `appointments a JOIN users u ON a.client_id = u.id JOIN services s ON
   * a.service_id = s.id JOIN users st ON a.staff_id = st.id`: an
   * appointment without a client, a service or an assigned staff member
   * yields no row.
   */
  function JoinRows(users: seq<User>, services: seq<Service>, appts: seq<Appointment>): (r: seq<JoinedRow>)
    ensures |r| <= |appts|
    ensures forall row :: row in r ==> row.appt in appts && row.appt.staffId.Some?
    ensures ApptsOf(r) == Filter(appts, a => Joinable(users, services, a))
    ensures forall row :: row in r ==>
              && Joinable(users, services, row.appt)
              && row.clientName == FindUser(users, row.appt.clientId).value.fullName
              && row.staffName == FindUser(users, row.appt.staffId.value).value.fullName
              && row.serviceName == FindService(services, row.appt.serviceId).value.name
              && row.servicePrice == FindService(services, row.appt.serviceId).value.price
    ensures forall a :: a in appts ==>
              (a.staffId.Some? && FindUser(users, a.clientId).Some? && FindService(services, a.serviceId).Some?
               && FindUser(users, a.staffId.value).Some?
               ==> exists row :: row in r && row.appt == a)
  {
    if appts == [] then []
    else
      var a := appts[0];
      var rest := JoinRows(users, services, appts[1..]);
      var client := FindUser(users, a.clientId);
      var service := FindService(services, a.serviceId);
      var staff := if a.staffId.Some? then FindUser(users, a.staffId.value) else None;
      if client.Some? && service.Some? && staff.Some? then
        [JoinedRow(a, client.value.fullName, staff.value.fullName, service.value.name, service.value.price)] + rest
      else rest
  }

  function Joined(db: Database): seq<JoinedRow> {
    JoinRows(db.users, db.services, db.appointments)
  }

  /** The rows of the joins the filter selects, in storage order. */
  function Selected(db: Database, f: ListingFilter, value: string, today: Date): seq<JoinedRow> {
    Filter(Joined(db), row => Selects(f, value, row, today))
  }

  /** `ORDER BY a.date, a.time`. */
  predicate RowLe(x: JoinedRow, y: JoinedRow) {
    DateTimeLe(x.appt, y.appt)
  }

  lemma RowOrder()
    ensures Sorting.TotalPreorder(RowLe)
  {
  }

  /** The rows of one page: the ordered selection cut by `LIMIT 10 OFFSET offset`. */
  function PageRows(rows: seq<JoinedRow>, offset: int): seq<JoinedRow>
    requires offset >= 0
  {
    Window(Sorting.InsertionSort(rows, RowLe), offset, PageSize)
  }

  /**
   * A page holds at most ten rows, each of them selected, in date and time
   * order; pages before the last are full and pages after it are empty
   * (`Pagination.RowOnSomePage` puts every row on one of them).
   */
  lemma PageRowsCorrect(rows: seq<JoinedRow>, page: int)
    requires page >= 1
    ensures var p := PageRows(rows, Offset(page, PageSize));
      && |p| <= PageSize
      && (forall row :: row in p ==> row in rows)
      && Sorting.SortedBy(p, RowLe)
      && (page < PageCount(|rows|) ==> |p| == PageSize)
      && (page > PageCount(|rows|) ==> p == [])
  {
    RowOrder();
    var sorted := Sorting.InsertionSort(rows, RowLe);
    Sorting.InsertionSortCorrect(rows, RowLe);
    assert |sorted| == |rows| by {
      assert |multiset(sorted)| == |multiset(rows)|;
    }
    var p := PageRows(rows, Offset(page, PageSize));
    forall row | row in p ensures row in rows {
      var k :| 0 <= k < |p| && p[k] == row;
      assert sorted[Offset(page, PageSize) + k] in multiset(sorted);
    }
    forall i, j | 0 <= i < j < |p| ensures RowLe(p[i], p[j]) {
      assert p[i] == sorted[Offset(page, PageSize) + i];
      assert p[j] == sorted[Offset(page, PageSize) + j];
    }
  }

  /** One row of the response's `data`. */
  datatype ListedRow = ListedRow(
    appointmentId: int,
    clientName: Option<string>,
    staffName: Option<string>,
    serviceName: string,
    price: real,
    date: Date,
    time: int,
    status: string)

  /** The SELECT list: the service's price, not the appointment's. */
  function Project(row: JoinedRow): (r: ListedRow)
    ensures r.appointmentId == row.appt.id && r.price == row.servicePrice
  {
    ListedRow(row.appt.id, row.clientName, row.staffName, row.serviceName, row.servicePrice,
              row.appt.date, row.appt.time, row.appt.status)
  }

  datatype Listing =
    | Listing(data: seq<ListedRow>, totalResults: nat, totalPages: nat)
    | ListingError(message: string)

  /**
   * The endpoint. The gate comes first, then the filter's value; a page
   * below 1 gives a negative OFFSET, which the store refuses ("SQL execution
   * error."). Otherwise the total counts every selected row, the page count
   * is `ceil(total / 10)`, and `data` is the requested page, projected.
   */
  method ViewAllAppointments(db: Database, req: Request, today: Date) returns (r: Listing)
    ensures AdminGate(db.users, req.caller).Some? ==> r == ListingError(AdminGate(db.users, req.caller).value)
    ensures var f := FilterOf(req.filter);
      AdminGate(db.users, req.caller).None? && NeedsValue(f) && !TruthyText(FilterValue(f, req))
      ==> r == ListingError(MissingMessage(f))
    ensures r.Listing? <==>
      var f := FilterOf(req.filter);
      AdminGate(db.users, req.caller).None? && !(NeedsValue(f) && !TruthyText(FilterValue(f, req)))
      && Offset(PageOf(req.page), PageSize) >= 0
    ensures var f := FilterOf(req.filter);
      AdminGate(db.users, req.caller).None? && !(NeedsValue(f) && !TruthyText(FilterValue(f, req)))
      && Offset(PageOf(req.page), PageSize) < 0
      ==> r == ListingError("SQL execution error.")
    ensures r.Listing? ==>
      var f := FilterOf(req.filter);
      var selected := Selected(db, f, ValueText(f, req), today);
      var p := PageRows(selected, Offset(PageOf(req.page), PageSize));
      && r.totalResults == |selected|
      && r.totalPages == PageCount(|selected|)
      && |r.data| == |p|
      && (forall k :: 0 <= k < |p| ==> r.data[k] == Project(p[k]))
  {
    var denied := AdminGate(db.users, req.caller);
    if denied.Some? {
      return ListingError(denied.value);
    }
    var built := BuildQuery(req);
    if built.MissingValue? {
      return ListingError(built.message);
    }
    r := RunListing(db, built.query, built.offset, FilterOf(req.filter), ValueText(FilterOf(req.filter), req), today);
  }

  /**
   * The count query and the page query for a built WHERE clause whose
   * filter parameters select what `f` means.
   */
  method RunListing(db: Database, q: Query, offset: int, f: ListingFilter, value: string, today: Date) returns (r: Listing)
    requires |q.params| >= 2
    requires forall row, today :: WhereHolds(q.conditions, q.params[..|q.params| - 2], row, today) <==> Selects(f, value, row, today)
    ensures offset < 0 ==> r == ListingError("SQL execution error.")
    ensures offset >= 0 ==>
      var selected := Selected(db, f, value, today);
      var p := PageRows(selected, offset);
      && r.Listing?
      && r.totalResults == |selected|
      && r.totalPages == PageCount(|selected|)
      && |r.data| == |p|
      && (forall k :: 0 <= k < |p| ==> r.data[k] == Project(p[k]))
  {
    var countParams := q.params[..|q.params| - 2];
    var matching := Filter(Joined(db), row => WhereHolds(q.conditions, countParams, row, today));
    FilterAgrees(Joined(db), row => WhereHolds(q.conditions, countParams, row, today),
                 row => Selects(f, value, row, today));
    var total := |matching|;
    var totalPages := PageCount(total);
    if offset < 0 {
      return ListingError("SQL execution error.");
    }
    assert matching == Selected(db, f, value, today);
    var page := PageRows(matching, offset);
    var data := ListedRows(page);
    r := Listing(data, total, totalPages);
  }

  /** The fetch loop: one listed row per result row, in order. */
  method ListedRows(page: seq<JoinedRow>) returns (data: seq<ListedRow>)
    ensures |data| == |page|
    ensures forall k :: 0 <= k < |page| ==> data[k] == Project(page[k])
  {
    data := [];
    var i := 0;
    while i < |page|
      invariant 0 <= i <= |page|
      invariant |data| == i
      invariant forall k :: 0 <= k < i ==> data[k] == Project(page[k])
    {
      data := data + [Project(page[i])];
      i := i + 1;
    }
  }

  /** For a name without wildcard characters, the name filters are case-insensitive substring search. */
  lemma NameFilterIsSubstringSearch(row: JoinedRow, name: string, today: Date)
    requires NoWildcards(name)
    ensures Selects(ByClientName, name, row, today) <==>
      row.clientName.Some? && Contains(Lower(row.clientName.value), Lower(name))
    ensures Selects(ByStaffName, name, row, today) <==>
      row.staffName.Some? && Contains(Lower(row.staffName.value), Lower(name))
  {
    if row.clientName.Some? {
      LikeIsSubstring(row.clientName.value, name);
    }
    if row.staffName.Some? {
      LikeIsSubstring(row.staffName.value, name);
    }
  }

  /** Without a filter the count covers every appointment that has a client, a service and an assigned staff member. */
  lemma AllCountsEveryJoinedRow(db: Database, today: Date)
    ensures Selected(db, NoCondition, "", today) == Joined(db)
  {
    FilterUnfiltered(Joined(db), row => Selects(NoCondition, "", row, today));
  }

  lemma {:induction false} FilterUnfiltered<T(!new)>(s: seq<T>, p: T -> bool)
    requires forall x :: x in s ==> p(x)
    ensures Filter(s, p) == s
  {
    if s != [] {
      FilterUnfiltered(s[1..], p);
    }
  }
}
