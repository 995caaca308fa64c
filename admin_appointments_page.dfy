/**
 * The admin's appointments page, `src/pages/admin/Appointments.jsx`: the
 * form it posts to the listing endpoint, the pagination state it keeps from
 * the responses, the Previous/Next buttons and page numbers, the "showing x
 * to y of n" line and the actions offered on each row.
 */
module AdminAppointmentsPage {
  import opened Common
  import opened Calendar
  import opened Pagination
  import AdminListing
  import Sorting

  // ---------------------------------------------------------------------
  // State
  // ---------------------------------------------------------------------

  /** The `pagination` state: the last page count and total the page kept. */
  datatype PaginationState = PaginationState(totalPages: int, totalResults: int)

  /** The page's state: the requested page, the menu filter, the three filter boxes and the pagination. */
  datatype PageState = PageState(
    page: int,
    filter: string,
    clientName: string,
    staffName: string,
    specificDate: string,
    pagination: PaginationState)

  /** The state the page opens with. */
  const InitialState := PageState(1, "all", "", "", "", PaginationState(1, 0))

  /** The signed-in user as the page holds it. */
  datatype PageUser = PageUser(userId: int, role: string)

  /** The options of the filter menu, in their order. */
  const MenuFilters: seq<string> :=
    ["all", "pending", "completed", "cancelled", "by_client_name", "by_staff_name", "by_specific_date"]

  // ---------------------------------------------------------------------
  // The request
  // ---------------------------------------------------------------------

  /** One `FormData` entry; every appended value is sent as text. */
  datatype FormField = FormField(name: string, value: string)

  /** The value PHP's `$_POST` holds for a name: the last entry of that name, if any. */
  function Lookup(form: seq<FormField>, name: string): (v: Option<string>)
    ensures v.None? <==> forall i :: 0 <= i < |form| ==> form[i].name != name
  {
    if form == [] then None
    else if form[|form| - 1].name == name then Some(form[|form| - 1].value)
    else Lookup(form[..|form| - 1], name)
  }

  /** The three fields that carry a filter's value. */
  predicate IsValueField(name: string) {
    name == "client_name" || name == "staff_name" || name == "date"
  }

  /** The menu filter that sends a value field, and the box it takes the value from. */
  function ValueFor(s: PageState, name: string): Option<string> {
    if name == "client_name" && s.filter == "by_client_name" then Some(s.clientName)
    else if name == "staff_name" && s.filter == "by_staff_name" then Some(s.staffName)
    else if name == "date" && s.filter == "by_specific_date" then Some(s.specificDate)
    else None
  }

  /** What the posted form carries, field by field. */
  predicate Carries(form: seq<FormField>, user: PageUser, csrf: Option<string>, s: PageState) {
    && Lookup(form, "user_id") == Some(IntText(user.userId))
    && Lookup(form, "role") == Some(user.role)
    && Lookup(form, "csrf_token") == Some(if csrf.Some? then csrf.value else "")
    && Lookup(form, "filter") == Some(s.filter)
    && Lookup(form, "page") == Some(IntText(s.page))
    && Lookup(form, "client_name") == ValueFor(s, "client_name")
    && Lookup(form, "staff_name") == ValueFor(s, "staff_name")
    && Lookup(form, "date") == ValueFor(s, "date")
  }

  /**
   * `fetchAppointments`: the caller, the token (`''` when none is stored),
   * the filter and the page, then the one value field the filter needs, if
   * any. At most one value field is ever sent.
   */
  method FetchAppointments(user: PageUser, csrf: Option<string>, s: PageState) returns (form: seq<FormField>)
    ensures Carries(form, user, csrf, s)
    ensures forall i, j :: 0 <= i < |form| && 0 <= j < |form| && IsValueField(form[i].name) && IsValueField(form[j].name) ==> i == j
    ensures (exists i :: 0 <= i < |form| && IsValueField(form[i].name)) <==>
      s.filter in {"by_client_name", "by_staff_name", "by_specific_date"}
  {
    form := [];
    form := form + [FormField("user_id", IntText(user.userId))];
    form := form + [FormField("role", user.role)];
    form := form + [FormField("csrf_token", if csrf.Some? then csrf.value else "")];
    form := form + [FormField("filter", s.filter)];
    form := form + [FormField("page", IntText(s.page))];
    var fixed := form;
    if s.filter == "by_client_name" {
      form := form + [FormField("client_name", s.clientName)];
    }
    if s.filter == "by_staff_name" {
      form := form + [FormField("staff_name", s.staffName)];
    }
    if s.filter == "by_specific_date" {
      form := form + [FormField("date", s.specificDate)];
    }
    assert form == fixed + ValueField(s);
    assert form[5..] == ValueField(s);
    FetchedFormCarries(form, user, csrf, s);
  }

  /** The value field the filter appends, if any. */
  function ValueField(s: PageState): seq<FormField> {
    if s.filter == "by_client_name" then [FormField("client_name", s.clientName)]
    else if s.filter == "by_staff_name" then [FormField("staff_name", s.staffName)]
    else if s.filter == "by_specific_date" then [FormField("date", s.specificDate)]
    else []
  }

  lemma FetchedFormCarries(form: seq<FormField>, user: PageUser, csrf: Option<string>, s: PageState)
    requires |form| == 5 + |ValueField(s)|
    requires form[0] == FormField("user_id", IntText(user.userId)) && form[1] == FormField("role", user.role)
    requires form[2] == FormField("csrf_token", if csrf.Some? then csrf.value else "")
    requires form[3] == FormField("filter", s.filter) && form[4] == FormField("page", IntText(s.page))
    requires |form| == 6 ==> form[5] == ValueField(s)[0]
    ensures Carries(form, user, csrf, s)
    ensures forall i, j :: 0 <= i < |form| && 0 <= j < |form| && IsValueField(form[i].name) && IsValueField(form[j].name) ==> i == j
    ensures (exists i :: 0 <= i < |form| && IsValueField(form[i].name)) <==>
      s.filter in {"by_client_name", "by_staff_name", "by_specific_date"}
  {
    FixedNamesDiffer();
    ValueFieldShape(s);
    LookupLast(form, "user_id", 0);
    LookupLast(form, "role", 1);
    LookupLast(form, "csrf_token", 2);
    LookupLast(form, "filter", 3);
    LookupLast(form, "page", 4);
    if |form| == 6 {
      LookupLast(form, form[5].name, 5);
    }
    ValueFieldsRead(form, s, "client_name");
    ValueFieldsRead(form, s, "staff_name");
    ValueFieldsRead(form, s, "date");
  }

  lemma ValueFieldsRead(form: seq<FormField>, s: PageState, name: string)
    requires IsValueField(name)
    requires 5 <= |form| == 5 + |ValueField(s)|
    requires forall i :: 0 <= i < 5 ==> !IsValueField(form[i].name)
    requires |form| == 6 ==> form[5] == ValueField(s)[0]
    ensures Lookup(form, name) == ValueFor(s, name)
  {
    ValueFieldShape(s);
    if |form| == 6 && form[5].name == name {
      LookupLast(form, name, 5);
    }
  }

  /**
   * At most one value field is appended: the one the filter names, holding
   * its box; no other value field has a value.
   */
  lemma ValueFieldShape(s: PageState)
    ensures |ValueField(s)| <= 1
    ensures |ValueField(s)| == 1 <==> s.filter in {"by_client_name", "by_staff_name", "by_specific_date"}
    ensures |ValueField(s)| == 1 ==> IsValueField(ValueField(s)[0].name) && ValueFor(s, ValueField(s)[0].name) == Some(ValueField(s)[0].value)
    ensures forall name :: IsValueField(name) && (|ValueField(s)| == 0 || name != ValueField(s)[0].name) ==> ValueFor(s, name) == None
  {
    FixedNamesDiffer();
  }

  /** The five fixed names are not value fields and differ from each other. */
  lemma FixedNamesDiffer()
    ensures forall n :: n in ["user_id", "role", "csrf_token", "filter", "page"] ==> !IsValueField(n)
    ensures "user_id" != "role" && "user_id" != "csrf_token" && "user_id" != "filter" && "user_id" != "page"
    ensures "role" != "csrf_token" && "role" != "filter" && "role" != "page"
    ensures "csrf_token" != "filter" && "csrf_token" != "page" && "filter" != "page"
    ensures "client_name" != "staff_name" && "client_name" != "date" && "staff_name" != "date"
  {
    assert "user_id"[0] == 'u' && "role"[0] == 'r' && "csrf_token"[0] == 'c' && "filter"[0] == 'f' && "page"[0] == 'p';
    assert "client_name"[0] == 'c' && "staff_name"[0] == 's' && "date"[0] == 'd';
    assert "csrf_token"[1] == 's' && "client_name"[1] == 'l';
  }

  /** The entry at `i` is the last one named `name`, so it is the value `$_POST` holds. */
  lemma {:induction false} LookupLast(form: seq<FormField>, name: string, i: int)
    requires 0 <= i < |form| && form[i].name == name
    requires forall j :: i < j < |form| ==> form[j].name != name
    ensures Lookup(form, name) == Some(form[i].value)
    decreases |form|
  {
    if i < |form| - 1 {
      LookupLast(form[..|form| - 1], name, i);
    }
  }

  /** Text made of an optional minus sign and at least one decimal digit. */
  predicate IsIntegerText(t: string) {
    if |t| >= 1 && t[0] == '-' then |t| >= 2 && forall i :: 1 <= i < |t| ==> IsDecimal(t[i])
    else |t| >= 1 && forall i :: 0 <= i < |t| ==> IsDecimal(t[i])
  }

  /** How the endpoint classifies a posted page text (integer text only; see README). */
  function PostedOf(t: Option<string>): PostedNumber {
    if t.None? then Unset
    else if IsIntegerText(t.value) then Numeric(Intval(t.value))
    else NonNumeric(Intval(t.value))
  }

  /** The request the listing endpoint reads from the posted form and the session. */
  function Received(form: seq<FormField>, sessionId: Option<IdValue>, sessionRole: Option<string>): AdminListing.Request {
    var uid := Lookup(form, "user_id");
    AdminListing.Request(
      Caller(if uid.Some? then Some(IdText(uid.value)) else None, Lookup(form, "role"), sessionId, sessionRole),
      Lookup(form, "filter"),
      Lookup(form, "client_name"),
      Lookup(form, "staff_name"),
      Lookup(form, "date"),
      PostedOf(Lookup(form, "page")))
  }

  lemma IntTextIsInteger(n: int)
    ensures IsIntegerText(IntText(n))
  {
    var t := NatText(if n < 0 then -n else n);
    if n < 0 {
      assert IntText(n)[1..] == t;
    }
  }

  /**
   * The endpoint reads back what the page holds: the caller's id, the
   * requested page, and the filter value box of the chosen filter (no
   * other box). A filter chosen with its box empty or "0" is the request the
   * endpoint refuses as missing its value.
   */
  lemma EndpointReadsThePageState(form: seq<FormField>, user: PageUser, csrf: Option<string>, s: PageState,
                                  sessionId: Option<IdValue>, sessionRole: Option<string>)
    requires Carries(form, user, csrf, s)
    ensures var req := Received(form, sessionId, sessionRole);
      && IntOf(req.caller.postedId) == user.userId
      && AdminListing.PageOf(req.page) == s.page
      && AdminListing.FilterOf(req.filter) == AdminListing.FilterOf(Some(s.filter))
    ensures var req := Received(form, sessionId, sessionRole);
      var f := AdminListing.FilterOf(req.filter);
      && (AdminListing.NeedsValue(f) ==> AdminListing.FilterValue(f, req).Some?)
      && (f == AdminListing.ByClientName ==> AdminListing.FilterValue(f, req) == Some(s.clientName))
      && (f == AdminListing.ByStaffName ==> AdminListing.FilterValue(f, req) == Some(s.staffName))
      && (f == AdminListing.BySpecificDate ==> AdminListing.FilterValue(f, req) == Some(s.specificDate))
      && (AdminListing.NeedsValue(f) && !TruthyText(AdminListing.FilterValue(f, req)) <==>
          AdminListing.NeedsValue(f) && AdminListing.FilterValue(f, req).value in {"", "0"})
  {
    IntvalOfIntText(user.userId);
    IntvalOfIntText(s.page);
    IntTextIsInteger(s.page);
  }

  /** Each menu option is a filter the endpoint knows; "all" lists every appointment. */
  lemma MenuFiltersReachServer()
    ensures AdminListing.FilterOf(Some(MenuFilters[0])) == AdminListing.NoCondition
    ensures AdminListing.FilterOf(Some(MenuFilters[1])) == AdminListing.Pending
    ensures AdminListing.FilterOf(Some(MenuFilters[2])) == AdminListing.Completed
    ensures AdminListing.FilterOf(Some(MenuFilters[3])) == AdminListing.Cancelled
    ensures AdminListing.FilterOf(Some(MenuFilters[4])) == AdminListing.ByClientName
    ensures AdminListing.FilterOf(Some(MenuFilters[5])) == AdminListing.ByStaffName
    ensures AdminListing.FilterOf(Some(MenuFilters[6])) == AdminListing.BySpecificDate
  {
  }

  // ---------------------------------------------------------------------
  // The response
  // ---------------------------------------------------------------------

  /** `result?.data || []`: no rows before the first response or after an error. */
  function Appointments(result: Option<AdminListing.Listing>): (rows: seq<AdminListing.ListedRow>)
    ensures result.None? || result.value.ListingError? ==> rows == []
    ensures result.Some? && result.value.Listing? ==> rows == result.value.data
  {
    if result.Some? && result.value.Listing? then result.value.data else []
  }

  /** The effect on `pagination`: replaced only by a response with a truthy page count. */
  function NextPagination(p: PaginationState, result: Option<AdminListing.Listing>): (q: PaginationState)
    ensures (result.Some? && result.value.Listing? && result.value.totalPages != 0) ==>
      q == PaginationState(result.value.totalPages, result.value.totalResults)
    ensures !(result.Some? && result.value.Listing? && result.value.totalPages != 0) ==> q == p
  {
    if result.Some? && result.value.Listing? && result.value.totalPages != 0 then
      PaginationState(result.value.totalPages, result.value.totalResults)
    else p
  }

  /** The pagination footer is drawn only when the response has rows. */
  predicate FooterShown(result: Option<AdminListing.Listing>) {
    |Appointments(result)| > 0
  }

  /**
   * A listing response as the endpoint computes it for `page`, out of the
   * `selected` rows: the total, the page count, and that page's rows.
   */
  predicate Serves(l: AdminListing.Listing, selected: seq<AdminListing.JoinedRow>, page: int) {
    && page >= 1
    && l.Listing?
    && l.totalResults == |selected|
    && l.totalPages == PageCount(|selected|)
    && |l.data| == |AdminListing.PageRows(selected, Offset(page, PageSize))|
  }

  /**
   * Once a response with rows arrives, the kept pagination is the server's
   * total and page count, and the "showing x to y of n" line counts exactly
   * the rows on the page.
   */
  lemma ShownRangeCountsTheListedRows(p: PaginationState, l: AdminListing.Listing, selected: seq<AdminListing.JoinedRow>, page: int)
    requires Serves(l, selected, page)
    requires FooterShown(Some(l))
    ensures NextPagination(p, Some(l)) == PaginationState(PageCount(|selected|), |selected|)
    ensures 1 <= page <= NextPagination(p, Some(l)).totalPages
    ensures ShownLast(page, NextPagination(p, Some(l)).totalResults) - ShownFirst(page) + 1 == |l.data|
  {
    AdminListing.PageRowsCorrect(selected, page);
    SortedKeepsLength(selected);
    ShownRangeIsWindow(Sorting.InsertionSort(selected, AdminListing.RowLe), page);
  }

  lemma SortedKeepsLength(selected: seq<AdminListing.JoinedRow>)
    ensures |Sorting.InsertionSort(selected, AdminListing.RowLe)| == |selected|
  {
    AdminListing.RowOrder();
    Sorting.InsertionSortCorrect(selected, AdminListing.RowLe);
    assert |multiset(Sorting.InsertionSort(selected, AdminListing.RowLe))| == |multiset(selected)|;
  }

  // ---------------------------------------------------------------------
  // Buttons
  // ---------------------------------------------------------------------

  /** Previous: `setPage(Math.max(1, page - 1))`; disabled on page 1. */
  function PrevClicked(s: PageState): (t: PageState)
    ensures t.page >= 1
    ensures t == s.(page := t.page)
  {
    s.(page := PrevPage(s.page))
  }

  /** Next: `setPage(Math.min(total_pages, page + 1))`; disabled on the last page. */
  function NextClicked(s: PageState): (t: PageState)
    ensures t.page <= s.pagination.totalPages
    ensures t == s.(page := t.page)
  {
    s.(page := NextPage(s.page, s.pagination.totalPages))
  }

  /** `disabled={page === 1}` and `disabled={page === pagination.total_pages}`. */
  predicate PrevDisabled(s: PageState) { s.page == 1 }
  predicate NextDisabled(s: PageState) { s.page == s.pagination.totalPages }

  /**
   * From a page in range, an enabled Previous or Next moves exactly one page,
   * and the page stays between 1 and the page count.
   */
  lemma ButtonsMoveOnePage(s: PageState)
    requires 1 <= s.page <= s.pagination.totalPages
    ensures 1 <= PrevClicked(s).page <= s.pagination.totalPages
    ensures 1 <= NextClicked(s).page <= s.pagination.totalPages
    ensures !PrevDisabled(s) ==> PrevClicked(s).page == s.page - 1
    ensures !NextDisabled(s) ==> NextClicked(s).page == s.page + 1
    ensures PrevDisabled(s) ==> PrevClicked(s) == s
    ensures NextDisabled(s) ==> NextClicked(s) == s
  {
    ClampsStayInRange(s.page, s.pagination.totalPages);
  }

  /** The numbered buttons: `Array.from({ length: total_pages }, (_, i) => i + 1)`. */
  function PageButtons(totalPages: int): (buttons: seq<int>)
    ensures |buttons| == (if totalPages > 0 then totalPages else 0)
    ensures forall i :: 0 <= i < |buttons| ==> buttons[i] == i + 1
  {
    if totalPages <= 0 then [] else seq(totalPages, i requires 0 <= i < totalPages => i + 1)
  }

  /** Every page from 1 to the page count has exactly one button, and no other page has one. */
  lemma PageButtonsAreThePages(totalPages: int, p: int)
    ensures p in PageButtons(totalPages) <==> 1 <= p <= totalPages
  {
    if 1 <= p <= totalPages {
      assert PageButtons(totalPages)[p - 1] == p;
    }
  }

  // ---------------------------------------------------------------------
  // Filter changes
  // ---------------------------------------------------------------------

  /** Choosing a menu option sets the filter and nothing else: the page stays where it was. */
  function ChangeFilterAsWritten(s: PageState, filter: string): (t: PageState)
    ensures t.filter == filter && t.page == s.page
    ensures t == s.(filter := filter)
  {
    s.(filter := filter)
  }

  /**
   * Switching from page 3 to a client-name search that selects five rows asks for the
   * third page of a one-page result: no rows come back, so neither the
   * table nor the footer with the page buttons is drawn, and no button can
   * lead back to the rows.
   */
  lemma FilterChangeStrandsOnEmptyPage(l: AdminListing.Listing, selected: seq<AdminListing.JoinedRow>)
    requires |selected| == 5
    requires Serves(l, selected, ChangeFilterAsWritten(InitialState.(page := 3), "by_client_name").page)
    ensures Appointments(Some(l)) == [] && !FooterShown(Some(l))
    ensures l.totalResults > 0
  {
    AdminListing.PageRowsCorrect(selected, 3);
  }

  /** The corrected menu change: the filter is set and the page goes back to 1. */
  function ChangeFilter(s: PageState, filter: string): (t: PageState)
    ensures t.filter == filter && t.page == 1
    ensures t == s.(filter := filter, page := 1)
  {
    s.(filter := filter, page := 1)
  }

  /** After the corrected change, any filter that selects a row shows rows and the footer. */
  lemma FilterChangeShowsRows(s: PageState, filter: string, l: AdminListing.Listing, selected: seq<AdminListing.JoinedRow>)
    requires |selected| > 0
    requires Serves(l, selected, ChangeFilter(s, filter).page)
    ensures FooterShown(Some(l))
    ensures |Appointments(Some(l))| == (if |selected| < PageSize then |selected| else PageSize)
  {
    SortedKeepsLength(selected);
    ShownRangeIsWindow(Sorting.InsertionSort(selected, AdminListing.RowLe), 1);
  }

  // ---------------------------------------------------------------------
  // Rows
  // ---------------------------------------------------------------------

  /** The staff cell: `a.staff_name || 'غير معين'` ("unassigned"). */
  function StaffCell(a: AdminListing.ListedRow): (cell: string)
    ensures a.staffName.Some? && a.staffName.value != "" ==> cell == a.staffName.value
    ensures a.staffName.None? || a.staffName.value == "" ==> cell == "غير معين"
  {
    if a.staffName.Some? && a.staffName.value != "" then a.staffName.value else "غير معين"
  }

  /** The buttons of a row. */
  datatype RowAction = ShowDetails | AssignStaff(appointmentId: int, staffId: int) | MarkCompleted(appointmentId: int)

  /**
   * Details and "mark completed" are on every row; assigning staff (always
   * staff member 2) only on pending appointments.
   */
  function RowActions(a: AdminListing.ListedRow): (acts: seq<RowAction>)
    ensures ShowDetails in acts && MarkCompleted(a.appointmentId) in acts
    ensures AssignStaff(a.appointmentId, 2) in acts <==> a.status == "pending"
    ensures forall x :: x in acts && x.AssignStaff? ==> x == AssignStaff(a.appointmentId, 2)
    ensures forall x :: x in acts && x.MarkCompleted? ==> x.appointmentId == a.appointmentId
  {
    [ShowDetails] + (if a.status == "pending" then [AssignStaff(a.appointmentId, 2)] else []) + [MarkCompleted(a.appointmentId)]
  }
}
