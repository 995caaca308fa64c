/**
 * The staff member's schedule page, `src/pages/staff/Schedule.jsx`: the
 * date range of the week or month view, the navigation buttons, the seven
 * days of the week view, the grouping of the fetched appointments by date,
 * and the status badges and choices.
 */
module StaffSchedulePage {
  import opened Common
  import opened Calendar
  import ClientCalendar

  // ---------------------------------------------------------------------
  // Date range
  // ---------------------------------------------------------------------

  datatype ViewMode = Week | Month

  /** `viewMode === 'week'`; any other value shows the month. */
  function ModeOf(viewMode: string): ViewMode {
    if viewMode == "week" then Week else Month
  }

  datatype DateRange = DateRange(from: Date, to: Date)

  /**
   * `dateRange`: in the week view from the Saturday on or before the base
   * date, `(day + 1) % 7` days back, to six days later; in the month view
   * from the first to the last day of the base date's month.
   */
  function RangeOf(base: Date, mode: ViewMode): (r: DateRange)
    requires ValidDate(base)
    ensures ValidDate(r.from) && ValidDate(r.to)
  {
    match mode
    case Week =>
      var day := Weekday(DayNumberOf(base));
      var start := AddDays(base, -((day + 1) % 7));
      DateRange(start, AddDays(start, 6))
    case Month =>
      DateRange(Date(base.year, base.month, 1), Date(base.year, base.month, DaysInMonth(base.year, base.month)))
  }

  /** Going `(w + 1) % 7` days back from a day of weekday `w` lands on a Saturday. */
  lemma SaturdayOnOrBefore(n: int)
    ensures 0 <= (Weekday(n) + 1) % 7 <= 6
    ensures Weekday(n - (Weekday(n) + 1) % 7) == 6
  {
    var day := Weekday(n);
    var q := (n + 4) / 7;
    assert n + 4 == 7 * q + day;
    if day == 6 {
      assert n - 0 + 4 == 7 * q + 6;
    } else {
      assert n - (day + 1) + 4 == 7 * (q - 1) + 6;
    }
  }

  /**
   * The week runs from a Saturday to the Friday six days later and holds
   * the base date.
   */
  lemma WeekRange(base: Date)
    requires ValidDate(base)
    ensures var r := RangeOf(base, Week);
      && DayNumberOf(r.from) <= DayNumberOf(base) <= DayNumberOf(r.to)
      && Weekday(DayNumberOf(r.from)) == 6
      && DayNumberOf(r.to) == DayNumberOf(r.from) + 6
  {
    SaturdayOnOrBefore(DayNumberOf(base));
  }

  /** The month range is the base date's month, from its first day to its last. */
  lemma MonthRange(base: Date)
    requires ValidDate(base)
    ensures var r := RangeOf(base, Month);
      && DayNumberOf(r.from) <= DayNumberOf(base) <= DayNumberOf(r.to)
      && r.from == Date(base.year, base.month, 1)
      && r.to.year == base.year && r.to.month == base.month
      && DayNumber(r.to.year, r.to.month, r.to.day + 1) == DayNumberOf(ClientCalendar.ShiftMonth(base, true))
  {
    MonthBoundary(YearMonth(base.year, base.month));
  }

  // ---------------------------------------------------------------------
  // Navigation
  // ---------------------------------------------------------------------

  /**
   * `navigateDate` as written: seven days either way in the week view, and
   * `setMonth(getMonth() ± 1)` in the month view, which keeps the day of the
   * month and lets a day the new month lacks roll into the month after.
   */
  function NavigateDateAsWritten(d: Date, mode: ViewMode, next: bool): (r: Date)
    requires ValidDate(d)
    ensures ValidDate(r)
  {
    match mode
    case Week => AddDays(d, if next then 7 else -7)
    case Month => ClientCalendar.ShiftMonthAsWritten(d, next)
  }

  /** From the 31st of March 2025 the month view's "previous" button shows March again. */
  lemma MonthNavigationFromMarch31StaysInMarch()
    ensures var d := NavigateDateAsWritten(Date(2025, 2, 31), Month, false);
      RangeOf(d, Month) == RangeOf(Date(2025, 2, 31), Month)
  {
    ClientCalendar.PrevMonthFromMarch31StaysInMarch();
  }

  /** The navigation as intended: a week, or the first of the neighbouring month. */
  function NavigateDate(d: Date, mode: ViewMode, next: bool): (r: Date)
    requires ValidDate(d)
    ensures ValidDate(r)
  {
    match mode
    case Week => AddDays(d, if next then 7 else -7)
    case Month => ClientCalendar.ShiftMonth(d, next)
  }

  /** A week later or earlier is the same weekday. */
  lemma WeekdayAfterWeek(n: int, k: int)
    requires k == 7 || k == -7
    ensures Weekday(n + k) == Weekday(n)
  {
    var q := (n + 4) / 7;
    assert n + 4 == 7 * q + Weekday(n);
    assert n + k + 4 == 7 * (q + k / 7) + Weekday(n);
  }

  /** In the week view each button moves the range by exactly seven days. */
  lemma NavigateWeekMovesRange(d: Date, next: bool)
    requires ValidDate(d)
    ensures DayNumberOf(RangeOf(NavigateDate(d, Week, next), Week).from)
         == DayNumberOf(RangeOf(d, Week).from) + (if next then 7 else -7)
  {
    var k := if next then 7 else -7;
    var d2 := NavigateDate(d, Week, next);
    WeekStartNumber(d);
    WeekStartNumber(d2);
    StartsAWeekApart(DayNumberOf(d), DayNumberOf(d2), k);
  }

  lemma StartsAWeekApart(n: int, n2: int, k: int)
    requires k == 7 || k == -7
    requires n2 == n + k
    ensures n2 - (Weekday(n2) + 1) % 7 == n - (Weekday(n) + 1) % 7 + k
  {
    WeekdayAfterWeek(n, k);
  }

  lemma WeekStartNumber(d: Date)
    requires ValidDate(d)
    ensures DayNumberOf(RangeOf(d, Week).from) == DayNumberOf(d) - (Weekday(DayNumberOf(d)) + 1) % 7
  {
  }

  /** In the month view each button shows the next or the previous month. */
  lemma NavigateMonthMovesRange(d: Date, next: bool)
    requires ValidDate(d)
    ensures ClientCalendar.MonthOf(RangeOf(NavigateDate(d, Month, next), Month).from)
         == (if next then NextMonth(ClientCalendar.MonthOf(d)) else PrevMonth(ClientCalendar.MonthOf(d)))
  {
  }

  // ---------------------------------------------------------------------
  // The week view's days
  // ---------------------------------------------------------------------

  /** `weekDays`: a loop pushing the seven days from the range start. */
  method WeekDays(from: Date) returns (days: seq<Date>)
    requires ValidDate(from)
    ensures |days| == 7
    ensures forall i :: 0 <= i < 7 ==> ValidDate(days[i]) && DayNumberOf(days[i]) == DayNumberOf(from) + i
  {
    days := [];
    var i := 0;
    while i < 7
      invariant 0 <= i <= 7
      invariant |days| == i
      invariant forall k :: 0 <= k < i ==> ValidDate(days[k]) && DayNumberOf(days[k]) == DayNumberOf(from) + k
    {
      days := days + [AddDays(from, i)];
      i := i + 1;
    }
  }

  /**
   * Seven days from a week range's start (a Saturday, by `WeekRange`) run
   * Saturday to Friday, the last one being the range's end.
   */
  lemma WeekDaysSpanTheWeek(from: Date, days: seq<Date>)
    requires ValidDate(from) && Weekday(DayNumberOf(from)) == 6
    requires |days| == 7
    requires forall i :: 0 <= i < 7 ==> ValidDate(days[i]) && DayNumberOf(days[i]) == DayNumberOf(from) + i
    ensures forall i :: 0 <= i < 7 ==> ValidDate(days[i]) && Weekday(DayNumberOf(days[i])) == (6 + i) % 7
  {
    var s := DayNumberOf(from);
    forall i | 0 <= i < 7 ensures ValidDate(days[i]) && Weekday(DayNumberOf(days[i])) == (6 + i) % 7 {
      WeekdayFromSaturday(s, DayNumberOf(days[i]), i);
    }
  }

  lemma WeekdayFromSaturday(s: int, t: int, i: int)
    requires Weekday(s) == 6 && 0 <= i < 7 && t == s + i
    ensures Weekday(t) == (6 + i) % 7
  {
    var q := (s + 4) / 7;
    assert s + 4 == 7 * q + 6;
    assert s + i + 4 == 7 * q + 6 + i;
  }

  // ---------------------------------------------------------------------
  // Grouping by date
  // ---------------------------------------------------------------------

  /** An appointment as the page reads it: `date`, or the older `appointment_date`. */
  datatype StaffAppointment = StaffAppointment(
    appointmentId: int,
    date: Option<string>,
    appointmentDate: Option<string>,
    status: string)

  /** `appt.date || appt.appointment_date`, when that is a non-empty text. */
  function DateKey(a: StaffAppointment): Option<string> {
    if a.date.Some? && a.date.value != "" then a.date
    else if a.appointmentDate.Some? && a.appointmentDate.value != "" then a.appointmentDate
    else None
  }

  /** The appointments keyed by `key`, in their fetched order. */
  function Bucket(appts: seq<StaffAppointment>, key: string): seq<StaffAppointment> {
    Filter(appts, (a: StaffAppointment) => DateKey(a) == Some(key))
  }

  /**
   * A grouping of `appts`: one entry per date key in use, holding the
   * appointments with that key in their order; undated ones are dropped.
   */
  ghost predicate IsGrouping(appts: seq<StaffAppointment>, grouped: map<string, seq<StaffAppointment>>) {
    && (forall key :: key in grouped <==> Bucket(appts, key) != [])
    && (forall key :: key in grouped ==> grouped[key] == Bucket(appts, key))
  }

  /** The `forEach` over an array of appointments. */
  method GroupByDate(appts: seq<StaffAppointment>) returns (grouped: map<string, seq<StaffAppointment>>)
    ensures IsGrouping(appts, grouped)
  {
    grouped := map[];
    var i := 0;
    while i < |appts|
      invariant 0 <= i <= |appts|
      invariant IsGrouping(appts[..i], grouped)
    {
      var appt := appts[i];
      var key := DateKey(appt);
      assert appts[..i + 1] == appts[..i] + [appt];
      forall k {
        FilterSnoc(appts[..i], appt, (a: StaffAppointment) => DateKey(a) == Some(k));
      }
      if key.Some? {
        var date := key.value;
        if date !in grouped {
          grouped := grouped[date := []];
        }
        grouped := grouped[date := grouped[date] + [appt]];
      }
      i := i + 1;
    }
    assert appts[..|appts|] == appts;
  }

  /** What `scheduleData?.data || []` can be. */
  datatype ScheduleData =
    | NoData
    | Items(appts: seq<StaffAppointment>)
    | AlreadyGrouped(grouped: map<string, seq<StaffAppointment>>)
    | Scalar

  /**
   * `schedule`: an array is grouped, an object is taken as already grouped,
   * and missing data or a scalar gives no dates.
   */
  method Schedule(data: ScheduleData) returns (r: map<string, seq<StaffAppointment>>)
    ensures data.Items? ==> IsGrouping(data.appts, r)
    ensures data.AlreadyGrouped? ==> r == data.grouped
    ensures data.NoData? || data.Scalar? ==> r == map[]
  {
    match data
    case NoData =>
      r := GroupByDate([]);
    case Items(appts) =>
      r := GroupByDate(appts);
    case AlreadyGrouped(grouped) =>
      r := grouped;
    case Scalar =>
      r := map[];
  }

  /** `schedule[dayKey] || []`. */
  function DayAppointments(schedule: map<string, seq<StaffAppointment>>, dayKey: string): seq<StaffAppointment> {
    if dayKey in schedule then schedule[dayKey] else []
  }

  /**
   * A day of the week view lists exactly the fetched appointments keyed
   * with that day's text, in their order, and nothing undated.
   */
  lemma DayColumnIsItsBucket(appts: seq<StaffAppointment>, grouped: map<string, seq<StaffAppointment>>, dayKey: string)
    requires IsGrouping(appts, grouped)
    ensures DayAppointments(grouped, dayKey) == Bucket(appts, dayKey)
    ensures forall a :: a in DayAppointments(grouped, dayKey) <==> a in appts && DateKey(a) == Some(dayKey)
  {
  }

  // ---------------------------------------------------------------------
  // Status badges and choices
  // ---------------------------------------------------------------------

  const Colors: map<string, string> := map[
    "pending" := "bg-yellow-100 text-yellow-800",
    "confirmed" := "bg-blue-100 text-blue-800",
    "completed" := "bg-green-100 text-green-800",
    "cancelled" := "bg-red-100 text-red-800"]

  const Labels: map<string, string> := map[
    "pending" := "في الانتظار",
    "confirmed" := "مؤكد",
    "completed" := "مكتمل",
    "cancelled" := "ملغي"]

  /** `colors[status] || 'bg-gray-100 text-gray-800'`. */
  function StatusColor(status: string): string {
    if status in Colors then Colors[status] else ClientCalendar.Grey
  }

  /** `labels[status] || status`. */
  function StatusLabel(status: string): string {
    if status in Labels then Labels[status] else status
  }

  /** The statuses the update dialog offers. */
  const StatusChoices: seq<string> := ["pending", "confirmed", "completed", "cancelled"]

  /**
   * The schedule page's badges agree with the client page's for every
   * status: an unknown status is grey and shown as it is. Every choice of
   * the update dialog has its own badge.
   */
  lemma BadgesAgreeWithClientPage(status: string)
    ensures StatusColor(status) == ClientCalendar.StatusColor(status)
    ensures StatusLabel(status) == ClientCalendar.StatusLabel(status)
    ensures status !in StatusChoices ==> StatusColor(status) == ClientCalendar.Grey && StatusLabel(status) == status
    ensures forall s :: s in StatusChoices ==> s in Colors && s in Labels
  {
  }
}
