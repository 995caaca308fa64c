/**
 * The client's appointments page, `src/pages/client/Appointments.jsx`: the
 * month grid of the calendar, the month buttons, the `YYYY-MM-DD` key that
 * puts appointments on grid days, the status badges, which appointments
 * offer edit and cancel, and the reset of the filters.
 */
module ClientCalendar {
  import opened Common
  import opened Calendar
  import CancelBooking

  // ---------------------------------------------------------------------
  // The month grid
  // ---------------------------------------------------------------------

  datatype CalendarDay = CalendarDay(date: Date, isCurrentMonth: bool)

  /** `firstDay.getDay()`: the weekday of the first of the month, 0 = Sunday. */
  function FirstDayIndex(ym: YearMonth): (w: int)
    requires ValidMonth(ym)
    ensures 0 <= w < 7
  {
    Weekday(DayNumber(ym.year, ym.month, 1))
  }

  /** `lastDay.getDay()`: the weekday of the last day of the month. */
  function LastDayIndex(ym: YearMonth): (w: int)
    requires ValidMonth(ym)
    ensures 0 <= w < 7
  {
    Weekday(DayNumber(ym.year, ym.month, DaysInMonth(ym.year, ym.month)))
  }

  /**
   * The grid `getDaysInMonth` builds: the last `firstDayIndex` days of the
   * previous month, then every day of the month, then the first
   * `6 - lastDayIndex` days of the next month; only the middle part is
   * flagged as the current month.
   */
  predicate IsMonthGrid(ym: YearMonth, days: seq<CalendarDay>)
    requires ValidMonth(ym)
  {
    var first := FirstDayIndex(ym);
    var last := DaysInMonth(ym.year, ym.month);
    var p := PrevMonth(ym);
    var n := NextMonth(ym);
    && |days| == first + last + (6 - LastDayIndex(ym))
    && (forall k :: 0 <= k < first ==>
          days[k] == CalendarDay(Date(p.year, p.month, DaysInMonth(p.year, p.month) - (first - 1 - k)), false))
    && (forall k :: first <= k < first + last ==>
          days[k] == CalendarDay(Date(ym.year, ym.month, k - first + 1), true))
    && (forall k :: first + last <= k < |days| ==>
          days[k] == CalendarDay(Date(n.year, n.month, k - first - last + 1), false))
  }

  /** `getDaysInMonth(year, month)`: three loops pushing onto `days`. */
  method DaysInMonthGrid(ym: YearMonth) returns (days: seq<CalendarDay>)
    requires ValidMonth(ym)
    ensures IsMonthGrid(ym, days)
  {
    var first := FirstDayIndex(ym);
    var last := DaysInMonth(ym.year, ym.month);
    var p := PrevMonth(ym);
    var prevMonthLastDay := DaysInMonth(p.year, p.month);
    days := [];
    var i := first - 1;
    while i >= 0
      invariant -1 <= i <= first - 1
      invariant |days| == first - 1 - i
      invariant forall k :: 0 <= k < |days| ==>
        days[k] == CalendarDay(Date(p.year, p.month, prevMonthLastDay - (first - 1 - k)), false)
    {
      days := days + [CalendarDay(Date(p.year, p.month, prevMonthLastDay - i), false)];
      i := i - 1;
    }
    var j := 1;
    while j <= last
      invariant 1 <= j <= last + 1
      invariant |days| == first + j - 1
      invariant forall k :: 0 <= k < first ==>
        days[k] == CalendarDay(Date(p.year, p.month, prevMonthLastDay - (first - 1 - k)), false)
      invariant forall k :: first <= k < |days| ==> days[k] == CalendarDay(Date(ym.year, ym.month, k - first + 1), true)
    {
      days := days + [CalendarDay(Date(ym.year, ym.month, j), true)];
      j := j + 1;
    }
    var n := NextMonth(ym);
    var nextDays := 7 - LastDayIndex(ym) - 1;
    var t := 1;
    while t <= nextDays
      invariant 1 <= t <= nextDays + 1
      invariant |days| == first + last + t - 1
      invariant forall k :: 0 <= k < first ==>
        days[k] == CalendarDay(Date(p.year, p.month, prevMonthLastDay - (first - 1 - k)), false)
      invariant forall k :: first <= k < first + last ==> days[k] == CalendarDay(Date(ym.year, ym.month, k - first + 1), true)
      invariant forall k :: first + last <= k < |days| ==> days[k] == CalendarDay(Date(n.year, n.month, k - first - last + 1), false)
    {
      days := days + [CalendarDay(Date(n.year, n.month, t), false)];
      t := t + 1;
    }
  }

  /**
   * The grid is whole weeks of real, consecutive dates: cell `k` falls on
   * weekday `k % 7`, so every cell sits under its weekday heading, and a
   * cell is flagged as the current month exactly when its date is in it.
   */
  lemma MonthGridShape(ym: YearMonth, days: seq<CalendarDay>)
    requires ValidMonth(ym) && IsMonthGrid(ym, days)
    ensures |days| % 7 == 0 && 28 <= |days| <= 42
    ensures forall k :: 0 <= k < |days| ==>
      ValidDate(days[k].date)
      && DayNumberOf(days[k].date) == DayNumber(ym.year, ym.month, 1) - FirstDayIndex(ym) + k
    ensures forall k :: 0 <= k < |days| ==> Weekday(DayNumberOf(days[k].date)) == k % 7
    ensures forall k :: 0 <= k < |days| ==>
      (days[k].isCurrentMonth <==> days[k].date.year == ym.year && days[k].date.month == ym.month)
  {
    GridLength(ym, days);
    forall k | 0 <= k < |days|
      ensures ValidDate(days[k].date)
      ensures DayNumberOf(days[k].date) == DayNumber(ym.year, ym.month, 1) - FirstDayIndex(ym) + k
      ensures Weekday(DayNumberOf(days[k].date)) == k % 7
      ensures days[k].isCurrentMonth <==> days[k].date.year == ym.year && days[k].date.month == ym.month
    {
      GridCell(ym, days, k);
      WeekdayFromStart(DayNumber(ym.year, ym.month, 1), k);
    }
  }

  lemma GridLength(ym: YearMonth, days: seq<CalendarDay>)
    requires ValidMonth(ym) && IsMonthGrid(ym, days)
    ensures |days| % 7 == 0 && 28 <= |days| <= 42
  {
    var start := DayNumber(ym.year, ym.month, 1);
    var last := DaysInMonth(ym.year, ym.month);
    assert DayNumber(ym.year, ym.month, last) == start + last - 1;
    WholeWeeks(start, last);
  }

  /** Padding a run of `last` days back to a Sunday and on to a Saturday gives whole weeks. */
  lemma WholeWeeks(start: int, last: int)
    requires 28 <= last <= 31
    ensures var n := Weekday(start) + last + (6 - Weekday(start + last - 1));
      n % 7 == 0 && 28 <= n <= 42
  {
    var q := (start + 4) / 7;
    var first := Weekday(start);
    assert start + 4 == 7 * q + first;
    var s := first + last - 1;
    assert start + last - 1 + 4 == 7 * q + s;
    assert Weekday(start + last - 1) == s % 7;
  }

  lemma GridCell(ym: YearMonth, days: seq<CalendarDay>, k: int)
    requires ValidMonth(ym) && IsMonthGrid(ym, days) && 0 <= k < |days|
    ensures ValidDate(days[k].date)
    ensures DayNumberOf(days[k].date) == DayNumber(ym.year, ym.month, 1) - FirstDayIndex(ym) + k
    ensures days[k].isCurrentMonth <==> days[k].date.year == ym.year && days[k].date.month == ym.month
  {
    var first := FirstDayIndex(ym);
    var last := DaysInMonth(ym.year, ym.month);
    if k < first {
      MonthBoundary(PrevMonth(ym));
    } else if k >= first + last {
      MonthBoundary(ym);
    }
  }

  /** Counting `k` days on from a day whose weekday is `Weekday(start)`, back at the week's start. */
  lemma WeekdayFromStart(start: int, k: int)
    requires k >= 0
    ensures Weekday(start - Weekday(start) + k) == k % 7
  {
    var q := (start + 4) / 7;
    assert start + 4 == 7 * q + Weekday(start);
    assert start - Weekday(start) + k + 4 == 7 * q + k;
  }

  // ---------------------------------------------------------------------
  // Month buttons
  // ---------------------------------------------------------------------

  function MonthOf(d: Date): YearMonth {
    YearMonth(d.year, d.month)
  }

  /**
   * `prevMonth`/`nextMonth` as written: `setMonth(getMonth() - 1)` or
   * `+ 1` keeps the day of the month, and a day the new month lacks rolls
   * over into the month after it.
   */
  function ShiftMonthAsWritten(d: Date, forward: bool): (r: Date)
    requires ValidDate(d)
    ensures ValidDate(r)
  {
    var ym := if forward then NextMonth(MonthOf(d)) else PrevMonth(MonthOf(d));
    Normalize(ym.year, ym.month, d.day)
  }

  /** From the 31st of March 2025 the "previous month" button lands on the 3rd of March. */
  lemma PrevMonthFromMarch31StaysInMarch()
    ensures ShiftMonthAsWritten(Date(2025, 2, 31), false) == Date(2025, 2, 3)
    ensures MonthOf(ShiftMonthAsWritten(Date(2025, 2, 31), false)) != PrevMonth(YearMonth(2025, 2))
  {
    assert DaysInMonth(2025, 1) == 28;
  }

  /** As written, the buttons move by one month whenever the day is at most 28. */
  lemma ShiftMonthAsWrittenOnEarlyDays(d: Date, forward: bool)
    requires ValidDate(d) && d.day <= 28
    ensures MonthOf(ShiftMonthAsWritten(d, forward)) ==
      (if forward then NextMonth(MonthOf(d)) else PrevMonth(MonthOf(d)))
  {
  }

  /** The month buttons as intended: the first of the previous or next month. */
  function ShiftMonth(d: Date, forward: bool): (r: Date)
    requires ValidDate(d)
    ensures ValidDate(r) && r.day == 1
    ensures MonthOf(r) == (if forward then NextMonth(MonthOf(d)) else PrevMonth(MonthOf(d)))
  {
    var ym := if forward then NextMonth(MonthOf(d)) else PrevMonth(MonthOf(d));
    Date(ym.year, ym.month, 1)
  }

  /** Back then forward, or forward then back, shows the month one started from. */
  lemma ShiftMonthRoundTrip(d: Date)
    requires ValidDate(d)
    ensures MonthOf(ShiftMonth(ShiftMonth(d, false), true)) == MonthOf(d)
    ensures MonthOf(ShiftMonth(ShiftMonth(d, true), false)) == MonthOf(d)
  {
    NextPrevInverse(MonthOf(d));
  }

  // ---------------------------------------------------------------------
  // Appointments on grid days
  // ---------------------------------------------------------------------

  datatype ClientAppointment = ClientAppointment(appointmentId: int, date: Date, status: string)

  /** `formatDate`: `YYYY-MM-DD` with month and day padded to two digits. */
  function FormatDate(d: Date): string {
    IsoText(d)
  }

  /** For a valid date with a four-digit year, the key is ten characters and reads back as the date. */
  lemma FormatDateReadsBack(d: Date)
    requires ValidDate(d) && 1000 <= d.year <= 9999
    ensures |FormatDate(d)| == 10 && FormatDate(d)[4] == '-' && FormatDate(d)[7] == '-'
    ensures ParseIso(FormatDate(d)) == Some(d)
  {
    IsoRoundTrip(d);
  }

  /** `getAppointmentsForDay`: the appointments whose formatted date is the day's. */
  function AppointmentsForDay(appointments: seq<ClientAppointment>, day: CalendarDay): seq<ClientAppointment> {
    Filter(appointments, (a: ClientAppointment) => FormatDate(a.date) == FormatDate(day.date))
  }

  /**
   * On valid four-digit-year dates, a day lists exactly the appointments on
   * that date, each in the order of the fetched list.
   */
  lemma AppointmentsForDayExactly(appointments: seq<ClientAppointment>, day: CalendarDay)
    requires ValidDate(day.date) && 1000 <= day.date.year <= 9999
    requires forall a :: a in appointments ==> ValidDate(a.date) && 1000 <= a.date.year <= 9999
    ensures forall a :: a in AppointmentsForDay(appointments, day) <==> a in appointments && a.date == day.date
  {
    forall a | a in appointments {
      IsoInjective(a.date, day.date);
    }
  }

  // ---------------------------------------------------------------------
  // Badges, actions and filters
  // ---------------------------------------------------------------------

  const Grey := "bg-gray-100 text-gray-800"

  /** `getStatusColor`. */
  function StatusColor(status: string): (r: string)
    ensures status != "pending" && status != "confirmed" && status != "completed" && status != "cancelled" ==> r == Grey
  {
    match status
    case "pending" => "bg-yellow-100 text-yellow-800"
    case "confirmed" => "bg-blue-100 text-blue-800"
    case "completed" => "bg-green-100 text-green-800"
    case "cancelled" => "bg-red-100 text-red-800"
    case _ => Grey
  }

  /** `getStatusLabel`: an unknown status is shown as it is. */
  function StatusLabel(status: string): (r: string)
    ensures status != "pending" && status != "confirmed" && status != "completed" && status != "cancelled" ==> r == status
  {
    match status
    case "pending" => "في الانتظار"
    case "confirmed" => "مؤكد"
    case "completed" => "مكتمل"
    case "cancelled" => "ملغي"
    case _ => status
  }

  /** The four statuses get four different colours, none of them the fallback grey. */
  lemma StatusColorsDistinct()
    ensures var cs := [StatusColor("pending"), StatusColor("confirmed"), StatusColor("completed"), StatusColor("cancelled")];
      forall i, j :: 0 <= i < j < 4 ==> cs[i] != cs[j] && cs[i] != Grey && cs[j] != Grey
  {
    var cs := [StatusColor("pending"), StatusColor("confirmed"), StatusColor("completed"), StatusColor("cancelled")];
    assert cs[0][3] == 'y' && cs[1][3] == 'b' && cs[2][3] == 'g' && cs[3][3] == 'r' && cs[2][5] == 'e' && Grey[5] == 'a';
  }

  /** Edit and cancel are offered for pending and confirmed appointments only. */
  predicate OffersChanges(status: string) {
    status == "pending" || status == "confirmed"
  }

  /** An appointment that offers cancel is one the cancel endpoint does not refuse for its status. */
  lemma OfferedCancelIsNotTerminal(status: string)
    ensures OffersChanges(status) ==> !CancelBooking.Terminal(status)
  {
  }

  datatype ClientFilters = ClientFilters(status: string, from: string, to: string, sortOrder: string)

  /** The filters the page opens with. */
  const InitialFilters := ClientFilters("", "", "", "newest")

  /** `resetFilters`: no status, no date range, newest first. */
  function ResetFilters(f: ClientFilters): (r: ClientFilters)
    ensures r == InitialFilters
  {
    ClientFilters("", "", "", "newest")
  }
}
