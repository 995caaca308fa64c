/**
 * A staff member's pay for a period, `api/Staff/get_salary.php`: the
 * caller checks, the choice of the target staff member, the work-log
 * condition built from the period, the summed minutes, the hourly rate and
 * the rounded product.
 */
module Salary {
  import opened Common
  import opened Calendar
  import opened Store

  // ---------------------------------------------------------------------
  // MySQL's WEEK() in its default mode
  // ---------------------------------------------------------------------

  /** 0-based day of the year. */
  function DayOfYear(d: Date): int
    requires 0 <= d.month < 12
  {
    DayNumberOf(d) - YearStart(d.year)
  }

  /** Day of the year of the year's first Sunday. */
  function FirstSunday(year: int): (k: int)
    ensures 0 <= k < 7
  {
    (7 - Weekday(YearStart(year))) % 7
  }

  /**
   * `WEEK(date)` in mode 0: weeks start on Sunday, and the days before the
   * year's first Sunday are week 0.
   */
  function Week(d: Date): (w: int)
    requires 0 <= d.month < 12
    ensures DayOfYear(d) >= FirstSunday(d.year) ==> w >= 1
    ensures DayOfYear(d) < FirstSunday(d.year) ==> w == 0
  {
    var k := DayOfYear(d);
    if k < FirstSunday(d.year) then 0 else (k - FirstSunday(d.year)) / 7 + 1
  }

  /** Two dates of one year in the same `WEEK()` are at most six days apart. */
  lemma SameWeekIsClose(a: Date, b: Date)
    requires 0 <= a.month < 12 && 0 <= b.month < 12 && a.year == b.year
    requires DayOfYear(a) >= 0 && DayOfYear(b) >= 0
    requires Week(a) == Week(b)
    ensures -6 <= DayNumberOf(a) - DayNumberOf(b) <= 6
  {
    var s := FirstSunday(a.year);
    var ka, kb := DayOfYear(a), DayOfYear(b);
    if ka >= s {
      assert (ka - s) / 7 == (kb - s) / 7;
      DivBand(ka - s, kb - s);
    }
  }

  lemma DivBand(x: int, y: int)
    requires x >= 0 && y >= 0 && x / 7 == y / 7
    ensures -6 <= x - y <= 6
  {
  }

  // ---------------------------------------------------------------------
  // The period condition
  // ---------------------------------------------------------------------

  datatype Period = Day | WeekPeriod | Month | AllTime

  /** The switch on `$_POST['period']`: "all" and any other text add no condition. */
  function PeriodOf(period: string): Period {
    if period == "day" then Day
    else if period == "week" then WeekPeriod
    else if period == "month" then Month
    else AllTime
  }

  /** Whether a check-in date lies in the period around `today` (`CURDATE()`). */
  predicate InPeriod(p: Period, checkIn: Date, today: Date)
    requires ValidDate(checkIn) && ValidDate(today)
  {
    match p
    case Day => checkIn == today
    case WeekPeriod => Week(checkIn) == Week(today) && checkIn.year == today.year
    case Month => checkIn.month == today.month && checkIn.year == today.year
    case AllTime => true
  }

  /** The day lies in the week and in the month, and each in the whole history. */
  lemma PeriodsNest(checkIn: Date, today: Date)
    requires ValidDate(checkIn) && ValidDate(today)
    ensures InPeriod(Day, checkIn, today) ==> InPeriod(WeekPeriod, checkIn, today) && InPeriod(Month, checkIn, today)
    ensures InPeriod(AllTime, checkIn, today)
  {
  }

  const BaseCondition := "staff_id = ?"
  const DaySuffix := " AND DATE(check_in) = CURDATE()"
  const WeekSuffix := " AND WEEK(check_in) = WEEK(CURDATE()) AND YEAR(check_in) = YEAR(CURDATE())"
  const MonthSuffix := " AND MONTH(check_in) = MONTH(CURDATE()) AND YEAR(check_in) = YEAR(CURDATE())"

  /** The store's reading of the work-log condition text, with `staff` bound to its one placeholder. */
  predicate ConditionHolds(conditions: string, staff: int, log: WorkLog, today: Date)
    requires ValidDate(log.checkIn) && ValidDate(today)
  {
    log.staffId == staff &&
    if conditions == BaseCondition then true
    else if conditions == BaseCondition + DaySuffix then log.checkIn == today
    else if conditions == BaseCondition + WeekSuffix then Week(log.checkIn) == Week(today) && log.checkIn.year == today.year
    else if conditions == BaseCondition + MonthSuffix then log.checkIn.month == today.month && log.checkIn.year == today.year
    else false
  }

  /**
   * Step 6's string building: the condition keeps the staff member's rows
   * of the period and no others, and binds one integer.
   */
  method PeriodConditions(period: string) returns (conditions: string, types: string)
    ensures types == "i"
    ensures forall staff: int, log: WorkLog, today: Date | ValidDate(log.checkIn) && ValidDate(today) ::
      ConditionHolds(conditions, staff, log, today) <==> log.staffId == staff && InPeriod(PeriodOf(period), log.checkIn, today)
  {
    conditions := BaseCondition;
    types := "i";
    var p := PeriodOf(period);
    match p {
      case Day =>
        conditions := conditions + DaySuffix;
      case WeekPeriod =>
        conditions := conditions + WeekSuffix;
      case Month =>
        conditions := conditions + MonthSuffix;
      case AllTime =>
    }
    assert |DaySuffix| == 31 && |WeekSuffix| == 74 && |MonthSuffix| == 76;
  }

  // ---------------------------------------------------------------------
  // Minutes, rate and pay
  // ---------------------------------------------------------------------

  predicate ValidLog(logs: seq<WorkLog>) {
    forall i :: 0 <= i < |logs| ==> ValidDate(logs[i].checkIn)
  }

  /**
   * `SUM(duration_minutes)` over the rows `keep` selects: open entries
   * (null durations) are skipped, and with no duration at all the sum is
   * null.
   */
  function SumMinutes(logs: seq<WorkLog>, keep: WorkLog -> bool): (r: Option<int>)
    ensures r.None? <==> forall i :: 0 <= i < |logs| && keep(logs[i]) ==> logs[i].durationMinutes.None?
  {
    if logs == [] then None
    else
      var rest := SumMinutes(logs[1..], keep);
      var d := logs[0].durationMinutes;
      if keep(logs[0]) && d.Some? then Some(d.value + (if rest.Some? then rest.value else 0))
      else
        assert forall i :: 1 <= i < |logs| ==> logs[i] == logs[1..][i - 1];
        rest
  }

  /** `$row['total_minutes'] ?? 0`. */
  function MinutesOrZero(m: Option<int>): int {
    if m.Some? then m.value else 0
  }

  /**
   * With no negative durations, a wider selection never sums to fewer
   * minutes: the day's total is at most the week's or the month's, each at
   * most the whole history's.
   */
  lemma {:induction false} SumMonotone(logs: seq<WorkLog>, narrow: WorkLog -> bool, wide: WorkLog -> bool)
    requires forall i :: 0 <= i < |logs| && logs[i].durationMinutes.Some? ==> logs[i].durationMinutes.value >= 0
    requires forall i :: 0 <= i < |logs| && narrow(logs[i]) ==> wide(logs[i])
    ensures 0 <= MinutesOrZero(SumMinutes(logs, narrow)) <= MinutesOrZero(SumMinutes(logs, wide))
  {
    if logs != [] {
      assert forall i :: 1 <= i < |logs| ==> logs[i] == logs[1..][i - 1];
      SumMonotone(logs[1..], narrow, wide);
    }
  }

  /** The day's minutes are at most the month's and the week's, for any staff member and day. */
  lemma DayWithinWeekAndMonth(logs: seq<WorkLog>, staff: int, today: Date)
    requires ValidLog(logs) && ValidDate(today)
    requires forall i :: 0 <= i < |logs| && logs[i].durationMinutes.Some? ==> logs[i].durationMinutes.value >= 0
    ensures MinutesOrZero(SumMinutes(logs, Selector(logs, staff, Day, today)))
         <= MinutesOrZero(SumMinutes(logs, Selector(logs, staff, Month, today)))
    ensures MinutesOrZero(SumMinutes(logs, Selector(logs, staff, Day, today)))
         <= MinutesOrZero(SumMinutes(logs, Selector(logs, staff, WeekPeriod, today)))
    ensures MinutesOrZero(SumMinutes(logs, Selector(logs, staff, Month, today)))
         <= MinutesOrZero(SumMinutes(logs, Selector(logs, staff, AllTime, today)))
  {
    forall i | 0 <= i < |logs| {
      PeriodsNest(logs[i].checkIn, today);
    }
    SumMonotone(logs, Selector(logs, staff, Day, today), Selector(logs, staff, Month, today));
    SumMonotone(logs, Selector(logs, staff, Day, today), Selector(logs, staff, WeekPeriod, today));
    SumMonotone(logs, Selector(logs, staff, Month, today), Selector(logs, staff, AllTime, today));
  }

  /** The rows of `logs` for `staff` within the period (dates outside the calendar are never selected). */
  function Selector(logs: seq<WorkLog>, staff: int, p: Period, today: Date): WorkLog -> bool {
    (log: WorkLog) => ValidDate(log.checkIn) && ValidDate(today) && log.staffId == staff && InPeriod(p, log.checkIn, today)
  }

  /** PHP's `round(x, 2)`: to the nearest hundredth, halves away from zero. */
  function Round2(x: real): (r: real)
    ensures -0.005 < r - x <= 0.005 || (x < 0.0 && r - x == -0.005)
    ensures x >= 0.0 ==> r >= 0.0
  {
    if x >= 0.0 then (x * 100.0 + 0.5).Floor as real / 100.0
    else -((-x * 100.0 + 0.5).Floor as real / 100.0)
  }

  /** Step 8: `round($salary_per_hour * $worked_hours, 2)`, within half a cent of the exact product. */
  function PayFor(rate: real, hours: real): (salary: real)
    ensures -0.005 <= salary - rate * hours <= 0.005
  {
    Round2(rate * hours)
  }

  /** Rounding leaves a value already in hundredths as it is. */
  lemma Round2Exact(k: int)
    ensures Round2(k as real / 100.0) == k as real / 100.0
  {
    if k >= 0 {
      assert (k as real / 100.0 * 100.0 + 0.5).Floor == k;
    } else {
      assert (-(k as real / 100.0) * 100.0 + 0.5).Floor == -k;
    }
  }

  datatype SalaryOutcome =
    | Pay(staffId: IdValue, period: string, hoursWorked: real, salaryPerHour: real, calculatedSalary: real)
    | SalaryError(message: string)

  /** `$row['salary_per_hour'] ?? 0`: a missing row or a null rate reads as 0. */
  function RateOf(details: seq<StaffDetail>, staff: int): real {
    var d := FindStaffDetail(details, staff);
    if d.Some? && d.value.salaryPerHour.Some? then d.value.salaryPerHour.value else 0.0
  }

  /**
   * The endpoint, with every statement executing. The caller must be
   * truthy, have the role "admin" or "staff" and exist with that role; the
   * target is the posted `staff_id`, or else the caller; the period must be
   * truthy and the target a staff user. Any admin or staff member may ask
   * for any staff member's pay.
   */
  method GetSalary(db: Database, c: Caller, postedStaffId: Option<IdValue>, period: Option<string>, today: Date)
    returns (r: SalaryOutcome)
    requires ValidLog(db.workLog) && ValidDate(today)
    ensures !TruthyId(PostedFirstId(c)) || !TruthyText(PostedFirstRole(c)) ==> r == SalaryError("Missing user ID or role")
    ensures TruthyId(PostedFirstId(c)) && TruthyText(PostedFirstRole(c))
      && PostedFirstRole(c) != Some("admin") && PostedFirstRole(c) != Some("staff")
      ==> r == SalaryError("Access denied: Role must be admin or staff")
    ensures TruthyId(PostedFirstId(c)) && (PostedFirstRole(c) == Some("admin") || PostedFirstRole(c) == Some("staff"))
      && !HasUser(db.users, Some(IntOf(PostedFirstId(c))), PostedFirstRole(c).value)
      ==> r == SalaryError("No user found with matching ID and role")
    ensures TruthyId(PostedFirstId(c)) && (PostedFirstRole(c) == Some("admin") || PostedFirstRole(c) == Some("staff"))
      && HasUser(db.users, Some(IntOf(PostedFirstId(c))), PostedFirstRole(c).value)
      && !TruthyText(period)
      ==> r == SalaryError("Missing period value (day/week/month/all)")
    ensures TruthyId(PostedFirstId(c)) && (PostedFirstRole(c) == Some("admin") || PostedFirstRole(c) == Some("staff"))
      && HasUser(db.users, Some(IntOf(PostedFirstId(c))), PostedFirstRole(c).value)
      && TruthyText(period)
      && !HasUser(db.users, Some(IntOf(Coalesce(postedStaffId, PostedFirstId(c)))), "staff")
      ==> r == SalaryError("Invalid staff ID or user is not a staff member")
    ensures r.Pay? <==>
      && TruthyId(PostedFirstId(c)) && TruthyText(PostedFirstRole(c))
      && (PostedFirstRole(c) == Some("admin") || PostedFirstRole(c) == Some("staff"))
      && HasUser(db.users, Some(IntOf(PostedFirstId(c))), PostedFirstRole(c).value)
      && TruthyText(period)
      && HasUser(db.users, Some(IntOf(Coalesce(postedStaffId, PostedFirstId(c)))), "staff")
    ensures r.Pay? ==>
      var staff := IntOf(Coalesce(postedStaffId, PostedFirstId(c)));
      && Some(r.staffId) == Coalesce(postedStaffId, PostedFirstId(c))
      && r.period == period.value
      && r.hoursWorked == Hours(MinutesOrZero(SumMinutes(db.workLog, Selector(db.workLog, staff, PeriodOf(period.value), today))))
      && r.salaryPerHour == RateOf(db.staffDetails, staff)
      && r.calculatedSalary == PayFor(r.salaryPerHour, r.hoursWorked)
  {
    var callerId := PostedFirstId(c);
    var role := PostedFirstRole(c);
    if !TruthyId(callerId) || !TruthyText(role) {
      return SalaryError("Missing user ID or role");
    }
    if role != Some("admin") && role != Some("staff") {
      return SalaryError("Access denied: Role must be admin or staff");
    }
    if !HasUser(db.users, Some(IntOf(callerId)), role.value) {
      return SalaryError("No user found with matching ID and role");
    }
    var staffId := Coalesce(postedStaffId, callerId);
    if !TruthyText(period) {
      return SalaryError("Missing period value (day/week/month/all)");
    }
    var staff := IntOf(staffId);
    if !HasUser(db.users, Some(staff), "staff") {
      return SalaryError("Invalid staff ID or user is not a staff member");
    }
    var minutes := WorkedMinutes(db, staff, period.value, today);
    var hours := Hours(minutes);
    var rate := RateOf(db.staffDetails, staff);
    r := Pay(staffId.value, period.value, hours, rate, PayFor(rate, hours));
  }

  /** `$total_minutes / 60`. */
  function Hours(minutes: int): (h: real)
    ensures h * 60.0 == minutes as real
  {
    minutes as real / 60.0
  }

  /**
   * Step 6 for one staff member: the minutes the period's condition
   * selects, `?? 0`.
   */
  method WorkedMinutes(db: Database, staff: int, period: string, today: Date) returns (minutes: int)
    requires ValidLog(db.workLog) && ValidDate(today)
    ensures minutes == MinutesOrZero(SumMinutes(db.workLog, Selector(db.workLog, staff, PeriodOf(period), today)))
  {
    var conditions, types := PeriodConditions(period);
    var keep := (log: WorkLog) => ValidDate(log.checkIn) && ValidDate(today) && ConditionHolds(conditions, staff, log, today);
    forall log | log in db.workLog
      ensures keep(log) == Selector(db.workLog, staff, PeriodOf(period), today)(log)
    {
      if ValidDate(log.checkIn) {
        assert ConditionHolds(conditions, staff, log, today) <==> log.staffId == staff && InPeriod(PeriodOf(period), log.checkIn, today);
      }
    }
    SumSameSelection(db.workLog, keep, Selector(db.workLog, staff, PeriodOf(period), today));
    minutes := MinutesOrZero(SumMinutes(db.workLog, keep));
  }

  /** Two selections that agree on every row sum to the same minutes. */
  lemma {:induction false} SumSameSelection(logs: seq<WorkLog>, p: WorkLog -> bool, q: WorkLog -> bool)
    requires forall log :: log in logs ==> p(log) == q(log)
    ensures SumMinutes(logs, p) == SumMinutes(logs, q)
  {
    if logs != [] {
      SumSameSelection(logs[1..], p, q);
    }
  }
}
