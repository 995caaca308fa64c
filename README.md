# Salon booking: appointments, staff and feedback, modelled in Dafny

This project models the core of a salon booking web application. It covers:

- six PHP endpoints:
  - the admin's appointment listing;
  - a client cancelling a booking;
  - the admin's paged staff list;
  - the edit of a staff member's record;
  - a staff member's pay for a period;
  - a staff member's schedule.
- the five React pages that call them or show their data: the admin's appointments, staff and feedback pages, the client's calendar and the staff member's schedule.
- the feedback display helpers.

The endpoints are modelled over a relational store held as sequences of rows in storage order (`Store`). A prepared statement becomes a function over those rows. Where a statement's SQL text is assembled at run time, the text is built by a method and a predicate gives the store's reading of it. That reading is then proved to select exactly what the request means.

An endpoint whose code changes rows is a class whose methods update the table fields (`CancelBooking.AppointmentBook`, `UpdateStaff.StaffDirectory`). The others are methods returning the JSON outcome as a datatype.

The pages are modelled on their state, as records. Their loops are methods with invariants:

- the month grid;
- the week's days;
- grouping appointments by date;
- building the posted form;
- the in-place `Array.prototype.sort`.

Everything the pages compute is proved against the endpoints' models where the two meet:

- the posted form and the request the listing reads;
- the page count and the rows of a page;
- the edit payload and the merge it causes;
- the client's cancel button and the cancel endpoint's refusal of terminal states.

Shared modules:

- `Common`: PHP truthiness, `intval`, ASCII lower-casing, substring search, SQL `LIKE`.
- `Calendar`: dates with a 0-based month as JavaScript has them, day numbers, weekdays, date overflow, `YYYY-MM-DD` text and its parse.
- `Pagination`: offsets, `ceil(total / 10)`, `LIMIT/OFFSET` windows, the Previous/Next clamps, the "showing x to y" line.
- `Sorting`: a total-preorder sort; a functional insertion sort for `ORDER BY` and an in-place one on arrays for the pages.

## Model

| member | source | states |
|---|---|---|
| Common.Intval | api/Booking/viewAllAppointments.php:128 | `intval` of text: leading blanks, a sign, the leading digits; empty or non-numeric text reads as 0 |
| Common.TruthyIdCastingToZero | api/Booking/viewAllAppointments.php:19-27 | a posted id can be truthy and still cast to 0 ("abc") |
| Common.Filter | src/pages/admin/Staff.jsx:122-127 | `Array.prototype.filter`: no longer than the input, and an element is kept iff it is in the input and passes |
| Common.Lower | src/pages/admin/Staff.jsx:121 | `toLowerCase` on ASCII keeps the length |
| Common.LikeIsSubstring | api/Booking/viewAllAppointments.php:72-73 | `x LIKE '%t%'` for a text without wildcards holds iff `t` occurs in `x`, ignoring case |
| Common.LikeAnything | api/Booking/viewAllAppointments.php:73 | `'%'` matches every text |
| Calendar.DaysInMonth | src/pages/client/Appointments.jsx:138 | the day count `new Date(y, m + 1, 0)` gives, between 28 and 31 |
| Calendar.MonthLengths | src/pages/client/Appointments.jsx:138 | February has 29 days iff the year is a leap year and 28 otherwise; every other month has 30 or 31 |
| Calendar.NextPrevInverse | src/pages/client/Appointments.jsx:157-169 | the month after the month before (and conversely) is the month itself |
| Calendar.WeekdayShift | src/pages/staff/Schedule.jsx:27-29 | `getDay` of `k` days later is the weekday moved on by `k` mod 7 |
| Calendar.MonthBoundary | src/pages/client/Appointments.jsx:140 | the last day of a month and the first of the next are consecutive day numbers |
| Calendar.Normalize | src/pages/client/Appointments.jsx:160 | a day number one month out of range rolls into the neighbouring month as `Date` does, keeping a valid date |
| Calendar.AddDays | src/pages/staff/Schedule.jsx:29-31 | `setDate(getDate() + k)`: a valid date whose day number is `k` more |
| Calendar.IntvalOfIntText | src/pages/admin/Staff.jsx:186 | the decimal text JavaScript posts for an integer reads back as that integer |
| Calendar.IsoRoundTrip | src/pages/client/Appointments.jsx:172-178 | the `YYYY-MM-DD` text of a valid four-digit-year date parses back to the date |
| Calendar.IsoInjective | src/pages/client/Appointments.jsx:180-183 | two valid dates with the same key are the same date |
| Pagination.PageCount | api/Booking/viewAllAppointments.php:154 | `ceil(total / 10)`: the pages hold the total and the last one is not empty |
| Pagination.PageCountUnique | api/Booking/viewAllAppointments.php:154 | those two bounds determine the page count |
| Pagination.RowOnSomePage | api/Booking/viewAllAppointments.php:128-130 | every row index lies in the window of a page between 1 and the page count |
| Pagination.Window | api/Booking/viewAllAppointments.php:174 | `LIMIT n OFFSET k`: at most `n` rows, the rows from index `k` in order, full when enough remain |
| Pagination.ClampsStayInRange | src/pages/admin/Appointments.jsx:177-190 | from a page in range, Previous and Next stay in range and move one page when not at an end |
| Pagination.ClampBounds | src/pages/admin/Appointments.jsx:178 | Previous never goes below 1 and Next never above the page count |
| Pagination.ShownRangeIsWindow | src/pages/admin/Appointments.jsx:195-197 | on a page in range, "showing x to y" counts exactly the rows of that page's window |
| Sorting.InsertionSortCorrect | api/Booking/viewAllAppointments.php:173 | `ORDER BY`: the result is sorted by the order and a permutation of the rows |
| Sorting.SortInPlace | src/pages/admin/Staff.jsx:132-140 | in-place sort by a total preorder: the array ends sorted and a permutation of what it held |
| Store.FindUser | api/Staff/getStaffDetails.php:18 | a user row with that id, found iff one exists |
| Store.FindService | api/Booking/cancelBooking.php:35-40 | the service row with an id, found iff one exists |
| Store.FindStaffDetail | api/Staff/updateStaffDetails.php:45-49 | the pay row of a staff id, found iff one exists |
| Store.DateTimeOrder | api/Staff/viewStaffSchedule.php:82 | `ORDER BY a.date, a.time` is a total preorder |
| AdminListing.ActiveAdminId | api/Booking/viewAllAppointments.php:11-17 | the admin query returns the id exactly for an active admin |
| AdminListing.AdminGate | api/Booking/viewAllAppointments.php:19-33 | the two refusals, "Unauthorized access1" then "Unauthorized access" |
| AdminListing.AdminGateExact | api/Booking/viewAllAppointments.php:19-33 | the gate passes iff role "admin", truthy id, and the id's integer cast is an active admin's id or 0 |
| AdminListing.AdminGateForIntegerId | api/Booking/viewAllAppointments.php:8-33 | with an integer id only an active admin passes |
| AdminListing.AdminGateAdmitsNonNumericText | api/Booking/viewAllAppointments.php:19 | posted id "abc" with role "admin" passes without any admin row |
| AdminListing.FilterOf | api/Booking/viewAllAppointments.php:36 | a missing filter is "all", which adds no condition |
| AdminListing.AppendFilter | api/Booking/viewAllAppointments.php:44-121 | the switch: a value filter without a truthy value stops with its message; otherwise its template and bound value |
| AdminListing.BuildQuery | api/Booking/viewAllAppointments.php:44-134 | templates only, one type letter per parameter, limit and offset last, and the WHERE clause selects what the filter means |
| AdminListing.TemplateMeaning | api/Booking/viewAllAppointments.php:45-116 | each template with its bound value selects exactly the filter's rows |
| AdminListing.JoinRows | api/Booking/viewAllAppointments.php:159-171 | the inner joins keep exactly the appointments that have client, service and staff rows, once each and in order; the names and price come from those rows |
| AdminListing.RowOrder | api/Booking/viewAllAppointments.php:173 | the date-then-time order is a total preorder |
| AdminListing.PageRowsCorrect | api/Booking/viewAllAppointments.php:173-174 | a page holds at most ten selected rows in order; pages before the last are full, pages after it empty |
| AdminListing.Project | api/Booking/viewAllAppointments.php:159-167 | the listed price is the service's price |
| AdminListing.ViewAllAppointments | api/Booking/viewAllAppointments.php:8-205 | gate first, then the missing value, then a negative offset's SQL error; otherwise the total, the page count and the page of rows |
| AdminListing.AppendPaging | api/Booking/viewAllAppointments.php:128-134 | limit and offset are bound last, as two integers, after the filter's values |
| AdminListing.RunListing | api/Booking/viewAllAppointments.php:137-205 | the count and page queries for a built clause |
| AdminListing.ListedRows | api/Booking/viewAllAppointments.php:191-196 | the fetch loop yields one listed row per result row, in order |
| AdminListing.NameFilterIsSubstringSearch | api/Booking/viewAllAppointments.php:69-100 | the name filters are case-insensitive substring search |
| AdminListing.AllCountsEveryJoinedRow | api/Booking/viewAllAppointments.php:118-120 | "all" counts every joined row |
| CancelBooking.FindOwned | api/Booking/cancelBooking.php:25-32 | the caller's row with that id, found iff one exists |
| CancelBooking.FindAppointment | api/Booking/cancelBooking.php:35-44 | the row with that id, found iff one exists |
| CancelBooking.CancelWhere | api/Booking/cancelBooking.php:69-71 | the UPDATE keeps the number of rows |
| CancelBooking.CancelCount | api/Booking/cancelBooking.php:77 | the affected-row count is at most the row count |
| CancelBooking.CancelWhereEffect | api/Booking/cancelBooking.php:69-71 | guarded rows become cancelled with other fields kept, other rows untouched, ids stay unique |
| CancelBooking.AffectedMeansChanged | api/Booking/cancelBooking.php:77-81 | a non-zero affected count iff the table changed |
| CancelBooking.CancelWhereIdempotent | api/Booking/cancelBooking.php:69-81 | a second UPDATE changes nothing and affects no row |
| CancelBooking.Snapshot | api/Booking/cancelBooking.php:35-52 | the notification snapshot is "cancelled" and carries the appointment's service name, date and time as read before the update; all three are null when the appointment or its service is missing |
| CancelBooking.AppointmentBook.Cancel | api/Booking/cancelBooking.php:9-90 | each of the seven refusals with its message, in the order of the checks; only success changes the table, exactly by the guarded UPDATE |
| CancelBooking.AppointmentBook.CancelTwice | api/Booking/cancelBooking.php:54-63 | after a successful cancel the same request is refused with "Cannot cancel this appointment" |
| CancelBooking.SecondCancelRefused | api/Booking/cancelBooking.php:54-63 | after the UPDATE the owned row is found again and is cancelled |
| StaffListing.PairsOf | api/Staff/getStaffDetails.php:49-53 | a user's join rows carry that user's id and email |
| StaffListing.StaffJoin | api/Staff/getStaffDetails.php:49-53 | every join row belongs to a staff user |
| StaffListing.JoinCountsStaffWithPay | api/Staff/getStaffDetails.php:44-46 | with one pay row per staff id, the total counts the staff users that have one |
| StaffListing.GetStaffDetails | api/Staff/getStaffDetails.php:6-69 | session before post; refusals in order; the total and the `(page-1)*limit` window; a negative window ends without a response |
| StaffListing.FetchPage | api/Staff/getStaffDetails.php:54-63 | the fetch loop collects exactly the window |
| StaffListing.EveryStaffRowOnOnePage | api/Staff/getStaffDetails.php:39-41 | with a positive limit each row is on exactly one page |
| UpdateStaff.SetDetails | api/Staff/updateStaffDetails.php:68-72 | the first UPDATE keeps the row count |
| UpdateStaff.SetUserFields | api/Staff/updateStaffDetails.php:75-79 | the second UPDATE keeps the row count |
| UpdateStaff.UpdatesTouchOnlyTheStaffMember | api/Staff/updateStaffDetails.php:68-79 | each UPDATE changes only the named columns of the staff member's rows |
| UpdateStaff.Merge | api/Staff/updateStaffDetails.php:61-65 | a posted field wins; pay fields fall back to the stored row; name, phone and birth date fall back to null |
| UpdateStaff.UnsetPayKeepsDetails | api/Staff/updateStaffDetails.php:61-62 | without pay fields the pay row is written back unchanged |
| UpdateStaff.UnsetNameIsCleared | api/Staff/updateStaffDetails.php:63 | without a name the stored name is cleared |
| UpdateStaff.StaffDirectory.UpdateStaffDetails | api/Staff/updateStaffDetails.php:8-92 | the four refusals with their messages, in the order of the checks, changing nothing; each UPDATE that runs is applied; success only when both ran |
| Salary.Week | api/Staff/get_salary.php:89 | `WEEK()` mode 0: days before the first Sunday are week 0 |
| Salary.SameWeekIsClose | api/Staff/get_salary.php:89 | two dates of a year in the same week are at most six days apart |
| Salary.PeriodsNest | api/Staff/get_salary.php:84-97 | a day of the period "day" is in the week and the month, and everything is in "all" |
| Salary.PeriodConditions | api/Staff/get_salary.php:80-97 | the condition text selects the staff member's rows of the period and binds one integer |
| Salary.SumMinutes | api/Staff/get_salary.php:99 | `SUM` skips null durations and is null when none remains |
| Salary.SumMonotone | api/Staff/get_salary.php:99-111 | a wider selection never sums to fewer minutes |
| Salary.DayWithinWeekAndMonth | api/Staff/get_salary.php:84-111 | the day's minutes are at most the week's, the month's and the total |
| Salary.Round2 | api/Staff/get_salary.php:130 | `round(x, 2)` is within half a cent |
| Salary.PayFor | api/Staff/get_salary.php:130 | the pay is within half a cent of rate times hours |
| Salary.Round2Exact | api/Staff/get_salary.php:130 | rounding leaves whole cents unchanged |
| Salary.Hours | api/Staff/get_salary.php:112 | hours times 60 are the minutes |
| Salary.GetSalary | api/Staff/get_salary.php:7-139 | the five refusals with their messages, in the order of the checks; target is the posted staff id or the caller; the pay of the period's minutes at the stored rate |
| Salary.WorkedMinutes | api/Staff/get_salary.php:99-111 | the minutes are the period's sum, 0 when null |
| StaffSchedule.RangeOf | api/Staff/viewStaffSchedule.php:72-79 | "today" wins; a range needs both dates truthy |
| StaffSchedule.JoinClientService | api/Staff/viewStaffSchedule.php:53-64 | the joins keep exactly the appointments that have client and service rows, once each and in order; the names come from those rows |
| StaffSchedule.BuildScheduleQuery | api/Staff/viewStaffSchedule.php:53-82 | one integer and two texts for a range; the WHERE text selects the staff member's rows in the range |
| StaffSchedule.ScheduleRowsCorrect | api/Staff/viewStaffSchedule.php:53-100 | exactly the staff member's rows in range, once each, in date-time order |
| StaffSchedule.Item | api/Staff/viewStaffSchedule.php:55-61 | the listed price is the appointment's own |
| StaffSchedule.FetchSchedule | api/Staff/viewStaffSchedule.php:53-98 | the executed query returns exactly the schedule rows, in order |
| StaffSchedule.Items | api/Staff/viewStaffSchedule.php:94-98 | the fetch loop yields one item per row, in order |
| StaffSchedule.ViewStaffSchedule | api/Staff/viewStaffSchedule.php:6-110 | the four refusals with their messages, in the order of the checks; the ordered rows and the three echoed fields |
| AdminStaffPage.StrLtTransitive | src/pages/admin/Staff.jsx:133-137 | string `<` is transitive |
| AdminStaffPage.StrLtTotal | src/pages/admin/Staff.jsx:133-137 | of two different strings one is `<` the other |
| AdminStaffPage.ValueLtIsStrictOrder | src/pages/admin/Staff.jsx:133-137 | the order on column values is a strict total order |
| AdminStaffPage.StaffLeIsTotalPreorder | src/pages/admin/Staff.jsx:132-140 | the comparator in either direction is a total preorder |
| AdminStaffPage.RequestSort | src/pages/admin/Staff.jsx:147-154 | the key is set; the same key flips the direction; a new key starts ascending |
| AdminStaffPage.RequestSortTwice | src/pages/admin/Staff.jsx:147-154 | two clicks on the sorted key restore it; on a new key they leave it descending |
| AdminStaffPage.Matches | src/pages/admin/Staff.jsx:124-126 | throws iff the name is missing, or the name and email both miss the term and the phone is missing; matches iff the name is present and the name, the email or the phone contains the term |
| AdminStaffPage.SearchRows | src/pages/admin/Staff.jsx:122-127 | the search throws iff some row throws; otherwise it keeps exactly the matching rows |
| AdminStaffPage.Search | src/pages/admin/Staff.jsx:120-121 | an empty term keeps every row; otherwise the lower-cased term is searched |
| AdminStaffPage.SearchSucceedsOnCompleteRows | src/pages/admin/Staff.jsx:122-127 | rows with all three fields never throw |
| AdminStaffPage.FilteredStaff | src/pages/admin/Staff.jsx:114-144 | no data gives []; otherwise a permutation of the searched rows, sorted by the comparator |
| AdminStaffPage.StaffTotalPages | src/pages/admin/Staff.jsx:219-222 | at least 1; `ceil(total / 10)` when there is a total |
| AdminStaffPage.StaffPagingAgreesWithServer | src/pages/admin/Staff.jsx:430-455 | on a page in range the buttons stay in range and "showing x to y" counts the server's window |
| AdminStaffPage.SubmitEdit | src/pages/admin/Staff.jsx:184-193 | the payload carries the selected id, the form's fields, and notes or '' |
| AdminStaffPage.PageEditOverwritesEveryField | src/pages/admin/Staff.jsx:184-193 | the endpoint receives the selected id and overwrites every field; a blank salary is stored as 0 |
| AdminFeedbackPage.FeedbackTotalPages | src/pages/admin/Feedback.jsx:67 | 0 pages iff no results; otherwise `ceil(total / 10)` |
| AdminFeedbackPage.ParseIntOfNumberText | src/pages/admin/Feedback.jsx:88 | `parseInt` reads each rating option back as its number |
| AdminFeedbackPage.KeptExactly | src/pages/admin/Feedback.jsx:76-89 | an entry is kept iff it matches the search (if set) and the rating (if set) |
| AdminFeedbackPage.RatingMenuKeepsThatRating | src/pages/admin/Feedback.jsx:87-89 | choosing n stars keeps exactly the entries rated n |
| AdminFeedbackPage.FeedbackLeIsTotalPreorder | src/pages/admin/Feedback.jsx:92-103 | the comparator is a total preorder for every sort field and order |
| AdminFeedbackPage.FilteredFeedback | src/pages/admin/Feedback.jsx:70-106 | a permutation of the kept entries, sorted; an unknown sort field keeps fetched order |
| AdminFeedbackPage.HandleSortChange | src/pages/admin/Feedback.jsx:116-123 | the same field flips the order; another field becomes the sort field, descending |
| AdminFeedbackPage.SortChangeTwice | src/pages/admin/Feedback.jsx:116-123 | two clicks on the sort field restore the state |
| AdminFeedbackPage.ResetFilters | src/pages/admin/Feedback.jsx:126-131 | reset gives the opening state |
| AdminFeedbackPage.ResetShowsEverythingNewestFirst | src/pages/admin/Feedback.jsx:126-131 | after reset every entry is shown, newest first |
| FeedbackService.StarRating | src/services/feedbackService.js:57-61 | five entries; entry i is filled iff i < rating |
| FeedbackService.StarsFilledPrefix | src/services/feedbackService.js:57-61 | the filled entries are a prefix, as many as the rating clamped to 0..5 |
| FeedbackService.FormatDate | src/services/feedbackService.js:46-50 | missing or empty text gives ''; other text goes to the locale formatter |
| ClientCalendar.DaysInMonthGrid | src/pages/client/Appointments.jsx:135-154 | the three loops build the previous month's tail, the month, and the next month's head |
| ClientCalendar.MonthGridShape | src/pages/client/Appointments.jsx:135-154 | whole weeks (28 to 42 cells) of consecutive valid dates, cell k on weekday k mod 7, flagged current iff in the month |
| ClientCalendar.ShiftMonthAsWritten | src/pages/client/Appointments.jsx:157-169 | `setMonth(getMonth() ± 1)` keeps the day and rolls a missing day into the month after |
| ClientCalendar.PrevMonthFromMarch31StaysInMarch | src/pages/client/Appointments.jsx:157-162 | from 31 March 2025 "previous" lands on 3 March |
| ClientCalendar.ShiftMonthAsWrittenOnEarlyDays | src/pages/client/Appointments.jsx:157-169 | with a day up to 28 the buttons do move one month |
| ClientCalendar.ShiftMonth | src/pages/client/Appointments.jsx:157-169 | corrected: the first of the previous or next month |
| ClientCalendar.ShiftMonthRoundTrip | src/pages/client/Appointments.jsx:157-169 | back then forward, or forward then back, returns to the month |
| ClientCalendar.FormatDateReadsBack | src/pages/client/Appointments.jsx:172-178 | the key is ten characters, dashes at 4 and 7, and parses back to the date |
| ClientCalendar.AppointmentsForDayExactly | src/pages/client/Appointments.jsx:180-183 | a day lists exactly the appointments on that date |
| ClientCalendar.StatusColor | src/pages/client/Appointments.jsx:187-195 | an unknown status is grey |
| ClientCalendar.StatusLabel | src/pages/client/Appointments.jsx:197-205 | an unknown status is shown as it is |
| ClientCalendar.StatusColorsDistinct | src/pages/client/Appointments.jsx:187-195 | the four statuses have four colours, none grey |
| ClientCalendar.OfferedCancelIsNotTerminal | src/pages/client/Appointments.jsx:424 | an appointment offered edit and cancel never has a status the cancel endpoint refuses as terminal |
| ClientCalendar.ResetFilters | src/pages/client/Appointments.jsx:218-222 | reset gives no status, no date range, newest first |
| StaffSchedulePage.RangeOf | src/pages/staff/Schedule.jsx:22-42 | both ends of the range are valid dates |
| StaffSchedulePage.SaturdayOnOrBefore | src/pages/staff/Schedule.jsx:27-29 | going `(day + 1) % 7` days back lands on a Saturday |
| StaffSchedulePage.WeekRange | src/pages/staff/Schedule.jsx:26-31 | the week runs Saturday to Friday and holds the base date |
| StaffSchedulePage.MonthRange | src/pages/staff/Schedule.jsx:32-35 | the month range is the base month's first to last day |
| StaffSchedulePage.NavigateDateAsWritten | src/pages/staff/Schedule.jsx:90-100 | seven days either way; `setMonth` with overflow in the month view |
| StaffSchedulePage.MonthNavigationFromMarch31StaysInMarch | src/pages/staff/Schedule.jsx:96 | from 31 March 2025 "previous" in the month view shows March again |
| StaffSchedulePage.NavigateDate | src/pages/staff/Schedule.jsx:90-100 | corrected: a week, or the first of the neighbouring month |
| StaffSchedulePage.NavigateWeekMovesRange | src/pages/staff/Schedule.jsx:94 | in the week view each button moves the range by seven days |
| StaffSchedulePage.NavigateMonthMovesRange | src/pages/staff/Schedule.jsx:96 | corrected month navigation shows the next or previous month |
| StaffSchedulePage.WeekDays | src/pages/staff/Schedule.jsx:103-114 | seven valid days counting on from the range start |
| StaffSchedulePage.WeekDaysSpanTheWeek | src/pages/staff/Schedule.jsx:103-114 | from a Saturday those days run Saturday to Friday |
| StaffSchedulePage.GroupByDate | src/pages/staff/Schedule.jsx:72-80 | one entry per date in use, with that date's appointments in order; undated ones dropped |
| StaffSchedulePage.Schedule | src/pages/staff/Schedule.jsx:66-87 | an array is grouped; an object is taken as grouped; nothing else gives no dates |
| StaffSchedulePage.DayColumnIsItsBucket | src/pages/staff/Schedule.jsx:271-273 | a day's column lists exactly the appointments keyed with that day |
| StaffSchedulePage.BadgesAgreeWithClientPage | src/pages/staff/Schedule.jsx:126-145 | colours and labels agree with the client page; every offered status has a badge |
| AdminAppointmentsPage.Lookup | src/pages/admin/Appointments.jsx:28-39 | a name has no value iff no entry carries it |
| AdminAppointmentsPage.FetchAppointments | src/pages/admin/Appointments.jsx:27-43 | the form carries caller, token or '', filter and page; only the chosen filter's value field; at most one value field |
| AdminAppointmentsPage.EndpointReadsThePageState | src/pages/admin/Appointments.jsx:27-43 | the listing reads back the caller's id, the page, the filter and that filter's box; an empty box is its "missing" refusal |
| AdminAppointmentsPage.MenuFiltersReachServer | src/pages/admin/Appointments.jsx:125-133 | each menu option is a filter the listing knows |
| AdminAppointmentsPage.Appointments | src/pages/admin/Appointments.jsx:58 | no rows before a response or after an error; otherwise the response's rows |
| AdminAppointmentsPage.NextPagination | src/pages/admin/Appointments.jsx:60-67 | pagination changes only on a response with a non-zero page count |
| AdminAppointmentsPage.ShownRangeCountsTheListedRows | src/pages/admin/Appointments.jsx:174-199 | with rows shown, the kept pagination is the server's and "showing x to y" counts the rows |
| AdminAppointmentsPage.PrevClicked | src/pages/admin/Appointments.jsx:178 | Previous never goes below 1 and changes only the page |
| AdminAppointmentsPage.NextClicked | src/pages/admin/Appointments.jsx:185 | Next never passes the page count and changes only the page |
| AdminAppointmentsPage.ButtonsMoveOnePage | src/pages/admin/Appointments.jsx:177-190 | enabled buttons move one page, stay in range, and disabled ones change nothing |
| AdminAppointmentsPage.PageButtons | src/pages/admin/Appointments.jsx:204 | buttons 1 to the page count, in order |
| AdminAppointmentsPage.PageButtonsAreThePages | src/pages/admin/Appointments.jsx:204 | a page has a button iff it is between 1 and the page count |
| AdminAppointmentsPage.ChangeFilterAsWritten | src/pages/admin/Appointments.jsx:125 | choosing a filter keeps the page |
| AdminAppointmentsPage.FilterChangeStrandsOnEmptyPage | src/pages/admin/Appointments.jsx:125-174 | page 3 with a 5-row filter shows no rows and no footer |
| AdminAppointmentsPage.ChangeFilter | src/pages/admin/Appointments.jsx:125 | corrected: choosing a filter goes back to page 1 |
| AdminAppointmentsPage.FilterChangeShowsRows | src/pages/admin/Appointments.jsx:174 | after the corrected change any non-empty result shows its first rows and the footer |
| AdminAppointmentsPage.StaffCell | src/pages/admin/Appointments.jsx:157 | a missing or empty staff name shows "unassigned" |
| AdminAppointmentsPage.RowActions | src/pages/admin/Appointments.jsx:163-169 | details and "completed" on every row; assign (staff 2) iff pending |

## Left out

- I/O, sessions and transport:
  - the HTTP layer, JSON encoding, cookies and `localStorage` are left out;
  - the session is a parameter (`Caller`);
  - the CSRF token check (`CsrfHelper::validateToken`) and the notification helper are not part of this model;
  - a cancellation's notification is returned as a value instead of being sent.
- Store failures: only some statement failures are modelled.
  - Modelled: the cancel UPDATE (`updateExecutes`), the two staff UPDATEs (`ok1`, `ok2`), and the listing's page query, which fails on a negative `LIMIT`/`OFFSET`.
  - Assumed to run, though the code checks them and answers with an SQL error message: `Salary.GetSalary`'s four statements (get_salary.php:31-35, 63-67, 102-106, 118-122), `StaffSchedule.ViewStaffSchedule`'s two (viewStaffSchedule.php:22-24, 90-92) and `StaffListing.GetStaffDetails`' user check (getStaffDetails.php:21-26). Their contracts say nothing about those failures.
  - Assumed to run, unchecked: the remaining statements, such as `getStaffDetails`' page query and `viewAllAppointments`' count query. `StaffListing.GetStaffDetails` fails only on a negative window.
  - AdminListing.RunListing: the count query of a filter without a placeholder binds an empty type string (viewAllAppointments.php:147-150). The affected filters are today, upcoming, past, pending, completed and cancelled. Under PHP 8, `bind_param` then throws an uncaught `ValueError`, and the request ends without a JSON answer. PHP 7 only warns and carries on. The model follows PHP 7 and lets the count run.
- StaffListing.GetStaffDetails: the page query has no `ORDER BY` (getStaffDetails.php:49-54), so the store may return its rows in any order. The model fixes one order: users in storage order, each user's pay rows after it. Which staff members land on which page is therefore the model's choice, not something the code promises.
- `ORDER BY a.date, a.time` does not fix the order of ties. The model takes storage order (a stable sort), and nothing proved depends on that choice.
- SQL `LIKE`: escape characters and collations other than ASCII case folding are left out. PHP `is_numeric` is modelled only for integer text; its other forms (spaces, decimals, exponents) are not.
- Store.HasUser: compares the role exactly. The SQL `role = ?` compares under the column's collation, and the schema is not part of this model. Under MySQL's usual case-insensitive collations, a posted role such as "Staff" or "admin " would match in `getStaffDetails.php` and `updateStaffDetails.php`, which do no PHP-side role check. The model refuses it. The other endpoints compare the posted role in PHP with `===` first, so the posted side is unaffected there.
- AdminListing.ActiveAdminId and StaffListing.StaffJoin: the same collation question applies to the stored role. The queries compare it with a literal (`role = 'admin'` at viewAllAppointments.php:11, `u.role = 'staff'` at getStaffDetails.php:52), and the model compares exactly. Under a case-insensitive collation, a stored "Admin" or "Staff" would pass in the source and not in the model.
- Common.Intval: reads an optional sign and the leading decimal digits. PHP 8 `intval` and `(int)` of a whole numeric string with a decimal point or an exponent read the number (`"1e3"` gives 1000); the model reads 1. The model's integers are also unbounded: PHP saturates `intval` and `(int)` at PHP_INT_MAX (9223372036854775807), so a page text of twenty or more digits reads there as that maximum and not as its full value, and the offset product `($page - 1) * $limit` (viewAllAppointments.php:130, getStaffDetails.php:41) then leaves the 64-bit range and becomes a float in PHP, which the model does not follow.
- Floating point: salaries and rates are reals, with no IEEE rounding. `parseFloat` of a salary text is abstracted to `Option<real>` (`None` is NaN).
- Dates and times:
  - MySQL date texts and `CURDATE()` are a `Date` parameter;
  - posted date texts (the listing's `specific_date`, the schedule's `date_from`/`date_to`) are read only in the `YYYY-MM-DD` form, and other text matches no row. MySQL also converts forms such as "2025-3-4" or "20250304" when comparing with a `DATE` column; the model does not;
  - JavaScript dates are local calendar dates;
  - time zones, `toISOString`'s shift to UTC and times of day are not modelled;
  - Feedback `created_at` is already a number of milliseconds.
- Text: JavaScript's `toLowerCase` is modelled on ASCII only. `parseInt` is modelled for decimal text; its hexadecimal prefix is not.
- Locale formatting (`toLocaleDateString('ar-SA', …)`) is a parameter of `FeedbackService.FormatDate`.
- `AdminStaffPage.StaffLeIsTotalPreorder`: where a compared column is null, the browser comparator is not consistent. The model orders missing values first, which is one order the browser may produce, not the only one.
- `AdminStaffPage.FilteredStaff` and `AdminFeedbackPage.FilteredFeedback` state the permutation and the order, but not the order of ties. The sort used is stable.
- The status maps of the schedule page are modelled as maps from the four statuses. Keys that JavaScript objects inherit (such as `constructor`) are left out.
- The feedback page's Previous, Next and number buttons call `setCurrentPage`. The state setter is declared as `setCurrenttPage`, so those clicks throw and the page never changes. The model has no navigation for that page.
- The staff page's add-staff dialog, the schedule modal and the status-update and assign-staff requests are not part of this model. Their endpoints (`createStaff.php`, `staffUpdateBookingStatus.php`, `assignStaff.php`) are not part of it either. The pages' requests to them are modelled only as the actions offered.
- `viewStaffSchedule.php`:
  - its page number, read from `$_GET` and never used, is left out;
  - so are its debug log lines and the listing's debug file write.
- AdminAppointmentsPage.FetchAppointments: the page posts `user.user_id` (admin/Appointments.jsx:30), where the other pages and services post `user.id` or `userData.id`. The model assumes `user_id` holds the admin's integer id. If the signed-in user object has no `user_id`, FormData posts the text "undefined". The listing then admits the request only through the non-numeric-id gap (`AdminListing.AdminGateAdmitsNonNumericText`), and the model does not cover that run.
- Request caching and refetching (`useQuery` keys, `keepPreviousData`, `invalidateQueries`) are left out. A page state is paired with the response to its own request.
- Behaviour that differs from what the application's design describes, as the code has it:
  - the salary and schedule endpoints let any admin or staff member read any staff member's pay or schedule;
  - the staff list and staff edit endpoints accept a caller of any role that exists;
  - unknown filter and period names select everything;
  - the listing's admin gate admits a posted non-numeric id (`AdminListing.AdminGateAdmitsNonNumericText`).

## Findings

| source | as written | input that shows it | evidently intended | confidence | as-written member | corrected member |
|---|---|---|---|---|---|---|
| src/pages/client/Appointments.jsx:157-169 | the month buttons call `setMonth(getMonth() ± 1)` on the current date, keeping its day of the month | current date 31 March 2025, "previous": 31 February overflows to 3 March, so March is shown again | move to the neighbouring month (for example its first day) | high, not executed | ClientCalendar.ShiftMonthAsWritten, ClientCalendar.PrevMonthFromMarch31StaysInMarch | ClientCalendar.ShiftMonth, ClientCalendar.ShiftMonthRoundTrip |
| src/pages/staff/Schedule.jsx:96 | the month view's navigation uses the same `setMonth(getMonth() ± 1)` | base date 31 March 2025, "previous" in the month view: the range is March again | show the neighbouring month | high, not executed | StaffSchedulePage.NavigateDateAsWritten, StaffSchedulePage.MonthNavigationFromMarch31StaysInMarch | StaffSchedulePage.NavigateDate, StaffSchedulePage.NavigateMonthMovesRange |
| src/pages/admin/Appointments.jsx:125, 174 | choosing a filter keeps the current page, and the footer with the page buttons is drawn only when rows came back | on page 3, search by a client name that selects 5 appointments: page 3 is empty, so neither rows nor page buttons are shown | go back to page 1 when the filter changes | medium, not executed | AdminAppointmentsPage.ChangeFilterAsWritten, AdminAppointmentsPage.FilterChangeStrandsOnEmptyPage | AdminAppointmentsPage.ChangeFilter, AdminAppointmentsPage.FilterChangeShowsRows |
