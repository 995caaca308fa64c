/**
 * The admin's staff page, `src/pages/admin/Staff.jsx`: the search over the
 * fetched page of staff rows, the in-place sort by a column, the sort
 * toggle of the column headers, the page count and the Previous/Next
 * buttons, and the form data the edit dialog posts.
 */
module AdminStaffPage {
  import opened Common
  import opened Calendar
  import opened Pagination
  import Sorting
  import opened StaffListing
  import UpdateStaff
  import opened Store

  // ---------------------------------------------------------------------
  // JavaScript's `<` on the values of one column
  // ---------------------------------------------------------------------

  /** String `<`: code unit by code unit, a proper prefix first. */
  predicate StrLt(s: string, t: string) {
    if s == [] then t != []
    else t != [] && (s[0] < t[0] || (s[0] == t[0] && StrLt(s[1..], t[1..])))
  }

  lemma {:induction false} StrLtIrreflexive(s: string)
    ensures !StrLt(s, s)
  {
    if s != [] {
      StrLtIrreflexive(s[1..]);
    }
  }

  lemma {:induction false} StrLtTransitive(a: string, b: string, c: string)
    requires StrLt(a, b) && StrLt(b, c)
    ensures StrLt(a, c)
  {
    if a != [] && a[0] == b[0] && b[0] == c[0] {
      StrLtTransitive(a[1..], b[1..], c[1..]);
    }
  }

  lemma {:induction false} StrLtTotal(a: string, b: string)
    ensures a == b || StrLt(a, b) || StrLt(b, a)
  {
    if a != [] && b != [] && a[0] == b[0] {
      StrLtTotal(a[1..], b[1..]);
      if a[1..] == b[1..] {
        assert a == [a[0]] + a[1..] && b == [b[0]] + b[1..];
      }
    }
  }

  /**
   * A column value as the comparator sees it. `Missing` stands for a null
   * or absent field; in the model it comes before every present value.
   */
  datatype SortValue = Missing | Num(r: real) | Str(s: string)

  predicate ValueLt(x: SortValue, y: SortValue) {
    match x
    case Missing => !y.Missing?
    case Num(r) => (y.Num? && r < y.r) || y.Str?
    case Str(s) => y.Str? && StrLt(s, y.s)
  }

  lemma ValueLtIsStrictOrder(x: SortValue, y: SortValue, z: SortValue)
    ensures !ValueLt(x, x)
    ensures ValueLt(x, y) && ValueLt(y, z) ==> ValueLt(x, z)
    ensures x == y || ValueLt(x, y) || ValueLt(y, x)
  {
    if x.Str? {
      StrLtIrreflexive(x.s);
      if y.Str? {
        StrLtTotal(x.s, y.s);
        if z.Str? && ValueLt(x, y) && ValueLt(y, z) {
          StrLtTransitive(x.s, y.s, z.s);
        }
      }
    }
  }

  // ---------------------------------------------------------------------
  // Sorting by a column
  // ---------------------------------------------------------------------

  /** The columns whose headers call `requestSort`. */
  datatype SortKey = FullName | Email | Phone | SalaryPerHour | CreatedAt

  datatype Direction = Asc | Desc

  datatype SortConfig = SortConfig(key: SortKey, direction: Direction)

  /** The page opens sorted by name, ascending. */
  const InitialSort := SortConfig(FullName, Asc)

  /** `row[key]`; the rows of the staff list carry no `created_at`. */
  function KeyValue(row: StaffRow, key: SortKey): SortValue {
    match key
    case FullName => if row.fullName.Some? then Str(row.fullName.value) else Missing
    case Email => Str(row.email)
    case Phone => if row.phone.Some? then Str(row.phone.value) else Missing
    case SalaryPerHour => if row.salaryPerHour.Some? then Num(row.salaryPerHour.value) else Missing
    case CreatedAt => Missing
  }

  /**
   * `a` may stay before `b`: the comparator does not answer 1, that is `b`'s
   * value is not below `a`'s when ascending, not above it when descending.
   */
  function StaffLe(config: SortConfig): (StaffRow, StaffRow) -> bool {
    (a: StaffRow, b: StaffRow) =>
      if config.direction == Asc then !ValueLt(KeyValue(b, config.key), KeyValue(a, config.key))
      else !ValueLt(KeyValue(a, config.key), KeyValue(b, config.key))
  }

  lemma StaffLeIsTotalPreorder(config: SortConfig)
    ensures Sorting.TotalPreorder(StaffLe(config))
  {
    var le := StaffLe(config);
    forall x: StaffRow, y: StaffRow ensures le(x, y) || le(y, x) {
      ValueLtIsStrictOrder(KeyValue(x, config.key), KeyValue(y, config.key), KeyValue(x, config.key));
    }
    forall x: StaffRow, y: StaffRow, z: StaffRow | le(x, y) && le(y, z) ensures le(x, z) {
      var kx, ky, kz := KeyValue(x, config.key), KeyValue(y, config.key), KeyValue(z, config.key);
      ValueLtIsStrictOrder(kx, ky, kz);
      ValueLtIsStrictOrder(kz, ky, kx);
      ValueLtIsStrictOrder(ky, kx, kz);
      ValueLtIsStrictOrder(kx, kz, ky);
      ValueLtIsStrictOrder(kz, kx, ky);
      ValueLtIsStrictOrder(ky, kz, kx);
    }
  }

  /**
   * `requestSort`: the current column flips its direction, another column
   * becomes the sort column, ascending.
   */
  function RequestSort(prev: SortConfig, key: SortKey): (next: SortConfig)
    ensures next.key == key
    ensures prev.key == key ==> next.direction != prev.direction
    ensures prev.key != key ==> next.direction == Asc
  {
    if prev.key == key then SortConfig(key, if prev.direction == Asc then Desc else Asc)
    else SortConfig(key, Asc)
  }

  /** Two clicks on the sort column restore the sort; two clicks on a new column sort it descending. */
  lemma RequestSortTwice(prev: SortConfig, key: SortKey)
    ensures prev.key == key ==> RequestSort(RequestSort(prev, key), key) == prev
    ensures prev.key != key ==> RequestSort(RequestSort(prev, key), key) == SortConfig(key, Desc)
  {
  }

  // ---------------------------------------------------------------------
  // Search
  // ---------------------------------------------------------------------

  /**
   * The search test of one row against the lowered term: name, then email
   * (both lowered), then phone as it is. `None` is the TypeError a null
   * name, or a null phone reached after two misses, raises.
   */
  function Matches(row: StaffRow, term: string): (r: Option<bool>)
    ensures r.None? <==>
      row.fullName.None?
      || (!Contains(Lower(row.fullName.value), term) && !Contains(Lower(row.email), term) && row.phone.None?)
    ensures r == Some(true) <==>
      row.fullName.Some?
      && (Contains(Lower(row.fullName.value), term) || Contains(Lower(row.email), term)
          || (row.phone.Some? && Contains(row.phone.value, term)))
  {
    if row.fullName.None? then None
    else if Contains(Lower(row.fullName.value), term) then Some(true)
    else if Contains(Lower(row.email), term) then Some(true)
    else if row.phone.None? then None
    else Some(Contains(row.phone.value, term))
  }

  /** `filter` with that test: it fails as soon as one row fails. */
  function SearchRows(rows: seq<StaffRow>, term: string): (r: Option<seq<StaffRow>>)
    ensures r.None? <==> exists row :: row in rows && Matches(row, term).None?
    ensures r.Some? ==> |r.value| <= |rows|
    ensures r.Some? ==> forall row :: row in r.value <==> row in rows && Matches(row, term) == Some(true)
  {
    if rows == [] then Some([])
    else
      var m := Matches(rows[0], term);
      var rest := SearchRows(rows[1..], term);
      assert forall row :: row in rows <==> row == rows[0] || row in rows[1..];
      if m.None? || rest.None? then None
      else if m.value then Some([rows[0]] + rest.value)
      else rest
  }

  /** The search box: an empty term keeps every row. */
  function Search(rows: seq<StaffRow>, searchTerm: string): (r: Option<seq<StaffRow>>)
    ensures searchTerm == "" ==> r == Some(rows)
    ensures searchTerm != "" ==> r == SearchRows(rows, Lower(searchTerm))
  {
    if searchTerm == "" then Some(rows) else SearchRows(rows, Lower(searchTerm))
  }

  /** When every row has a name and a phone, the search cannot fail. */
  lemma SearchSucceedsOnCompleteRows(rows: seq<StaffRow>, searchTerm: string)
    requires forall row :: row in rows ==> row.fullName.Some? && row.phone.Some?
    ensures Search(rows, searchTerm).Some?
  {
  }

  /**
   * `filteredStaff`: no data gives the empty list; otherwise a copy of the
   * rows is searched and then sorted in place by the sort column. The sort
   * column is always set. `None` is the page failing on a null field.
   */
  method FilteredStaff(data: Option<seq<StaffRow>>, searchTerm: string, config: SortConfig)
    returns (r: Option<seq<StaffRow>>)
    ensures data.None? ==> r == Some([])
    ensures data.Some? ==> (r.None? <==> Search(data.value, searchTerm).None?)
    ensures data.Some? && r.Some? ==>
      var kept := Search(data.value, searchTerm).value;
      && multiset(r.value) == multiset(kept)
      && Sorting.SortedBy(r.value, StaffLe(config))
      && (config.key == CreatedAt ==> r.value == kept)
  {
    if data.None? {
      return Some([]);
    }
    var found := Search(data.value, searchTerm);
    if found.None? {
      return None;
    }
    var kept := found.value;
    var a := new StaffRow[|kept|](i requires 0 <= i < |kept| => kept[i]);
    assert a[..] == kept;
    StaffLeIsTotalPreorder(config);
    Sorting.SortInPlace(a, StaffLe(config));
    r := Some(a[..]);
  }

  // ---------------------------------------------------------------------
  // Pages
  // ---------------------------------------------------------------------

  /** `totalPages`: one page when the total is missing or 0, else `ceil(total / 10)`. */
  function StaffTotalPages(total: Option<nat>): (pages: nat)
    ensures pages >= 1
    ensures total.Some? ==> total.value <= pages * PageSize
    ensures total.Some? && total.value > 0 ==> (pages - 1) * PageSize < total.value
    ensures total.None? || total.value == 0 ==> pages == 1
  {
    if total.None? || total.value == 0 then 1 else PageCount(total.value)
  }

  /**
   * On a page the buttons can reach, Previous and Next stay on pages the
   * server can fill, and the "showing x to y of n" line numbers exactly the
   * rows `getStaffDetails` returns for that page with the page's limit.
   */
  lemma StaffPagingAgreesWithServer(rows: seq<StaffRow>, page: int)
    requires rows != []
    requires 1 <= page <= StaffTotalPages(Some(|rows|))
    ensures 1 <= PrevPage(page) <= StaffTotalPages(Some(|rows|))
    ensures 1 <= NextPage(page, StaffTotalPages(Some(|rows|))) <= StaffTotalPages(Some(|rows|))
    ensures Offset(page, PageSize) < |rows|
    ensures ShownLast(page, |rows|) - ShownFirst(page) + 1 == |Window(rows, Offset(page, PageSize), PageSize)|
  {
    ClampsStayInRange(page, StaffTotalPages(Some(|rows|)));
    ShownRangeIsWindow(rows, page);
  }

  // ---------------------------------------------------------------------
  // The edit dialog
  // ---------------------------------------------------------------------

  /** The edit form's values; `salary` is `parseFloat` of the field, `None` for NaN. */
  datatype EditForm = EditForm(fullName: string, phone: string, dob: string, salary: Option<real>, notes: Option<string>)

  /** The object `onSubmitEdit` hands to the update call, every field of which is posted. */
  datatype EditPayload = EditPayload(staffId: int, fullName: string, phone: string, dob: string, salary: Option<real>, notes: string)

  /** `onSubmitEdit`: the selected row's id, the form's fields, and the notes or `''`. */
  function SubmitEdit(selected: StaffRow, form: EditForm): (p: EditPayload)
    ensures p.staffId == selected.staffId
    ensures p.fullName == form.fullName && p.phone == form.phone && p.dob == form.dob && p.salary == form.salary
    ensures p.notes == (if form.notes.Some? then form.notes.value else "")
  {
    EditPayload(selected.staffId, form.fullName, form.phone, form.dob, form.salary,
                if form.notes.Some? && form.notes.value != "" then form.notes.value else "")
  }

  /**
   * How `updateStaffDetails.php` reads the posted payload: the id is the
   * decimal text of the number, and the salary text of NaN reads as 0.
   */
  function ReceivedStaffId(p: EditPayload): Option<IdValue> {
    Some(IdText(IntText(p.staffId)))
  }

  function ReceivedEdit(p: EditPayload): UpdateStaff.Edit {
    UpdateStaff.Edit(Some(if p.salary.Some? then p.salary.value else 0.0), Some(p.notes),
                     Some(p.fullName), Some(p.phone), Some(p.dob))
  }

  /**
   * An edit from this page targets the selected staff member and sets every
   * field from the form: the stored values are never kept, a blank salary
   * is stored as 0 and blank notes as the empty string.
   */
  lemma PageEditOverwritesEveryField(selected: StaffRow, form: EditForm, current: StaffDetail)
    ensures IntOf(ReceivedStaffId(SubmitEdit(selected, form))) == selected.staffId
    ensures var m := UpdateStaff.Merge(ReceivedEdit(SubmitEdit(selected, form)), current);
      && m.salaryPerHour == Some(if form.salary.Some? then form.salary.value else 0.0)
      && m.notes == Some(if form.notes.Some? then form.notes.value else "")
      && m.fullName == Some(form.fullName) && m.phone == Some(form.phone) && m.dob == Some(form.dob)
  {
    IntvalOfIntText(selected.staffId);
  }
}
