/**
 * The admin's paged list of staff members, `api/Staff/getStaffDetails.php`:
 * the caller check (session first), the page and limit fields, the count of
 * staff users with a pay row, and one page of that join.
 */
module StaffListing {
  import opened Common
  import opened Calendar
  import opened Store
  import opened Pagination

  /** One row of `users u JOIN staff_details sd ON u.id = sd.staff_id WHERE u.role = 'staff'`. */
  datatype StaffRow = StaffRow(
    staffId: int,
    fullName: Option<string>,
    email: string,
    phone: Option<string>,
    dob: Option<string>,
    salaryPerHour: Option<real>,
    notes: Option<string>,
    dateRegistered: Date)

  /** The pay rows of one user, paired with that user. */
  function PairsOf(u: User, details: seq<StaffDetail>): (r: seq<StaffRow>)
    ensures |r| <= |details|
    ensures forall row :: row in r ==> row.staffId == u.id && row.email == u.email
  {
    if details == [] then []
    else
      var rest := PairsOf(u, details[1..]);
      var d := details[0];
      if d.staffId == u.id then
        [StaffRow(u.id, u.fullName, u.email, u.phone, u.dob, d.salaryPerHour, d.notes, d.dateRegistered)] + rest
      else rest
  }

  /** The join, user by user in storage order. */
  function StaffJoin(users: seq<User>, details: seq<StaffDetail>): (r: seq<StaffRow>)
    ensures forall row :: row in r ==> exists u :: u in users && u.role == "staff" && u.id == row.staffId
  {
    if users == [] then []
    else
      var rest := StaffJoin(users[1..], details);
      var here := if users[0].role == "staff" then PairsOf(users[0], details) else [];
      assert forall row :: row in rest ==> exists u :: u in users && u.role == "staff" && u.id == row.staffId by {
        forall row | row in rest ensures exists u :: u in users && u.role == "staff" && u.id == row.staffId {
          var u :| u in users[1..] && u.role == "staff" && u.id == row.staffId;
          assert u in users;
        }
      }
      here + rest
  }

  /** With one pay row per staff id, the join counts the staff users that have a pay row. */
  lemma {:induction false} JoinCountsStaffWithPay(users: seq<User>, details: seq<StaffDetail>)
    requires forall i, j :: 0 <= i < j < |details| ==> details[i].staffId != details[j].staffId
    ensures |StaffJoin(users, details)| == |Filter(users, (u: User) => u.role == "staff" && FindStaffDetail(details, u.id).Some?)|
  {
    if users != [] {
      JoinCountsStaffWithPay(users[1..], details);
      if users[0].role == "staff" {
        OnePairPerUser(users[0], details);
      }
    }
  }

  lemma {:induction false} OnePairPerUser(u: User, details: seq<StaffDetail>)
    requires forall i, j :: 0 <= i < j < |details| ==> details[i].staffId != details[j].staffId
    ensures |PairsOf(u, details)| == if FindStaffDetail(details, u.id).Some? then 1 else 0
  {
    if details != [] {
      OnePairPerUser(u, details[1..]);
      if details[0].staffId == u.id {
        assert forall k :: 0 <= k < |details[1..]| ==> details[1..][k].staffId != u.id by {
          forall k | 0 <= k < |details[1..]| ensures details[1..][k].staffId != u.id {
            assert details[1..][k] == details[k + 1];
          }
        }
      }
    }
  }

  datatype StaffList = StaffList(data: seq<StaffRow>, total: nat) | StaffListError(message: string) | ServerFault

  /** `isset($_POST[f]) ? intval($_POST[f]) : default`. */
  function IntField(f: Option<string>, default: int): int {
    if f.Some? then Intval(f.value) else default
  }

  /**
   * The endpoint. Session values come before posted ones here. Role and id
   * must be truthy and a user with that id and role must exist, whatever
   * the role. The total counts the whole join; the data is the window at
   * `(page - 1) * limit` of `limit` rows. A negative limit or offset makes
   * the page statement fail, and the unchecked failure ends the script
   * without a response (`ServerFault`).
   */
  method GetStaffDetails(db: Database, c: Caller, page: Option<string>, limit: Option<string>) returns (r: StaffList)
    ensures !TruthyText(SessionFirstRole(c)) || !TruthyId(SessionFirstId(c)) ==> r == StaffListError("Missing required fields.")
    ensures TruthyText(SessionFirstRole(c)) && TruthyId(SessionFirstId(c))
      && !HasUser(db.users, Some(IntOf(SessionFirstId(c))), SessionFirstRole(c).value)
      ==> r == StaffListError("Unauthorized access")
    ensures r.StaffList? || r.ServerFault? <==>
      TruthyText(SessionFirstRole(c)) && TruthyId(SessionFirstId(c))
      && HasUser(db.users, Some(IntOf(SessionFirstId(c))), SessionFirstRole(c).value)
    ensures r.ServerFault? <==>
      ((r.StaffList? || r.ServerFault?) && (IntField(limit, 10) < 0 || Offset(IntField(page, 1), IntField(limit, 10)) < 0))
    ensures r.StaffList? ==>
      var rows := StaffJoin(db.users, db.staffDetails);
      var lim := IntField(limit, 10);
      var off := Offset(IntField(page, 1), lim);
      && r.total == |rows|
      && lim >= 0 && off >= 0
      && r.data == Window(rows, off, lim)
  {
    var adminId := SessionFirstId(c);
    var role := SessionFirstRole(c);
    if !TruthyText(role) || !TruthyId(adminId) {
      return StaffListError("Missing required fields.");
    }
    if !HasUser(db.users, Some(IntOf(adminId)), role.value) {
      return StaffListError("Unauthorized access");
    }
    var pageNum := IntField(page, 1);
    var lim := IntField(limit, 10);
    var offset := Offset(pageNum, lim);
    var rows := StaffJoin(db.users, db.staffDetails);
    var total := |rows|;
    if lim < 0 || offset < 0 {
      return ServerFault;
    }
    var staffList := FetchPage(rows, offset, lim);
    r := StaffList(staffList, total);
  }

  /** `LIMIT ? OFFSET ?` and the `fetch_assoc` loop that collects the rows. */
  method FetchPage(rows: seq<StaffRow>, offset: int, lim: int) returns (staffList: seq<StaffRow>)
    requires offset >= 0 && lim >= 0
    ensures staffList == Window(rows, offset, lim)
  {
    var window := Window(rows, offset, lim);
    staffList := [];
    var i := 0;
    while i < |window|
      invariant 0 <= i <= |window|
      invariant staffList == window[..i]
    {
      staffList := staffList + [window[i]];
      i := i + 1;
    }
    assert window[..|window|] == window;
  }

  /**
   * Asking page by page with a positive limit, every row of the join
   * appears on exactly one page number: the one its index falls in.
   */
  lemma EveryStaffRowOnOnePage(rows: seq<StaffRow>, lim: int, i: int)
    requires lim > 0 && 0 <= i < |rows|
    ensures var p := i / lim + 1;
      Offset(p, lim) >= 0 && Offset(p, lim) <= i < Offset(p, lim) + lim
      && Window(rows, Offset(p, lim), lim)[i - Offset(p, lim)] == rows[i]
    ensures forall q :: q >= 1 && Offset(q, lim) <= i < Offset(q, lim) + lim ==> q == i / lim + 1
  {
    var p := i / lim + 1;
    assert Offset(p, lim) == (i / lim) * lim;
    forall q | q >= 1 && Offset(q, lim) <= i < Offset(q, lim) + lim ensures q == p {
      assert (q - 1) * lim <= i < (q - 1) * lim + lim;
      DivisionPinned(i, lim, q - 1);
    }
  }

  lemma DivisionPinned(i: int, lim: int, k: int)
    requires lim > 0 && k >= 0 && k * lim <= i < k * lim + lim
    ensures i / lim == k
  {
    var q := i / lim;
    assert i == q * lim + i % lim;
    if q > k {
      MulMono(k + 1, q, lim);
    } else if q < k {
      MulMono(q + 1, k, lim);
    }
  }

  lemma MulMono(a: int, b: int, c: int)
    requires a <= b && c >= 0
    ensures a * c <= b * c
  {
  }
}
