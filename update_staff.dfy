/**
 * An edit of a staff member's record, `api/Staff/updateStaffDetails.php`:
 * the caller check, the lookup of the current pay details, the merge of
 * posted and current values, and the two UPDATE statements, which succeed
 * or fail independently.
 */
module UpdateStaff {
  import opened Common
  import opened Calendar
  import opened Store

  /** `UPDATE staff_details SET salary_per_hour = ?, notes = ? WHERE staff_id = ?`. */
  function SetDetails(details: seq<StaffDetail>, staff: int, salary: Option<real>, notes: Option<string>): (r: seq<StaffDetail>)
    ensures |r| == |details|
  {
    seq(|details|, i requires 0 <= i < |details| =>
      if details[i].staffId == staff then details[i].(salaryPerHour := salary, notes := notes) else details[i])
  }

  /** `UPDATE users SET full_name = ?, phone = ?, dob = ? WHERE id = ?`. */
  function SetUserFields(users: seq<User>, staff: int, fullName: Option<string>, phone: Option<string>, dob: Option<string>): (r: seq<User>)
    ensures |r| == |users|
  {
    seq(|users|, i requires 0 <= i < |users| =>
      if users[i].id == staff then users[i].(fullName := fullName, phone := phone, dob := dob) else users[i])
  }

  /**
   * Each UPDATE changes the named columns of the matching rows to the bound
   * values, and nothing else: other columns and other rows stay as they were.
   */
  lemma UpdatesTouchOnlyTheStaffMember(details: seq<StaffDetail>, users: seq<User>, staff: int,
                                        salary: Option<real>, notes: Option<string>,
                                        fullName: Option<string>, phone: Option<string>, dob: Option<string>)
    ensures forall i :: 0 <= i < |details| ==>
      var d := SetDetails(details, staff, salary, notes)[i];
      && d.staffId == details[i].staffId && d.dateRegistered == details[i].dateRegistered
      && (details[i].staffId == staff ==> d.salaryPerHour == salary && d.notes == notes)
      && (details[i].staffId != staff ==> d == details[i])
    ensures forall i :: 0 <= i < |users| ==>
      var u := SetUserFields(users, staff, fullName, phone, dob)[i];
      && u.id == users[i].id && u.email == users[i].email && u.role == users[i].role && u.isActive == users[i].isActive
      && (users[i].id == staff ==> u.fullName == fullName && u.phone == phone && u.dob == dob)
      && (users[i].id != staff ==> u == users[i])
  {
  }

  /** The posted fields the merge reads; `None` is a field that is not set. */
  datatype Edit = Edit(
    salaryPerHour: Option<real>,
    notes: Option<string>,
    fullName: Option<string>,
    phone: Option<string>,
    dob: Option<string>)

  /**
   * The new values: a posted field wins; otherwise the current row is read.
   * That row holds only `salary_per_hour` and `notes`, so an unset name,
   * phone or date of birth reads as null.
   */
  datatype Merged = Merged(
    salaryPerHour: Option<real>,
    notes: Option<string>,
    fullName: Option<string>,
    phone: Option<string>,
    dob: Option<string>)

  function Merge(e: Edit, current: StaffDetail): (m: Merged)
    ensures e.salaryPerHour.Some? ==> m.salaryPerHour == e.salaryPerHour
    ensures e.salaryPerHour.None? ==> m.salaryPerHour == current.salaryPerHour
    ensures e.notes.Some? ==> m.notes == e.notes
    ensures e.notes.None? ==> m.notes == current.notes
    ensures m.fullName == e.fullName && m.phone == e.phone && m.dob == e.dob
  {
    Merged(
      if e.salaryPerHour.Some? then e.salaryPerHour else current.salaryPerHour,
      if e.notes.Some? then e.notes else current.notes,
      e.fullName,
      e.phone,
      e.dob)
  }

  predicate UniqueStaff(details: seq<StaffDetail>) {
    forall i, j :: 0 <= i < j < |details| ==> details[i].staffId != details[j].staffId
  }

  /** An edit that sets neither pay field writes the staff member's pay row back unchanged. */
  lemma UnsetPayKeepsDetails(details: seq<StaffDetail>, staff: int, e: Edit)
    requires UniqueStaff(details)
    requires FindStaffDetail(details, staff).Some?
    requires e.salaryPerHour.None? && e.notes.None?
    ensures var m := Merge(e, FindStaffDetail(details, staff).value);
      SetDetails(details, staff, m.salaryPerHour, m.notes) == details
  {
    var current := FindStaffDetail(details, staff).value;
    var r := SetDetails(details, staff, current.salaryPerHour, current.notes);
    forall i | 0 <= i < |details| ensures r[i] == details[i] {
      if details[i].staffId == staff {
        var j :| 0 <= j < |details| && details[j] == current;
        assert i == j;
      }
    }
  }

  /** An edit that does not set the name clears the staff member's stored name. */
  lemma UnsetNameIsCleared(users: seq<User>, staff: int, e: Edit, current: StaffDetail)
    requires e.fullName.None?
    ensures var m := Merge(e, current);
      forall i :: 0 <= i < |users| && users[i].id == staff ==>
        SetUserFields(users, staff, m.fullName, m.phone, m.dob)[i].fullName.None?
  {
  }

  datatype UpdateOutcome = Updated(message: string) | UpdateFailed(message: string)

  class StaffDirectory {
    var users: seq<User>
    var details: seq<StaffDetail>

    constructor (users: seq<User>, details: seq<StaffDetail>)
      ensures this.users == users && this.details == details
    {
      this.users := users;
      this.details := details;
    }

    /**
     * The endpoint. `ok1` and `ok2` are whether the store runs the first
     * and the second UPDATE. Role and id must be truthy and a user with that
     * id and role must exist, whatever the role; then a truthy `staff_id`
     * with a pay row is required. Each UPDATE that runs is applied, and the
     * request reports success only when both ran, so a failure can follow a
     * change to one of the two tables.
     */
    method UpdateStaffDetails(c: Caller, staffId: Option<IdValue>, e: Edit, ok1: bool, ok2: bool) returns (r: UpdateOutcome)
      modifies this
      ensures !TruthyText(PostedFirstRole(c)) || !TruthyId(PostedFirstId(c)) ==> r == UpdateFailed("Missing required fields.")
      ensures TruthyText(PostedFirstRole(c)) && TruthyId(PostedFirstId(c))
        && !HasUser(old(users), Some(IntOf(PostedFirstId(c))), PostedFirstRole(c).value)
        ==> r == UpdateFailed("Unauthorized access")
      ensures TruthyText(PostedFirstRole(c)) && TruthyId(PostedFirstId(c))
        && HasUser(old(users), Some(IntOf(PostedFirstId(c))), PostedFirstRole(c).value)
        && !TruthyId(staffId)
        ==> r == UpdateFailed("Missing staff ID.")
      ensures TruthyText(PostedFirstRole(c)) && TruthyId(PostedFirstId(c))
        && HasUser(old(users), Some(IntOf(PostedFirstId(c))), PostedFirstRole(c).value)
        && TruthyId(staffId) && FindStaffDetail(old(details), IntOf(staffId)).None?
        ==> r == UpdateFailed("Staff member not found.")
      ensures var passes :=
          TruthyText(PostedFirstRole(c)) && TruthyId(PostedFirstId(c))
          && HasUser(old(users), Some(IntOf(PostedFirstId(c))), PostedFirstRole(c).value)
          && TruthyId(staffId) && FindStaffDetail(old(details), IntOf(staffId)).Some?;
        && (!passes ==> users == old(users) && details == old(details) && r.UpdateFailed?)
        && (passes ==>
             var m := Merge(e, FindStaffDetail(old(details), IntOf(staffId)).value);
             && details == (if ok1 then SetDetails(old(details), IntOf(staffId), m.salaryPerHour, m.notes) else old(details))
             && users == (if ok2 then SetUserFields(old(users), IntOf(staffId), m.fullName, m.phone, m.dob) else old(users))
             && (r == if ok1 && ok2 then Updated("Staff details updated successfully!") else UpdateFailed("Failed to update staff details.")))
    {
      var callerId := PostedFirstId(c);
      var role := PostedFirstRole(c);
      if !TruthyText(role) || !TruthyId(callerId) {
        return UpdateFailed("Missing required fields.");
      }
      if !HasUser(users, Some(IntOf(callerId)), role.value) {
        return UpdateFailed("Unauthorized access");
      }
      if !TruthyId(staffId) {
        return UpdateFailed("Missing staff ID.");
      }
      var staff := IntOf(staffId);
      var current := FindStaffDetail(details, staff);
      if current.None? {
        return UpdateFailed("Staff member not found.");
      }
      var m := Merge(e, current.value);
      if ok1 {
        details := SetDetails(details, staff, m.salaryPerHour, m.notes);
      }
      if ok2 {
        users := SetUserFields(users, staff, m.fullName, m.phone, m.dob);
      }
      if ok1 && ok2 {
        r := Updated("Staff details updated successfully!");
      } else {
        r := UpdateFailed("Failed to update staff details.");
      }
    }
  }
}
