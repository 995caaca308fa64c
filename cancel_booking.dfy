/**
 * A client cancelling a booking, `api/Booking/cancelBooking.php`: the
 * request checks, the ownership lookup, the refusal of terminal states,
 * the guarded UPDATE with its affected-row count, and the booking snapshot
 * handed to the notification helper.
 */
module CancelBooking {
  import opened Common
  import opened Calendar
  import opened Store

  /** `completed` and `cancelled` admit no further change. */
  predicate Terminal(status: string) {
    status == "completed" || status == "cancelled"
  }

  predicate UniqueIds(rows: seq<Appointment>) {
    forall i, j :: 0 <= i < j < |rows| ==> rows[i].id != rows[j].id
  }

  /** `SELECT * FROM appointments WHERE id = ? AND client_id = ?`: the first such row. */
  function FindOwned(rows: seq<Appointment>, id: int, client: int): (r: Option<Appointment>)
    ensures r.Some? <==> exists a :: a in rows && a.id == id && a.clientId == client
    ensures r.Some? ==> r.value in rows && r.value.id == id && r.value.clientId == client
  {
    if rows == [] then None
    else if rows[0].id == id && rows[0].clientId == client then Some(rows[0])
    else FindOwned(rows[1..], id, client)
  }

  /** The first row with the given id. */
  function FindAppointment(rows: seq<Appointment>, id: int): (r: Option<Appointment>)
    ensures r.Some? <==> exists a :: a in rows && a.id == id
    ensures r.Some? ==> r.value in rows && r.value.id == id
  {
    if rows == [] then None
    else if rows[0].id == id then Some(rows[0])
    else FindAppointment(rows[1..], id)
  }

  /** The UPDATE's guard `id = ? AND client_id = ?`; a null client id matches no row. */
  predicate Guarded(a: Appointment, id: int, client: Option<int>) {
    client.Some? && a.id == id && a.clientId == client.value
  }

  /** `UPDATE appointments SET status = 'cancelled' WHERE id = ? AND client_id = ?`. */
  function CancelWhere(rows: seq<Appointment>, id: int, client: Option<int>): (r: seq<Appointment>)
    ensures |r| == |rows|
  {
    seq(|rows|, i requires 0 <= i < |rows| =>
      if Guarded(rows[i], id, client) then rows[i].(status := "cancelled") else rows[i])
  }

  /** The affected-row count: guarded rows whose status actually changes. */
  function CancelCount(rows: seq<Appointment>, id: int, client: Option<int>): (n: nat)
    ensures n <= |rows|
  {
    if rows == [] then 0
    else (if Guarded(rows[0], id, client) && rows[0].status != "cancelled" then 1 else 0)
         + CancelCount(rows[1..], id, client)
  }

  /**
   * The UPDATE sets the guarded rows to `cancelled`, keeps every other field
   * of them, and leaves all other rows as they were.
   */
  lemma CancelWhereEffect(rows: seq<Appointment>, id: int, client: Option<int>)
    ensures forall i :: 0 <= i < |rows| && Guarded(rows[i], id, client) ==>
      CancelWhere(rows, id, client)[i] == rows[i].(status := "cancelled")
    ensures forall i :: 0 <= i < |rows| && !Guarded(rows[i], id, client) ==>
      CancelWhere(rows, id, client)[i] == rows[i]
    ensures UniqueIds(rows) ==> UniqueIds(CancelWhere(rows, id, client))
  {
  }

  /** The affected-row count is non-zero exactly when the UPDATE changes the table. */
  lemma {:induction false} AffectedMeansChanged(rows: seq<Appointment>, id: int, client: Option<int>)
    ensures CancelCount(rows, id, client) > 0 <==> CancelWhere(rows, id, client) != rows
  {
    if rows != [] {
      AffectedMeansChanged(rows[1..], id, client);
      var r := CancelWhere(rows, id, client);
      assert r[1..] == CancelWhere(rows[1..], id, client);
      assert r == [r[0]] + r[1..];
      assert rows == [rows[0]] + rows[1..];
    }
  }

  /** Cancelling again changes nothing: every guarded row is already cancelled. */
  lemma CancelWhereIdempotent(rows: seq<Appointment>, id: int, client: Option<int>)
    ensures CancelWhere(CancelWhere(rows, id, client), id, client) == CancelWhere(rows, id, client)
    ensures CancelCount(CancelWhere(rows, id, client), id, client) == 0
  {
    AffectedMeansChanged(CancelWhere(rows, id, client), id, client);
  }

  /** The `$bookingData` array: fields the snapshot query found nothing for stay null. */
  datatype BookingData = BookingData(serviceName: Option<string>, date: Option<Date>, time: Option<int>, status: string)

  /** `SELECT s.name, a.date, a.time FROM appointments a JOIN services s ... WHERE a.id = ?`, status fixed to `cancelled`. */
  function Snapshot(rows: seq<Appointment>, services: seq<Service>, id: int): (b: BookingData)
    ensures b.status == "cancelled"
    ensures b.serviceName.Some? <==> b.date.Some?
    ensures var a := FindAppointment(rows, id);
      a.Some? && FindService(services, a.value.serviceId).Some? ==>
        && b.serviceName == Some(FindService(services, a.value.serviceId).value.name)
        && b.date == Some(a.value.date) && b.time == Some(a.value.time)
    ensures var a := FindAppointment(rows, id);
      !(a.Some? && FindService(services, a.value.serviceId).Some?) ==>
        b.serviceName.None? && b.date.None? && b.time.None?
  {
    var a := FindAppointment(rows, id);
    var s := if a.Some? then FindService(services, a.value.serviceId) else None;
    if a.Some? && s.Some? then BookingData(Some(s.value.name), Some(a.value.date), Some(a.value.time), "cancelled")
    else BookingData(None, None, None, "cancelled")
  }

  /** The notification handed to the helper: the session's user id and the snapshot. */
  datatype Notice = Notice(recipient: Option<IdValue>, booking: BookingData)

  datatype CancelOutcome = Cancelled(message: string, notice: Notice) | CancelFailed(message: string)

  /** The id the UPDATE binds: `$_SESSION['user_id']`, cast to int, or null. */
  function SessionClient(c: Caller): Option<int> {
    if c.sessionId.Some? then Some(IntOf(c.sessionId)) else None
  }

  /** The request gets past the method, role and id checks. */
  predicate WellFormed(isPost: bool, c: Caller, appointmentId: Option<IdValue>) {
    isPost && TruthyId(PostedFirstId(c)) && PostedFirstRole(c) == Some("client") && TruthyId(appointmentId)
  }

  /** The row the caller owns with the requested id, as the ownership and status checks read it. */
  function Owned(rows: seq<Appointment>, c: Caller, appointmentId: Option<IdValue>): Option<Appointment> {
    FindOwned(rows, IntOf(appointmentId), IntOf(PostedFirstId(c)))
  }

  /** The request is well formed and the caller owns a row with that id that is not terminal. */
  predicate Cancellable(rows: seq<Appointment>, isPost: bool, c: Caller, appointmentId: Option<IdValue>) {
    WellFormed(isPost, c, appointmentId)
    && Owned(rows, c, appointmentId).Some? && !Terminal(Owned(rows, c, appointmentId).value.status)
  }

  class AppointmentBook {
    var appointments: seq<Appointment>
    var services: seq<Service>

    ghost predicate Valid()
      reads this
    {
      UniqueIds(appointments)
    }

    constructor (appointments: seq<Appointment>, services: seq<Service>)
      requires UniqueIds(appointments)
      ensures Valid()
      ensures this.appointments == appointments && this.services == services
    {
      this.appointments := appointments;
      this.services := services;
    }

    /**
     * The endpoint, past the CSRF check. `isPost` is the request method
     * test and `updateExecutes` whether the store runs the UPDATE. The
     * checks run in the source's order; the ownership and status checks
     * use the caller's id, the UPDATE binds the session's id, and success
     * needs a non-zero affected-row count. Only a success changes the
     * table, and a terminal appointment is never changed.
     */
    method Cancel(isPost: bool, c: Caller, appointmentId: Option<IdValue>, updateExecutes: bool) returns (r: CancelOutcome)
      requires Valid()
      modifies this
      ensures Valid()
      ensures services == old(services)
      ensures r.CancelFailed? ==> appointments == old(appointments)
      ensures !isPost ==> r == CancelFailed("Appointment cancellation failure")
      ensures isPost && !(TruthyId(PostedFirstId(c)) && PostedFirstRole(c) == Some("client")) ==> r == CancelFailed("Unauthorized")
      ensures isPost && TruthyId(PostedFirstId(c)) && PostedFirstRole(c) == Some("client") && !TruthyId(appointmentId)
        ==> r == CancelFailed("Missing appointment ID")
      ensures WellFormed(isPost, c, appointmentId) && Owned(old(appointments), c, appointmentId).None?
        ==> r == CancelFailed("Appointment not found")
      ensures WellFormed(isPost, c, appointmentId) && Owned(old(appointments), c, appointmentId).Some?
        && Terminal(Owned(old(appointments), c, appointmentId).value.status)
        ==> r == CancelFailed("Cannot cancel this appointment")
      ensures Cancellable(old(appointments), isPost, c, appointmentId) && !updateExecutes
        ==> r == CancelFailed("Deleting record error")
      ensures Cancellable(old(appointments), isPost, c, appointmentId) && updateExecutes
        && CancelCount(old(appointments), IntOf(appointmentId), SessionClient(c)) == 0
        ==> r == CancelFailed("Appointment not found or already completed")
      ensures r.Cancelled? <==>
        Cancellable(old(appointments), isPost, c, appointmentId) && updateExecutes
        && CancelCount(old(appointments), IntOf(appointmentId), SessionClient(c)) > 0
      ensures r.Cancelled? ==>
        && appointments == CancelWhere(old(appointments), IntOf(appointmentId), SessionClient(c))
        && appointments != old(appointments)
        && r.message == "Appointment cancelled successfully!"
        && r.notice == Notice(c.sessionId, Snapshot(old(appointments), services, IntOf(appointmentId)))
    {
      if !isPost {
        return CancelFailed("Appointment cancellation failure");
      }
      var clientId := PostedFirstId(c);
      var role := PostedFirstRole(c);
      if !TruthyId(clientId) || role != Some("client") {
        return CancelFailed("Unauthorized");
      }
      if !TruthyId(appointmentId) {
        return CancelFailed("Missing appointment ID");
      }
      var id := IntOf(appointmentId);
      var owned := FindOwned(appointments, id, IntOf(clientId));
      if owned.None? {
        return CancelFailed("Appointment not found");
      }
      var booking := Snapshot(appointments, services, id);
      if owned.value.status == "completed" || owned.value.status == "cancelled" {
        return CancelFailed("Cannot cancel this appointment");
      }
      var sessionClient := SessionClient(c);
      if !updateExecutes {
        return CancelFailed("Deleting record error");
      }
      var affected := CancelCount(appointments, id, sessionClient);
      if affected == 0 {
        return CancelFailed("Appointment not found or already completed");
      }
      CancelWhereEffect(appointments, id, sessionClient);
      AffectedMeansChanged(appointments, id, sessionClient);
      appointments := CancelWhere(appointments, id, sessionClient);
      r := Cancelled("Appointment cancelled successfully!", Notice(c.sessionId, booking));
    }

    /**
     * Cancelling the same booking twice: when the first call succeeds, the
     * second one is refused with "Cannot cancel this appointment" and
     * changes nothing.
     */
    method CancelTwice(c: Caller, appointmentId: Option<IdValue>) returns (first: CancelOutcome, second: CancelOutcome)
      requires Valid()
      modifies this
      ensures Valid()
      ensures first.Cancelled? ==> second == CancelFailed("Cannot cancel this appointment")
      ensures first.Cancelled? ==> appointments == CancelWhere(old(appointments), IntOf(appointmentId), SessionClient(c))
    {
      first := Cancel(true, c, appointmentId, true);
      if first.Cancelled? {
        ghost var before := appointments;
        ghost var id := IntOf(appointmentId);
        ghost var owner := IntOf(PostedFirstId(c));
        SecondCancelRefused(old(appointments), id, owner, SessionClient(c));
      }
      second := Cancel(true, c, appointmentId, true);
    }
  }

  /**
   * After a successful UPDATE on a table with unique ids, the row the
   * caller owns with that id is found again, and it is `cancelled`.
   */
  lemma SecondCancelRefused(rows: seq<Appointment>, id: int, owner: int, client: Option<int>)
    requires UniqueIds(rows)
    requires FindOwned(rows, id, owner).Some?
    requires CancelCount(rows, id, client) > 0
    ensures var after := FindOwned(CancelWhere(rows, id, client), id, owner);
      after.Some? && after.value.status == "cancelled"
  {
    var a := FindOwned(rows, id, owner).value;
    var i :| 0 <= i < |rows| && rows[i] == a;
    GuardedRowExists(rows, id, client);
    var j :| 0 <= j < |rows| && Guarded(rows[j], id, client);
    assert i == j;
    var after := CancelWhere(rows, id, client);
    assert after[i] == a.(status := "cancelled");
    assert after[i] in after;
    var found := FindOwned(after, id, owner);
    var k :| 0 <= k < |after| && after[k] == found.value;
    assert k == i;
  }

  lemma {:induction false} GuardedRowExists(rows: seq<Appointment>, id: int, client: Option<int>)
    requires CancelCount(rows, id, client) > 0
    ensures exists j :: 0 <= j < |rows| && Guarded(rows[j], id, client)
  {
    if !(Guarded(rows[0], id, client) && rows[0].status != "cancelled") {
      GuardedRowExists(rows[1..], id, client);
      var j :| 0 <= j < |rows[1..]| && Guarded(rows[1..][j], id, client);
      assert Guarded(rows[j + 1], id, client);
    }
  }
}
