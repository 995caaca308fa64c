/**
 * The relational store the endpoints query, as sequences of rows in storage
 * order, with the key lookups their `SELECT ... WHERE id = ?` statements do.
 */
module Store {
  import opened Common
  import opened Calendar
  import Sorting

  /** `users`: every account; `role` is one of "client", "staff", "admin". */
  datatype User = User(
    id: int,
    fullName: Option<string>,
    email: string,
    phone: Option<string>,
    dob: Option<string>,
    role: string,
    isActive: bool)

  /** `services`: read-only reference data. */
  datatype Service = Service(id: int, name: string, price: real)

  /** `appointments`: `time` is seconds after midnight; `staffId` is null until staff is assigned. */
  datatype Appointment = Appointment(
    id: int,
    clientId: int,
    staffId: Option<int>,
    serviceId: int,
    date: Date,
    time: int,
    price: real,
    status: string)

  /** `staff_details`: one row per staff user. */
  datatype StaffDetail = StaffDetail(
    staffId: int,
    salaryPerHour: Option<real>,
    notes: Option<string>,
    dateRegistered: Date)

  /** `work_log`: one check-in; `durationMinutes` is null while the entry is open. */
  datatype WorkLog = WorkLog(staffId: int, checkIn: Date, durationMinutes: Option<int>)

  datatype Database = Database(
    users: seq<User>,
    services: seq<Service>,
    appointments: seq<Appointment>,
    staffDetails: seq<StaffDetail>,
    workLog: seq<WorkLog>)

  /** A value bound to a `?` placeholder of a prepared statement. */
  datatype Param = Text(text: string) | Int(n: int)

  /** `SELECT id FROM users WHERE id = ? AND role = ?` returns a row. */
  predicate HasUser(users: seq<User>, id: Option<int>, role: string) {
    id.Some? && exists u :: u in users && u.id == id.value && u.role == role
  }

  /** The first user row with the given id. */
  function FindUser(users: seq<User>, id: int): (r: Option<User>)
    ensures r.Some? <==> exists u :: u in users && u.id == id
    ensures r.Some? ==> r.value in users && r.value.id == id
  {
    if users == [] then None
    else if users[0].id == id then Some(users[0])
    else FindUser(users[1..], id)
  }

  function FindService(services: seq<Service>, id: int): (r: Option<Service>)
    ensures r.Some? <==> exists s :: s in services && s.id == id
    ensures r.Some? ==> r.value in services && r.value.id == id
  {
    if services == [] then None
    else if services[0].id == id then Some(services[0])
    else FindService(services[1..], id)
  }

  function FindStaffDetail(details: seq<StaffDetail>, staffId: int): (r: Option<StaffDetail>)
    ensures r.Some? <==> exists d :: d in details && d.staffId == staffId
    ensures r.Some? ==> r.value in details && r.value.staffId == staffId
  {
    if details == [] then None
    else if details[0].staffId == staffId then Some(details[0])
    else FindStaffDetail(details[1..], staffId)
  }

  /** `ORDER BY a.date, a.time`: `x` may come before `y`. */
  predicate DateTimeLe(x: Appointment, y: Appointment) {
    Before(x.date, y.date) || (x.date == y.date && x.time <= y.time)
  }

  lemma DateTimeOrder()
    ensures Sorting.TotalPreorder(DateTimeLe)
  {
  }
}
