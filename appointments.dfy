/** The appointment routes over the in-memory store: booking, re-statusing,
    assigning a doctor, cancelling, the patient's own listing and the free
    hourly slots of a day.

    The handlers mutate one shared `appointments` array and read the `users`
    and `therapies` arrays of the development store; here they are the fields
    of one `AppointmentStore` object. The authenticated caller (`req.user`)
    and the clock (`new Date()`) are parameters. */
module Appointments {
  import opened Wrappers
  import opened JsStrings
  import opened Seqs
  import TimeSlots

  // ---------------------------------------------------------------- data

  datatype Role = Patient | Doctor | Admin | OtherRole

  /** The user the bearer token names. */
  datatype Caller = Caller(userId: int, role: Role)

  datatype User = User(id: int, name: string, email: string, role: Role)

  datatype Therapy = Therapy(id: int, name: string, duration: string, price: nat)

  datatype Appointment = Appointment(
    id: int,
    patientId: int,
    therapyId: int,
    doctorId: Option<int>,
    preferredDate: string,
    preferredTime: string,
    status: string,
    notes: string,
    createdAt: int,
    updatedAt: int)

  /** The accounts the development store starts with. */
  const SeedUsers: seq<User> := [
    User(1, "Dr. Admin", "admin@niramay.com", Admin),
    User(2, "Dr. Priya Sharma", "doctor@niramay.com", Doctor),
    User(3, "Dr. Rajesh Kumar", "doctor2@niramay.com", Doctor)
  ]

  /** The therapies the development store starts with. */
  const SeedTherapies: seq<Therapy> := [
    Therapy(1, "Panchakarma Detox", "14 days", 25000),
    Therapy(2, "Abhyanga Massage", "90 minutes", 2500),
    Therapy(3, "Shirodhara", "60 minutes", 3500),
    Therapy(4, "Ayurvedic Consultation", "45 minutes", 1500)
  ]

  /** In the development store therapy 1 exists and therapy 5 does not,
      user 2 is a doctor, and the admin, user 1, is not one: assigning
      doctor 1 answers "Doctor not found". */
  lemma SeedLookups()
    ensures FindTherapy(SeedTherapies, Some(1)) == Some(SeedTherapies[0])
    ensures FindTherapy(SeedTherapies, Some(5)) == None
    ensures FindDoctor(SeedUsers, Some(2)) == Some(SeedUsers[1])
    ensures FindDoctor(SeedUsers, Some(1)) == None
  {
  }

  const RequiredMessage: string := "Therapy, date, and time are required"
  const AccessDenied: string := "Access denied"
  const NotFound: string := "Appointment not found"

  // -------------------------------------------------------- JS idioms

  /** `!v` for a request field that is a string or absent. */
  predicate Falsy(v: Option<string>) {
    v == None || v == Some("")
  }

  /** `v || fallback` for a string field. */
  function OrElse(v: Option<string>, fallback: string): (r: string)
    ensures Falsy(v) ==> r == fallback
    ensures !Falsy(v) ==> r == v.value && r != ""
  {
    if Falsy(v) then fallback else v.value
  }

  /** `doctorId || null`: a missing id and the id 0 both become `null`. */
  function DoctorOrNull(v: Option<int>): (r: Option<int>)
    ensures r == None <==> (v == None || v == Some(0))
    ensures r.Some? ==> r == v
  {
    if v == None || v == Some(0) then None else v
  }

  // ----------------------------------------------------------- lookups

  /** `therapies.find(t => t.id === key)`; a key that is `NaN` matches none. */
  function FindTherapy(ts: seq<Therapy>, key: Option<int>): (r: Option<Therapy>)
    ensures r.Some? ==> r.value in ts && key == Some(r.value.id)
    ensures r.Some? ==> exists k :: 0 <= k < |ts| && ts[k] == r.value && forall j :: 0 <= j < k ==> key != Some(ts[j].id)
    ensures r.None? ==> forall t :: t in ts ==> key != Some(t.id)
  {
    if ts == [] then None
    else if key == Some(ts[0].id) then Some(ts[0])
    else
      var rest := FindTherapy(ts[1..], key);
      assert rest.Some? ==> exists k :: 0 <= k < |ts| && ts[k] == rest.value && forall j :: 0 <= j < k ==> key != Some(ts[j].id) by {
        if rest.Some? {
          var k :| 0 <= k < |ts| - 1 && ts[1..][k] == rest.value && forall j :: 0 <= j < k ==> key != Some(ts[1..][j].id);
          assert ts[k + 1] == rest.value;
          assert forall j :: 0 <= j < k + 1 ==> key != Some(ts[j].id) by {
            forall j | 0 <= j < k + 1 ensures key != Some(ts[j].id) {
              if j > 0 { assert ts[j] == ts[1..][j - 1]; }
            }
          }
        }
      }
      rest
  }

  /** No user before position `k` is a doctor with that id. */
  predicate NoDoctorBefore(us: seq<User>, key: Option<int>, k: nat)
    requires k <= |us|
  {
    forall j :: 0 <= j < k ==> !(key == Some(us[j].id) && us[j].role == Doctor)
  }

  /** `users.find(u => u.id === key && u.role === 'doctor')` */
  function FindDoctor(us: seq<User>, key: Option<int>): (r: Option<User>)
    ensures r.Some? ==> r.value in us && key == Some(r.value.id) && r.value.role == Doctor
    ensures r.Some? ==> exists k :: 0 <= k < |us| && us[k] == r.value && NoDoctorBefore(us, key, k)
    ensures r.None? ==> forall u :: u in us ==> !(key == Some(u.id) && u.role == Doctor)
  {
    if us == [] then None
    else if key == Some(us[0].id) && us[0].role == Doctor then Some(us[0])
    else
      var rest := FindDoctor(us[1..], key);
      assert rest.Some? ==> exists k :: 0 <= k < |us| && us[k] == rest.value && NoDoctorBefore(us, key, k) by {
        if rest.Some? {
          var k :| 0 <= k < |us| - 1 && us[1..][k] == rest.value && NoDoctorBefore(us[1..], key, k);
          assert us[k + 1] == rest.value;
          assert NoDoctorBefore(us, key, k + 1) by {
            forall j | 0 <= j < k + 1 ensures !(key == Some(us[j].id) && us[j].role == Doctor) {
              if j > 0 { assert us[j] == us[1..][j - 1]; }
            }
          }
        }
      }
      rest
  }

  /** `appointments.findIndex(apt => apt.id === key)`: the first position
      holding that id, or -1. */
  function IndexOfId(s: seq<Appointment>, key: Option<int>): (i: int)
    ensures -1 <= i < |s|
    ensures i >= 0 ==> key == Some(s[i].id) && forall j :: 0 <= j < i ==> key != Some(s[j].id)
    ensures i == -1 <==> forall j :: 0 <= j < |s| ==> key != Some(s[j].id)
  {
    if s == [] then -1
    else if key == Some(s[0].id) then 0
    else
      var i := IndexOfId(s[1..], key);
      if i == -1 then -1 else i + 1
  }

  function AppointmentId(a: Appointment): int {
    a.id
  }

  /** Ids are handed out as `appointments.length + 1` and never removed, so
      the appointment with id `k` sits at position `k - 1`. */
  lemma IndexOfIdPositions(s: seq<Appointment>, k: int)
    requires IdsArePositions(s, AppointmentId)
    ensures IndexOfId(s, Some(k)) == if 1 <= k <= |s| then k - 1 else -1
  {
    var i := IndexOfId(s, Some(k));
    if 1 <= k <= |s| {
      assert s[k - 1].id == k;
    }
  }

  // ------------------------------------------------- available slots

  /** The hourly grid of `available-slots`: `HH:00` for the hours 9 to 17. */
  function HourLabel(hour: nat): string {
    TimeSlots.Pad2(hour) + ":00"
  }

  /** The labels of the hours `lo` to `hi - 1`, pushed in that order. */
  function HourlyRange(lo: nat, hi: nat): seq<string> {
    Tabulate(lo, hi, HourLabel)
  }

  function HourlyGrid(): seq<string> {
    HourlyRange(9, 18)
  }

  /** The loop at the heart of `available-slots`. */
  method HourlySlots() returns (allSlots: seq<string>)
    ensures allSlots == HourlyGrid()
  {
    allSlots := [];
    var hour := 9;
    while hour < 18
      invariant 9 <= hour <= 18
      invariant allSlots == HourlyRange(9, hour)
    {
      var time := TimeSlots.Pad2(hour) + ":00";
      allSlots := allSlots + [time];
      hour := hour + 1;
    }
  }

  lemma HourlyRangeLabels(lo: nat, hi: nat)
    requires lo <= hi
    ensures |HourlyRange(lo, hi)| == hi - lo
    ensures forall i :: 0 <= i < hi - lo ==> HourlyRange(lo, hi)[i] == HourLabel(lo + i)
  {
    TabulateAt(lo, hi, HourLabel);
  }

  lemma HourLabelIsSlotLabel(h: nat)
    ensures HourLabel(h) == TimeSlots.SlotLabel(h, 0)
  {
    TimeSlots.SlotLabelIsPadded(h, 0);
  }

  lemma HourlyRangeSlotLabels(lo: nat, hi: nat)
    requires lo <= hi
    ensures |HourlyRange(lo, hi)| == hi - lo
    ensures forall i :: 0 <= i < hi - lo ==> HourlyRange(lo, hi)[i] == TimeSlots.SlotLabel(lo + i, 0)
  {
    HourlyRangeLabels(lo, hi);
    forall i | 0 <= i < hi - lo ensures HourlyRange(lo, hi)[i] == TimeSlots.SlotLabel(lo + i, 0) {
      HourLabelIsSlotLabel(lo + i);
    }
  }

  /** The grid has nine hours, each the `HH:MM` label of the whole hour;
      unlike the half-hourly catalogue it keeps 13:00 and stops at 17:00. */
  lemma HourlyGridLabels()
    ensures |HourlyGrid()| == 9
    ensures forall i :: 0 <= i < 9 ==> HourlyGrid()[i] == TimeSlots.SlotLabel(9 + i, 0)
  {
    HourlyRangeSlotLabels(9, 18);
  }

  /** The grid is in clock order, hence free of duplicates. */
  lemma HourlyGridOrdered()
    ensures forall i, j :: 0 <= i < j < |HourlyGrid()| ==> LexLess(HourlyGrid()[i], HourlyGrid()[j])
  {
    HourlyGridLabels();
    forall i, j | 0 <= i < j < 9 ensures LexLess(HourlyGrid()[i], HourlyGrid()[j]) {
      TimeSlots.SlotLabelShape(9 + i, 0);
      TimeSlots.SlotLabelShape(9 + j, 0);
      TimeSlots.LabelOrder(TimeSlots.SlotLabel(9 + i, 0), TimeSlots.SlotLabel(9 + j, 0));
    }
  }

  /** `!doctorId || apt.doctorId === parseInt(doctorId)`: with a filter, an
      unassigned appointment never matches, nor does any when the filter is
      not a number. */
  predicate DoctorMatches(a: Appointment, doctorFilter: Option<string>) {
    Falsy(doctorFilter) ||
    (ParseInt(doctorFilter.value).Some? && a.doctorId == ParseInt(doctorFilter.value))
  }

  /** The appointment takes its slot on `date`. */
  predicate Holds(a: Appointment, date: string, doctorFilter: Option<string>) {
    a.preferredDate == date && a.status != "cancelled" && DoctorMatches(a, doctorFilter)
  }

  /** `appointments.filter(holds).map(apt => apt.preferredTime)`: one entry
      per holding appointment, in store order. */
  function BookedTimes(s: seq<Appointment>, date: string, doctorFilter: Option<string>): (r: seq<string>)
    ensures |r| <= |s|
    ensures |r| == |Filter(s, a => Holds(a, date, doctorFilter))|
    ensures forall i :: 0 <= i < |r| ==> r[i] == Filter(s, a => Holds(a, date, doctorFilter))[i].preferredTime
    ensures forall t :: t in r <==> exists a :: a in s && Holds(a, date, doctorFilter) && a.preferredTime == t
  {
    if s == [] then []
    else
      var rest := BookedTimes(s[1..], date, doctorFilter);
      assert forall a :: a in s <==> a == s[0] || a in s[1..];
      if Holds(s[0], date, doctorFilter) then [s[0].preferredTime] + rest else rest
  }

  datatype SlotsReply = SlotsReply(date: string, availableSlots: seq<string>, bookedSlots: seq<string>)

  // ---------------------------------------------------------- listing

  datatype ListReply = ListReply(appointments: seq<Appointment>, total: nat, page: int, totalPages: Option<int>)

  /** `Math.ceil(n / d)`: `None` stands for the `Infinity` or `NaN` of a zero
      page size. */
  function CeilDiv(n: nat, d: int): (r: Option<int>)
    ensures d > 0 ==> r.Some? && (r.value - 1) * d < n <= r.value * d
  {
    if d == 0 then None
    else if d > 0 then Some((n + d - 1) / d)
    else Some(-(n / -d))
  }

  /** The caller's own bookings, and for a doctor those assigned to them. */
  predicate Mine(caller: Caller, a: Appointment) {
    a.patientId == caller.userId || (caller.role == Doctor && a.doctorId == Some(caller.userId))
  }

  /** `status && status !== 'all'` */
  predicate StatusFilterOn(status: Option<string>) {
    !Falsy(status) && status.value != "all"
  }

  function CreatedAt(a: Appointment): int {
    a.createdAt
  }

  function Selected(s: seq<Appointment>, caller: Caller, status: Option<string>): (r: seq<Appointment>)
    ensures forall a :: a in r <==> a in s && Mine(caller, a) && (StatusFilterOn(status) ==> a.status == status.value)
    ensures |r| <= |s|
  {
    var mine := Filter(s, (a: Appointment) => Mine(caller, a));
    if StatusFilterOn(status) then Filter(mine, (a: Appointment) => a.status == status.value) else mine
  }

  /** `GET /my-appointments`: the selection, newest first, one page of it;
      the page defaults to 1 and the page size to 10. */
  function MyAppointments(s: seq<Appointment>, caller: Caller, status: Option<string>,
                          page: Option<int>, limit: Option<int>): (r: ListReply)
    ensures forall a :: a in r.appointments ==> a in s && Mine(caller, a)
    ensures StatusFilterOn(status) ==> forall a :: a in r.appointments ==> a.status == status.value
    ensures r.appointments == Paginate(SortDesc(Selected(s, caller, status), CreatedAt), page.GetOr(1), limit.GetOr(10))
    ensures r.total == |Selected(s, caller, status)| <= |s|
    ensures r.page == page.GetOr(1)
    ensures page.GetOr(1) >= 1 && limit.GetOr(10) >= 0 ==> |r.appointments| <= limit.GetOr(10)
  {
    var selected := Selected(s, caller, status);
    var sorted := SortDesc(selected, CreatedAt);
    var shown := Paginate(sorted, page.GetOr(1), limit.GetOr(10));
    assert forall a :: a in shown ==> a in selected by {
      forall a | a in shown ensures a in selected {
        assert a in multiset(sorted);
      }
    }
    assert page.GetOr(1) >= 1 && limit.GetOr(10) >= 0 ==> |shown| <= limit.GetOr(10) by {
      if page.GetOr(1) >= 1 && limit.GetOr(10) >= 0 {
        PaginateWindow(sorted, page.GetOr(1), limit.GetOr(10));
      }
    }
    ListReply(shown, |selected|, page.GetOr(1), CeilDiv(|selected|, limit.GetOr(10)))
  }

  /** The listing is the selection sorted newest first, nothing lost or
      duplicated, and with a positive page size each selected appointment
      appears on exactly the page its position in that order gives. */
  lemma MyAppointmentsPages(s: seq<Appointment>, caller: Caller, status: Option<string>, limit: int, i: nat)
    requires limit > 0 && i < |Selected(s, caller, status)|
    ensures var selected := Selected(s, caller, status);
      var sorted := SortDesc(selected, CreatedAt);
      var shown := MyAppointments(s, caller, status, Some(i / limit + 1), Some(limit)).appointments;
      && multiset(sorted) == multiset(selected)
      && SortedDesc(sorted, CreatedAt)
      && |sorted| == |selected|
      && i % limit < |shown| && shown[i % limit] == sorted[i]
  {
    SortedPagesCover(Selected(s, caller, status), CreatedAt, limit, i);
  }

  // ------------------------------------------------------------- store

  class AppointmentStore {
    var appointments: seq<Appointment>
    const users: seq<User>
    const therapies: seq<Therapy>

    /** Every id is its position plus one. */
    ghost predicate Valid()
      reads this
    {
      IdsArePositions(appointments, AppointmentId)
    }

    /** The store as the server starts: no appointments yet. */
    constructor(users: seq<User>, therapies: seq<Therapy>)
      ensures this.users == users && this.therapies == therapies
      ensures appointments == []
      ensures Valid()
    {
      this.users := users;
      this.therapies := therapies;
      appointments := [];
    }

    /** `POST /`: book an appointment. The three required fields must be
        present, the therapy must exist; nothing else is checked, in
        particular not whether the slot is taken. */
    method Create(caller: Caller, therapyId: Option<string>, preferredDate: Option<string>,
                  preferredTime: Option<string>, notes: Option<string>, doctorId: Option<int>, now: int)
      returns (r: Response<Appointment>)
      modifies this
      ensures Falsy(therapyId) || Falsy(preferredDate) || Falsy(preferredTime) ==>
        r == Failure(400, RequiredMessage) && appointments == old(appointments)
      ensures (!(Falsy(therapyId) || Falsy(preferredDate) || Falsy(preferredTime)) &&
               FindTherapy(therapies, ParseInt(therapyId.value)).None?) ==>
        r == Failure(404, "Therapy not found") && appointments == old(appointments)
      ensures r.Success? <==>
        !(Falsy(therapyId) || Falsy(preferredDate) || Falsy(preferredTime)) &&
        FindTherapy(therapies, ParseInt(therapyId.value)).Some?
      ensures r.Success? ==>
        && r.code == 201
        && appointments == old(appointments) + [r.value]
        && r.value.id == |old(appointments)| + 1
        && r.value.patientId == caller.userId
        && r.value.therapyId == FindTherapy(therapies, ParseInt(therapyId.value)).value.id
        && r.value.doctorId == DoctorOrNull(doctorId)
        && r.value.preferredDate == preferredDate.value
        && r.value.preferredTime == preferredTime.value
        && r.value.status == "pending"
        && r.value.notes == OrElse(notes, "")
        && r.value.createdAt == now && r.value.updatedAt == now
      ensures old(Valid()) ==> Valid()
    {
      if Falsy(therapyId) || Falsy(preferredDate) || Falsy(preferredTime) {
        return Failure(400, RequiredMessage);
      }
      var therapy := FindTherapy(therapies, ParseInt(therapyId.value));
      if therapy.None? {
        return Failure(404, "Therapy not found");
      }
      var appointment := Appointment(
        |appointments| + 1, caller.userId, ParseInt(therapyId.value).value, DoctorOrNull(doctorId),
        preferredDate.value, preferredTime.value, "pending", OrElse(notes, ""), now, now);
      appointments := appointments + [appointment];
      r := Success(201, appointment);
    }

    /** `PUT /:appointmentId/status`: a patient may touch only their own
        booking, a doctor only one assigned to them or to nobody; any status
        text is accepted, and the old notes stay when none are sent. */
    method UpdateStatus(caller: Caller, appointmentId: string, status: string, notes: Option<string>, now: int)
      returns (r: Response<Appointment>)
      modifies this
      ensures var i := IndexOfId(old(appointments), ParseInt(appointmentId));
        && (i == -1 ==> r == Failure(404, NotFound))
        && (i >= 0 ==>
              var a := old(appointments)[i];
              if (caller.role == Patient && a.patientId != caller.userId)
                 || (caller.role == Doctor && a.doctorId != Some(caller.userId) && a.doctorId != None)
              then r == Failure(403, AccessDenied)
              else r == Success(200, a.(status := status, notes := OrElse(notes, a.notes), updatedAt := now))
                   && appointments == old(appointments)[i := r.value])
        && (r.Failure? ==> appointments == old(appointments))
      ensures old(Valid()) ==> Valid()
    {
      var i := IndexOfId(appointments, ParseInt(appointmentId));
      if i == -1 {
        return Failure(404, NotFound);
      }
      var a := appointments[i];
      if caller.role == Patient && a.patientId != caller.userId {
        return Failure(403, AccessDenied);
      }
      if caller.role == Doctor && a.doctorId != Some(caller.userId) && a.doctorId != None {
        return Failure(403, AccessDenied);
      }
      var updated := a.(status := status, notes := OrElse(notes, a.notes), updatedAt := now);
      appointments := appointments[i := updated];
      r := Success(200, updated);
    }

    /** `PUT /:appointmentId/assign-doctor`: admins only; the appointment
        must exist and the id must name a doctor. The appointment is then
        scheduled with that doctor. */
    method AssignDoctor(caller: Caller, appointmentId: string, doctorId: Option<int>, now: int)
      returns (r: Response<Appointment>)
      modifies this
      ensures caller.role != Admin ==> r == Failure(403, "Admin access required")
      ensures var i := IndexOfId(old(appointments), ParseInt(appointmentId));
        caller.role == Admin ==>
          && (i == -1 ==> r == Failure(404, NotFound))
          && (i >= 0 && FindDoctor(users, doctorId).None? ==> r == Failure(404, "Doctor not found"))
          && (i >= 0 && FindDoctor(users, doctorId).Some? ==>
                r == Success(200, old(appointments)[i].(doctorId := doctorId, status := "scheduled", updatedAt := now))
                && appointments == old(appointments)[i := r.value])
      ensures r.Failure? ==> appointments == old(appointments)
      ensures r.Success? ==> exists u :: u in users && u.role == Doctor && r.value.doctorId == Some(u.id)
      ensures old(Valid()) ==> Valid()
    {
      if caller.role != Admin {
        return Failure(403, "Admin access required");
      }
      var i := IndexOfId(appointments, ParseInt(appointmentId));
      if i == -1 {
        return Failure(404, NotFound);
      }
      var doctor := FindDoctor(users, doctorId);
      if doctor.None? {
        return Failure(404, "Doctor not found");
      }
      var updated := appointments[i].(doctorId := doctorId, status := "scheduled", updatedAt := now);
      appointments := appointments[i := updated];
      r := Success(200, updated);
    }

    /** `DELETE /:appointmentId`: a soft delete. The record stays and only
        its status and update time change; a patient may cancel only their
        own booking. */
    method Cancel(caller: Caller, appointmentId: string, now: int) returns (r: Response<string>)
      modifies this
      ensures var i := IndexOfId(old(appointments), ParseInt(appointmentId));
        && (i == -1 ==> r == Failure(404, NotFound))
        && (i >= 0 && caller.role == Patient && old(appointments)[i].patientId != caller.userId ==>
              r == Failure(403, AccessDenied))
        && (i >= 0 && !(caller.role == Patient && old(appointments)[i].patientId != caller.userId) ==>
              r == Success(200, "Appointment cancelled successfully")
              && appointments == old(appointments)[i := old(appointments)[i].(status := "cancelled", updatedAt := now)])
      ensures |appointments| == |old(appointments)|
      ensures r.Failure? ==> appointments == old(appointments)
      ensures old(Valid()) ==> Valid()
    {
      var i := IndexOfId(appointments, ParseInt(appointmentId));
      if i == -1 {
        return Failure(404, NotFound);
      }
      var a := appointments[i];
      if caller.role == Patient && a.patientId != caller.userId {
        return Failure(403, AccessDenied);
      }
      appointments := appointments[i := a.(status := "cancelled", updatedAt := now)];
      r := Success(200, "Appointment cancelled successfully");
    }

    /** `GET /available-slots`: the hours of the grid that no appointment
        holds on that day (for that doctor, when one is named). */
    method AvailableSlots(date: Option<string>, doctorId: Option<string>) returns (r: Response<SlotsReply>)
      ensures Falsy(date) ==> r == Failure(400, "Date is required")
      ensures !Falsy(date) ==>
        && r.Success? && r.code == 200
        && r.value.date == date.value
        && r.value.bookedSlots == BookedTimes(appointments, date.value, doctorId)
        && r.value.availableSlots == Filter(HourlyGrid(), slot => slot !in r.value.bookedSlots)
      ensures r.Success? ==> forall a :: a in appointments && Holds(a, r.value.date, doctorId) ==>
        a.preferredTime !in r.value.availableSlots
      ensures r.Success? ==> forall slot :: slot in r.value.availableSlots <==>
        slot in HourlyGrid() && forall a :: a in appointments && Holds(a, r.value.date, doctorId) ==> a.preferredTime != slot
    {
      if Falsy(date) {
        return Failure(400, "Date is required");
      }
      var bookedSlots := BookedTimes(appointments, date.value, doctorId);
      var allSlots := HourlySlots();
      var availableSlots := Filter(allSlots, slot => slot !in bookedSlots);
      r := Success(200, SlotsReply(date.value, availableSlots, bookedSlots));
    }
  }

  // ------------------------------------------------------ scenarios

  /** Booking performs no conflict check: two patients asking for the same
      therapy, day, hour and doctor are both booked, one after the other. */
  method DoubleBooking(store: AppointmentStore, p1: Caller, p2: Caller, therapyId: string,
                       date: string, time: string, doctorId: int, now: int)
    returns (first: Response<Appointment>, second: Response<Appointment>)
    requires therapyId != "" && date != "" && time != "" && doctorId != 0
    requires FindTherapy(store.therapies, ParseInt(therapyId)).Some?
    modifies store
    ensures first.Success? && second.Success?
    ensures first.value.preferredDate == second.value.preferredDate == date
    ensures first.value.preferredTime == second.value.preferredTime == time
    ensures first.value.doctorId == second.value.doctorId == Some(doctorId)
    ensures first.value.status == second.value.status == "pending"
    ensures store.appointments == old(store.appointments) + [first.value, second.value]
  {
    first := store.Create(p1, Some(therapyId), Some(date), Some(time), None, Some(doctorId), now);
    second := store.Create(p2, Some(therapyId), Some(date), Some(time), None, Some(doctorId), now);
  }

  // ------------------------------------------------ the routes file as written

  datatype Route = Book | ListMine | SetStatus | AssignRoute | CancelRoute | FreeSlots

  /** The status code each handler answers with as the routes file is
      written: it never binds `appointments`, `therapies` or `users`, so the
      first use of one of them throws and the `catch` block answers 500. Only
      the guards placed before that use still answer. */
  function AsWrittenCode(route: Route, caller: Caller, therapyId: Option<string>, preferredDate: Option<string>,
                         preferredTime: Option<string>, date: Option<string>): (code: nat)
    ensures code >= 400
    ensures route == Book ==>
      (code == 400 <==> Falsy(therapyId) || Falsy(preferredDate) || Falsy(preferredTime))
    ensures route == AssignRoute ==> (code == 403 <==> caller.role != Admin)
    ensures route == FreeSlots ==> (code == 400 <==> Falsy(date))
    ensures route in {ListMine, SetStatus, CancelRoute} ==> code == 500
  {
    match route
    case Book => if Falsy(therapyId) || Falsy(preferredDate) || Falsy(preferredTime) then 400 else 500
    case AssignRoute => if caller.role != Admin then 403 else 500
    case FreeSlots => if Falsy(date) then 400 else 500
    case _ => 500
  }

  /** A complete booking request for a listed therapy: as written the server
      answers 500, where `AppointmentStore.Create` books it (201). */
  lemma AsWrittenNeverBooks(caller: Caller, therapyId: string, date: string, time: string)
    requires therapyId != "" && date != "" && time != ""
    ensures AsWrittenCode(Book, caller, Some(therapyId), Some(date), Some(time), None) == 500
    ensures forall r :: AsWrittenCode(r, caller, Some(therapyId), Some(date), Some(time), Some(date)) != 200
  {
  }
}
