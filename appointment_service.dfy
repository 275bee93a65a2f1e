/** `AppointmentService`: a policy holder books a doctor's time slot; the
    doctor moves the appointment through its statuses. */
module Appointments {
  import opened Common
  import opened Calendar
  import opened AuditLogs
  import Users
  import Doctors
  import PolicyHolders

  datatype AppointmentStatus =
    | Pending | Scheduled | Confirmed | Completed | Cancelled | Rejected | NoShow

  /** The enum constant's name, as string concatenation prints it. */
  function StatusName(s: AppointmentStatus): string
  {
    match s
    case Pending => "PENDING"
    case Scheduled => "SCHEDULED"
    case Confirmed => "CONFIRMED"
    case Completed => "COMPLETED"
    case Cancelled => "CANCELLED"
    case Rejected => "REJECTED"
    case NoShow => "NO_SHOW"
  }

  /** One `appointments` row. `appointmentTime` is the time of day (a
      `LocalTime`, compared only for equality); `createdAt` is the instant the
      row was built. */
  datatype Appointment = Appointment(
    id: int,
    policyHolderId: int,
    doctorId: int,
    appointmentDate: Date,
    appointmentTime: int,
    status: AppointmentStatus,
    reason: string,
    notes: Option<string>,
    rejectionReason: Option<string>,
    createdAt: int)

  /** `AppointmentRequest`. */
  datatype AppointmentRequest = AppointmentRequest(
    doctorId: int,
    appointmentDate: Date,
    appointmentTime: int,
    reason: string,
    notes: Option<string>)

  /** Some stored appointment of the doctor, on that date, at that time, in
      any status: a cancelled or rejected appointment still holds its slot. */
  predicate SlotTaken(appointments: map<int, Appointment>, doctorId: int, date: Date, time: int)
  {
    exists k :: k in appointments && appointments[k].doctorId == doctorId
      && appointments[k].appointmentDate == date && appointments[k].appointmentTime == time
  }

  /** No two stored appointments share doctor, date and time. */
  predicate NoDoubleBooking(appointments: map<int, Appointment>)
  {
    forall a, b :: a in appointments && b in appointments && a != b ==>
      !(appointments[a].doctorId == appointments[b].doctorId
        && appointments[a].appointmentDate == appointments[b].appointmentDate
        && appointments[a].appointmentTime == appointments[b].appointmentTime)
  }

  /** Storing an appointment whose slot is free, under a new id, keeps every
      slot booked at most once. */
  lemma {:induction false} BookingKeepsNoDoubleBooking(appointments: map<int, Appointment>, id: int, a: Appointment)
    requires NoDoubleBooking(appointments) && id !in appointments
    requires !SlotTaken(appointments, a.doctorId, a.appointmentDate, a.appointmentTime)
    ensures NoDoubleBooking(appointments[id := a])
  {
    var m := appointments[id := a];
    forall x, y | x in m && y in m && x != y
      ensures !(m[x].doctorId == m[y].doctorId && m[x].appointmentDate == m[y].appointmentDate
                && m[x].appointmentTime == m[y].appointmentTime)
    {
      if x == id {
        assert y in appointments;
      } else if y == id {
        assert x in appointments;
      }
    }
  }

  /** A status change keeps the doctor, date and time, so it keeps every slot
      booked at most once. */
  lemma {:induction false} StatusChangeKeepsNoDoubleBooking(appointments: map<int, Appointment>, id: int,
                                                            status: AppointmentStatus)
    requires NoDoubleBooking(appointments) && id in appointments
    ensures NoDoubleBooking(appointments[id := appointments[id].(status := status)])
  {
    var m := appointments[id := appointments[id].(status := status)];
    forall x, y | x in m && y in m && x != y
      ensures !(m[x].doctorId == m[y].doctorId && m[x].appointmentDate == m[y].appointmentDate
                && m[x].appointmentTime == m[y].appointmentTime)
    {
      assert x in appointments && y in appointments;
    }
  }

  /** A booked slot stays taken whatever happens to the appointment's status:
      cancelling does not free it for a second booking. */
  lemma {:induction false} CancelledSlotStaysTaken(appointments: map<int, Appointment>, id: int,
                                                   status: AppointmentStatus)
    requires id in appointments
    ensures (var a := appointments[id];
             SlotTaken(appointments[id := a.(status := status)], a.doctorId, a.appointmentDate, a.appointmentTime))
  {
    var a := appointments[id];
    var m := appointments[id := a.(status := status)];
    assert id in m && m[id].doctorId == a.doctorId;
  }

  class AppointmentService {
    var appointments: map<int, Appointment>
    var nextId: int
    const holders: PolicyHolders.PolicyHolderService
    const doctors: Doctors.DoctorService
    const audit: AuditLogService

    ghost predicate Valid()
      reads this
    {
      nextId >= 1
      && (forall k :: k in appointments ==> 1 <= k < nextId && appointments[k].id == k)
      && NoDoubleBooking(appointments)
    }

    constructor (holders: PolicyHolders.PolicyHolderService, doctors: Doctors.DoctorService,
                 audit: AuditLogService)
      ensures Valid() && appointments == map[]
      ensures this.holders == holders && this.doctors == doctors && this.audit == audit
    {
      appointments := map[];
      nextId := 1;
      this.holders := holders;
      this.doctors := doctors;
      this.audit := audit;
    }

    /** Whether `bookAppointment` accepts: the holder and the doctor exist,
        the doctor is available and the slot is free. */
    predicate MayBook(holderId: int, req: AppointmentRequest)
      reads this, holders, doctors
      ensures MayBook(holderId, req) ==>
        req.doctorId in doctors.doctors && doctors.doctors[req.doctorId].isAvailable
        && forall k :: (k in appointments && appointments[k].doctorId == req.doctorId
                        && appointments[k].appointmentDate == req.appointmentDate)
                       ==> appointments[k].appointmentTime != req.appointmentTime
    {
      holderId in holders.holders && req.doctorId in doctors.doctors
      && doctors.doctors[req.doctorId].isAvailable
      && !SlotTaken(appointments, req.doctorId, req.appointmentDate, req.appointmentTime)
    }

    /** `bookAppointment`. Holder, then doctor, then availability, then the
        slot; an accepted booking is stored as SCHEDULED and one CREATE entry
        by the holder's e-mail names the doctor. */
    method BookAppointment(holderId: int, req: AppointmentRequest, now: int) returns (r: Result<Appointment>)
      requires Valid() && audit.Valid()
      modifies this, audit
      ensures Valid() && audit.Valid()
      ensures r.Ok? <==> old(MayBook(holderId, req))
      ensures holderId !in holders.holders ==> r == Err(HolderNotFound)
      ensures holderId in holders.holders && req.doctorId !in doctors.doctors ==> r == Err(DoctorNotFound)
      ensures ((holderId in holders.holders && req.doctorId in doctors.doctors
                && !doctors.doctors[req.doctorId].isAvailable) ==> r == Err(DoctorNotAvailable))
      ensures ((holderId in holders.holders && req.doctorId in doctors.doctors
                && doctors.doctors[req.doctorId].isAvailable
                && old(SlotTaken(appointments, req.doctorId, req.appointmentDate, req.appointmentTime)))
               ==> r == Err(SlotAlreadyBooked))
      ensures (r.Err? ==> appointments == old(appointments) && nextId == old(nextId)
                          && audit.entries == old(audit.entries))
      ensures (r.Ok? ==>
        r.value == Appointment(old(nextId), holderId, req.doctorId, req.appointmentDate, req.appointmentTime,
                               Scheduled, req.reason, req.notes, None, now)
        && appointments == old(appointments)[old(nextId) := r.value] && nextId == old(nextId) + 1
        && audit.entries == old(audit.entries)
             + [AuditLog(|old(audit.entries)| + 1, AppointmentEntity, r.value.id, Create,
                         Users.EmailOf(holders.users.users, holders.holders[holderId].userId), now,
                         AppointmentBooked(Users.FullNameOf(doctors.users.users,
                                                            doctors.doctors[req.doctorId].userId)))])
    {
      var holder := holders.GetPolicyHolderById(holderId);
      if holder.Err? {
        return Err(holder.failure);
      }
      var doctor := doctors.GetDoctorById(req.doctorId);
      if doctor.Err? {
        return Err(doctor.failure);
      }
      if !doctor.value.isAvailable {
        return Err(DoctorNotAvailable);
      }
      if SlotTaken(appointments, req.doctorId, req.appointmentDate, req.appointmentTime) {
        return Err(SlotAlreadyBooked);
      }
      var a := Appointment(nextId, holderId, req.doctorId, req.appointmentDate, req.appointmentTime,
                           Scheduled, req.reason, req.notes, None, now);
      BookingKeepsNoDoubleBooking(appointments, nextId, a);
      appointments := appointments[nextId := a];
      nextId := nextId + 1;
      audit.LogAction(AppointmentEntity, a.id, Create, Users.EmailOf(holders.users.users, holder.value.userId),
                      AppointmentBooked(Users.FullNameOf(doctors.users.users, doctor.value.userId)), now);
      r := Ok(a);
    }

    /** `getAppointmentsByDoctor`: an unknown doctor fails, otherwise that
        doctor's appointments. */
    function GetAppointmentsByDoctor(doctorId: int): (r: Result<map<int, Appointment>>)
      reads this, doctors
      ensures r.Err? <==> doctorId !in doctors.doctors
      ensures r.Err? ==> r.failure == DoctorNotFound
      ensures r.Ok? ==> forall k :: k in r.value <==> k in appointments && appointments[k].doctorId == doctorId
      ensures r.Ok? ==> forall k :: k in r.value ==> r.value[k] == appointments[k]
    {
      var doctor := doctors.GetDoctorById(doctorId);
      if doctor.Err? then Err(doctor.failure)
      else Ok(Select(appointments, (a: Appointment) => a.doctorId == doctorId))
    }

    /** `getAppointmentsByPolicyHolder`: an unknown holder fails, otherwise
        that holder's appointments. */
    function GetAppointmentsByPolicyHolder(holderId: int): (r: Result<map<int, Appointment>>)
      reads this, holders
      ensures r.Err? <==> holderId !in holders.holders
      ensures r.Err? ==> r.failure == HolderNotFound
      ensures (r.Ok? ==> forall k :: k in r.value <==>
                 k in appointments && appointments[k].policyHolderId == holderId)
      ensures r.Ok? ==> forall k :: k in r.value ==> r.value[k] == appointments[k]
    {
      var holder := holders.GetPolicyHolderById(holderId);
      if holder.Err? then Err(holder.failure)
      else Ok(Select(appointments, (a: Appointment) => a.policyHolderId == holderId))
    }

    /** `getAppointmentsByStatus`: exactly the appointments in that status. */
    function GetAppointmentsByStatus(status: AppointmentStatus): (r: map<int, Appointment>)
      reads this
      ensures forall k :: k in r <==> k in appointments && appointments[k].status == status
      ensures forall k :: k in r ==> r[k] == appointments[k]
    {
      Select(appointments, (a: Appointment) => a.status == status)
    }

    /** `getAppointmentById`: "Appointment not found" for an unknown id. */
    function GetAppointmentById(id: int): (r: Result<Appointment>)
      reads this
      ensures r.Ok? <==> id in appointments
      ensures r.Ok? ==> r.value == appointments[id]
      ensures r.Err? ==> r.failure == AppointmentNotFound
    {
      if id in appointments then Ok(appointments[id]) else Err(AppointmentNotFound)
    }

    /** `updateAppointmentStatus`: overwrites the status, from any status to
        any status, changes nothing else and logs one UPDATE by the doctor. */
    method UpdateAppointmentStatus(id: int, status: AppointmentStatus, now: int) returns (r: Result<Appointment>)
      requires Valid() && audit.Valid()
      modifies this, audit
      ensures Valid() && audit.Valid() && nextId == old(nextId)
      ensures r.Err? <==> id !in old(appointments)
      ensures (r.Err? ==> r.failure == AppointmentNotFound && appointments == old(appointments)
                          && audit.entries == old(audit.entries))
      ensures (r.Ok? ==>
        r.value == old(appointments)[id].(status := status)
        && appointments == old(appointments)[id := r.value]
        && audit.entries == old(audit.entries)
             + [AuditLog(|old(audit.entries)| + 1, AppointmentEntity, id, Update, "DOCTOR", now,
                         AppointmentStatusUpdated(StatusName(status)))])
    {
      var found := GetAppointmentById(id);
      if found.Err? {
        return Err(found.failure);
      }
      var a := found.value.(status := status);
      StatusChangeKeepsNoDoubleBooking(appointments, id, status);
      appointments := appointments[id := a];
      audit.LogAction(AppointmentEntity, id, Update, "DOCTOR", AppointmentStatusUpdated(StatusName(status)), now);
      r := Ok(a);
    }

    /** `getTodayAppointments`: an unknown doctor fails, otherwise exactly
        that doctor's appointments dated `today` (the clock's date). */
    function GetTodayAppointments(doctorId: int, today: Date): (r: Result<map<int, Appointment>>)
      reads this, doctors
      ensures r.Err? <==> doctorId !in doctors.doctors
      ensures r.Err? ==> r.failure == DoctorNotFound
      ensures (r.Ok? ==> forall k :: k in r.value <==>
                 k in appointments && appointments[k].doctorId == doctorId
                 && appointments[k].appointmentDate == today)
      ensures r.Ok? ==> forall k :: k in r.value ==> r.value[k] == appointments[k]
    {
      var doctor := doctors.GetDoctorById(doctorId);
      if doctor.Err? then Err(doctor.failure)
      else Ok(Select(appointments, (a: Appointment) => a.doctorId == doctorId && a.appointmentDate == today))
    }
  }

  /** Today's list is the doctor's slots of that date: it never holds two
      appointments at the same time. */
  lemma {:induction false} TodayHasDistinctTimes(appointments: map<int, Appointment>, doctorId: int, today: Date,
                                                 x: int, y: int)
    requires NoDoubleBooking(appointments)
    requires x in appointments && y in appointments && x != y
    requires appointments[x].doctorId == doctorId && appointments[x].appointmentDate == today
    requires appointments[y].doctorId == doctorId && appointments[y].appointmentDate == today
    ensures appointments[x].appointmentTime != appointments[y].appointmentTime
  {
  }
}
