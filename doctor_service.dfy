/** `DoctorService`: doctor profiles linked to user accounts, with availability
    as the soft-delete flag. */
module Doctors {
  import opened Common
  import Users

  /** One `doctors` row; `registrationNo` is a unique column. */
  datatype Doctor = Doctor(
    id: int,
    userId: int,
    specialization: string,
    registrationNo: string,
    isAvailable: bool)

  /** `DoctorRequest`. */
  datatype DoctorRequest = DoctorRequest(userId: int, specialization: string, registrationNo: string)

  predicate RegistrationTaken(doctors: map<int, Doctor>, registrationNo: string)
  {
    exists k :: k in doctors && doctors[k].registrationNo == registrationNo
  }

  predicate RegistrationNosUnique(doctors: map<int, Doctor>)
  {
    forall a, b :: a in doctors && b in doctors && a != b ==> doctors[a].registrationNo != doctors[b].registrationNo
  }

  /** Soft delete and update change only the flag and the specialization, so the
      registration numbers, and their uniqueness, are untouched. */
  lemma {:induction false} EditKeepsRegistrationsUnique(doctors: map<int, Doctor>, id: int,
                                                        specialization: string, available: bool)
    requires id in doctors && RegistrationNosUnique(doctors)
    ensures RegistrationNosUnique(doctors[id := doctors[id].(specialization := specialization, isAvailable := available)])
  {
  }

  class DoctorService {
    var doctors: map<int, Doctor>
    var nextId: int
    const users: Users.UserService

    ghost predicate Valid()
      reads this
    {
      nextId >= 1
      && (forall k :: k in doctors ==> 1 <= k < nextId && doctors[k].id == k)
      && RegistrationNosUnique(doctors)
    }

    constructor (users: Users.UserService)
      ensures Valid() && doctors == map[] && this.users == users
    {
      doctors := map[];
      nextId := 1;
      this.users := users;
    }

    /** `registerDoctor`. The user's role becomes DOCTOR before the doctor row is
        saved, so a registration number already on file fails the save yet
        leaves the role change in place. */
    method RegisterDoctor(req: DoctorRequest) returns (r: Result<Doctor>)
      requires Valid() && users.Valid()
      modifies this, users
      ensures Valid() && users.Valid() && users.nextId == old(users.nextId)
      ensures req.userId !in old(users.users) ==>
        r == Err(UserNotFound) && users.users == old(users.users) && doctors == old(doctors)
      ensures req.userId in old(users.users) ==>
        users.users == old(users.users)[req.userId := old(users.users)[req.userId].(role := Users.Doctor)]
      ensures req.userId in old(users.users) && old(RegistrationTaken(doctors, req.registrationNo)) ==>
        r == Err(DuplicateKey) && doctors == old(doctors) && nextId == old(nextId)
      ensures r.Ok? ==>
        r.value == Doctor(old(nextId), req.userId, req.specialization, req.registrationNo, true)
        && doctors == old(doctors)[old(nextId) := r.value] && nextId == old(nextId) + 1
      ensures r.Ok? <==> req.userId in old(users.users) && !old(RegistrationTaken(doctors, req.registrationNo))
    {
      var user := users.GetUserById(req.userId);
      if user.Err? {
        return Err(user.failure);
      }
      var changed := users.ChangeUserRole(req.userId, Users.Doctor);
      if RegistrationTaken(doctors, req.registrationNo) {
        return Err(DuplicateKey);
      }
      var d := Doctor(nextId, req.userId, req.specialization, req.registrationNo, true);
      doctors := doctors[nextId := d];
      nextId := nextId + 1;
      r := Ok(d);
    }

    /** `getAvailableDoctors` (`findByIsAvailableTrue`). */
    function GetAvailableDoctors(): (r: map<int, Doctor>)
      reads this
      ensures forall k :: k in r <==> k in doctors && doctors[k].isAvailable
      ensures forall k :: k in r ==> r[k] == doctors[k]
    {
      Select(doctors, (d: Doctor) => d.isAvailable)
    }

    /** `getDoctorById`: "Doctor not found" for an unknown id. */
    function GetDoctorById(id: int): (r: Result<Doctor>)
      reads this
      ensures r.Ok? <==> id in doctors
      ensures r.Ok? ==> r.value == doctors[id]
      ensures r.Err? ==> r.failure == DoctorNotFound
    {
      if id in doctors then Ok(doctors[id]) else Err(DoctorNotFound)
    }

    /** `updateDoctor`: overwrites the specialization and the availability only. */
    method UpdateDoctor(id: int, specialization: string, isAvailable: bool) returns (r: Result<Doctor>)
      requires Valid()
      modifies this
      ensures Valid() && nextId == old(nextId)
      ensures id !in old(doctors) ==> r == Err(DoctorNotFound) && doctors == old(doctors)
      ensures id in old(doctors) ==>
        r == Ok(old(doctors)[id].(specialization := specialization, isAvailable := isAvailable))
        && doctors == old(doctors)[id := r.value]
    {
      var found := GetDoctorById(id);
      if found.Err? {
        return Err(found.failure);
      }
      EditKeepsRegistrationsUnique(doctors, id, specialization, isAvailable);
      var d := found.value.(specialization := specialization, isAvailable := isAvailable);
      doctors := doctors[id := d];
      r := Ok(d);
    }

    /** `deleteDoctor`: a soft delete, the doctor stays on file but unavailable. */
    method DeleteDoctor(id: int) returns (r: Result<()>)
      requires Valid()
      modifies this
      ensures Valid() && nextId == old(nextId)
      ensures id !in old(doctors) ==> r == Err(DoctorNotFound) && doctors == old(doctors)
      ensures id in old(doctors) ==>
        r == Ok(()) && doctors == old(doctors)[id := old(doctors)[id].(isAvailable := false)]
      ensures id in old(doctors) ==> id !in GetAvailableDoctors()
    {
      var found := GetDoctorById(id);
      if found.Err? {
        return Err(found.failure);
      }
      EditKeepsRegistrationsUnique(doctors, id, found.value.specialization, false);
      doctors := doctors[id := found.value.(isAvailable := false)];
      r := Ok(());
    }
  }
}
