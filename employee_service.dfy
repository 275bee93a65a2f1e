/** `EmployeeService`: staff records with unique e-mail, phone number and
    employee id, partial updates and an active flag. */
module Employees {
  import opened Common
  import opened Calendar
  import Users

  /** One `employees` row. `role` is the name of the role constant the
      request carried, absent when none was given. */
  datatype Employee = Employee(
    id: int,
    username: string,
    email: string,
    password: Users.Secret,
    firstName: string,
    lastName: string,
    phoneNumber: Option<string>,
    employeeId: string,
    department: Option<string>,
    hireDate: Option<Date>,
    role: Option<string>,
    active: bool)

  /** `EmployeeCreateRequest`. */
  datatype CreateRequest = CreateRequest(
    username: string,
    email: string,
    password: string,
    firstName: string,
    lastName: string,
    phoneNumber: Option<string>,
    employeeId: string,
    department: Option<string>,
    hireDate: Option<Date>,
    role: Option<string>)

  /** `EmployeeUpdateRequest`: `None` is a field left null. */
  datatype UpdateRequest = UpdateRequest(
    username: Option<string>,
    email: Option<string>,
    firstName: Option<string>,
    lastName: Option<string>,
    phoneNumber: Option<string>,
    employeeId: Option<string>,
    department: Option<string>,
    hireDate: Option<Date>,
    role: Option<string>,
    active: Option<bool>)

  predicate EmailTaken(employees: map<int, Employee>, email: string)
  {
    exists k :: k in employees && employees[k].email == email
  }

  predicate PhoneTaken(employees: map<int, Employee>, phone: string)
  {
    exists k :: k in employees && employees[k].phoneNumber == Some(phone)
  }

  predicate EmployeeIdTaken(employees: map<int, Employee>, employeeId: string)
  {
    exists k :: k in employees && employees[k].employeeId == employeeId
  }

  /** Whether a row other than `id` already carries `employeeId`. */
  predicate EmployeeIdTakenByOther(employees: map<int, Employee>, id: int, employeeId: string)
  {
    exists k :: k in employees && k != id && employees[k].employeeId == employeeId
  }

  predicate EmailsUnique(employees: map<int, Employee>)
  {
    forall a, b :: a in employees && b in employees && a != b ==> employees[a].email != employees[b].email
  }

  /** Non-empty phone numbers are unique; absent and empty ones may repeat. */
  predicate PhonesUnique(employees: map<int, Employee>)
  {
    forall a, b ::
      (a in employees && b in employees && a != b && employees[a].phoneNumber.Some?
       && employees[a].phoneNumber.value != "") ==> employees[a].phoneNumber != employees[b].phoneNumber
  }

  /** The `employee_id` column is unique. */
  predicate EmployeeIdsUnique(employees: map<int, Employee>)
  {
    forall a, b :: a in employees && b in employees && a != b ==> employees[a].employeeId != employees[b].employeeId
  }

  predicate AllUnique(employees: map<int, Employee>)
  {
    EmailsUnique(employees) && PhonesUnique(employees) && EmployeeIdsUnique(employees)
  }

  /** Why `createEmployee` refuses, in the order it checks: a taken e-mail, a
      taken non-empty phone number, a taken employee id. */
  function CreateRefusal(employees: map<int, Employee>, req: CreateRequest): (r: Option<Failure>)
    ensures r == None <==>
      !EmailTaken(employees, req.email)
      && !(req.phoneNumber.Some? && req.phoneNumber.value != "" && PhoneTaken(employees, req.phoneNumber.value))
      && !EmployeeIdTaken(employees, req.employeeId)
    ensures EmailTaken(employees, req.email) ==> r == Some(EmailExists)
  {
    if EmailTaken(employees, req.email) then Some(EmailExists)
    else if req.phoneNumber.Some? && req.phoneNumber.value != "" && PhoneTaken(employees, req.phoneNumber.value)
    then Some(PhoneExists)
    else if EmployeeIdTaken(employees, req.employeeId) then Some(EmployeeIdExists)
    else None
  }

  /** The row a create request becomes: active, password encoded. */
  function NewEmployee(id: int, req: CreateRequest): Employee
  {
    Employee(id, req.username, req.email, Users.Encoded(req.password), req.firstName, req.lastName,
             req.phoneNumber, req.employeeId, req.department, req.hireDate, req.role, true)
  }

  /** The request's value where it has one, the stored one where it is null. */
  function Pick<T>(given: Option<T>, stored: T): (r: T)
    ensures given.Some? ==> r == given.value
    ensures given.None? ==> r == stored
  {
    if given.Some? then given.value else stored
  }

  /** The field copy of `updateEmployee`: each non-null request field
      overwrites the stored one, each null one leaves it. */
  function Merge(e: Employee, req: UpdateRequest): (r: Employee)
    ensures r.id == e.id && r.password == e.password
    ensures r.email == Pick(req.email, e.email) && r.employeeId == Pick(req.employeeId, e.employeeId)
    ensures r.phoneNumber == (if req.phoneNumber.Some? then req.phoneNumber else e.phoneNumber)
    ensures r.username == Pick(req.username, e.username)
    ensures r.firstName == Pick(req.firstName, e.firstName) && r.lastName == Pick(req.lastName, e.lastName)
    ensures r.department == (if req.department.Some? then req.department else e.department)
    ensures r.hireDate == (if req.hireDate.Some? then req.hireDate else e.hireDate)
    ensures r.role == (if req.role.Some? then req.role else e.role)
    ensures r.active == Pick(req.active, e.active)
  {
    e.(username := Pick(req.username, e.username),
       email := Pick(req.email, e.email),
       firstName := Pick(req.firstName, e.firstName),
       lastName := Pick(req.lastName, e.lastName),
       phoneNumber := if req.phoneNumber.Some? then req.phoneNumber else e.phoneNumber,
       employeeId := Pick(req.employeeId, e.employeeId),
       department := if req.department.Some? then req.department else e.department,
       hireDate := if req.hireDate.Some? then req.hireDate else e.hireDate,
       role := if req.role.Some? then req.role else e.role,
       active := Pick(req.active, e.active))
  }

  const NoChanges := UpdateRequest(None, None, None, None, None, None, None, None, None, None)

  /** An update with every field null changes nothing, and an update applied
      twice is the update applied once. */
  lemma {:induction false} MergeLaws(e: Employee, req: UpdateRequest)
    ensures Merge(e, NoChanges) == e
    ensures Merge(Merge(e, req), req) == Merge(e, req)
  {
  }

  /** Why `updateEmployee` refuses an existing row: a changed e-mail already
      on file, then a changed non-empty phone number already on file; and,
      at the save, an employee id another row holds. */
  function UpdateRefusal(employees: map<int, Employee>, id: int, req: UpdateRequest): (r: Option<Failure>)
    requires id in employees
    ensures r == None <==>
      (req.email.Some? && req.email.value != employees[id].email ==> !EmailTaken(employees, req.email.value))
      && (req.phoneNumber.Some? && req.phoneNumber != employees[id].phoneNumber && req.phoneNumber.value != ""
          ==> !PhoneTaken(employees, req.phoneNumber.value))
      && !EmployeeIdTakenByOther(employees, id, Merge(employees[id], req).employeeId)
    ensures r == Some(EmailExists) <==>
      req.email.Some? && req.email.value != employees[id].email && EmailTaken(employees, req.email.value)
  {
    var e := employees[id];
    if req.email.Some? && req.email.value != e.email && EmailTaken(employees, req.email.value) then
      Some(EmailExists)
    else if (req.phoneNumber.Some? && req.phoneNumber != e.phoneNumber && req.phoneNumber.value != ""
             && PhoneTaken(employees, req.phoneNumber.value)) then
      Some(PhoneExists)
    else if EmployeeIdTakenByOther(employees, id, Merge(e, req).employeeId) then
      Some(DuplicateKey)
    else None
  }

  /** An accepted create keeps e-mails, non-empty phones and employee ids unique. */
  lemma {:induction false} CreateKeepsUnique(employees: map<int, Employee>, id: int, req: CreateRequest)
    requires AllUnique(employees) && id !in employees && CreateRefusal(employees, req) == None
    ensures AllUnique(employees[id := NewEmployee(id, req)])
  {
    var m := employees[id := NewEmployee(id, req)];
    forall a, b | a in m && b in m && a != b
      ensures m[a].email != m[b].email && m[a].employeeId != m[b].employeeId
      ensures m[a].phoneNumber.Some? && m[a].phoneNumber.value != "" ==> m[a].phoneNumber != m[b].phoneNumber
    {
      if a == id {
        assert b in employees;
      } else if b == id {
        assert a in employees;
      }
    }
  }

  /** An accepted update keeps e-mails, non-empty phones and employee ids
      unique: the service's own checks cover the first two, the column
      constraint the third. */
  lemma {:induction false} UpdateKeepsUnique(employees: map<int, Employee>, id: int, req: UpdateRequest)
    requires AllUnique(employees) && id in employees && UpdateRefusal(employees, id, req) == None
    ensures AllUnique(employees[id := Merge(employees[id], req)])
  {
    var e := employees[id];
    var u := Merge(e, req);
    var m := employees[id := u];
    forall a, b | a in m && b in m && a != b
      ensures m[a].email != m[b].email && m[a].employeeId != m[b].employeeId
      ensures m[a].phoneNumber.Some? && m[a].phoneNumber.value != "" ==> m[a].phoneNumber != m[b].phoneNumber
    {
      if a == id {
        assert b in employees && m[b] == employees[b];
      } else if b == id {
        assert a in employees && m[a] == employees[a];
      }
    }
  }

  class EmployeeService {
    var employees: map<int, Employee>
    var nextId: int

    ghost predicate Valid()
      reads this
    {
      nextId >= 1
      && (forall k :: k in employees ==> 1 <= k < nextId && employees[k].id == k)
      && AllUnique(employees)
    }

    constructor ()
      ensures Valid() && employees == map[]
    {
      employees := map[];
      nextId := 1;
    }

    /** `createEmployee`: refused for a taken e-mail, non-empty phone number
        or employee id; otherwise an active row with the request's fields. */
    method CreateEmployee(req: CreateRequest) returns (r: Result<Employee>)
      requires Valid()
      modifies this
      ensures Valid()
      ensures (r.Err? <==> CreateRefusal(old(employees), req).Some?)
      ensures (r.Err? ==> r.failure == CreateRefusal(old(employees), req).value
                          && employees == old(employees) && nextId == old(nextId))
      ensures (r.Ok? ==> r.value == NewEmployee(old(nextId), req) && r.value.active
                         && employees == old(employees)[old(nextId) := r.value] && nextId == old(nextId) + 1)
    {
      var refusal := CreateRefusal(employees, req);
      if refusal.Some? {
        return Err(refusal.value);
      }
      var e := NewEmployee(nextId, req);
      CreateKeepsUnique(employees, nextId, req);
      employees := employees[nextId := e];
      nextId := nextId + 1;
      r := Ok(e);
    }

    /** `updateEmployee`: nothing for an unknown id; a refusal leaves the
        table as it was; otherwise the row becomes its merge with the request. */
    method UpdateEmployee(id: int, req: UpdateRequest) returns (r: Result<Option<Employee>>)
      requires Valid()
      modifies this
      ensures Valid() && nextId == old(nextId)
      ensures id !in old(employees) ==> r == Ok(None) && employees == old(employees)
      ensures (id in old(employees) && UpdateRefusal(old(employees), id, req).Some? ==>
                 r == Err(UpdateRefusal(old(employees), id, req).value) && employees == old(employees))
      ensures (id in old(employees) && UpdateRefusal(old(employees), id, req).None? ==>
                 r == Ok(Some(Merge(old(employees)[id], req)))
                 && employees == old(employees)[id := Merge(old(employees)[id], req)])
    {
      if id !in employees {
        return Ok(None);
      }
      var refusal := UpdateRefusal(employees, id, req);
      if refusal.Some? {
        return Err(refusal.value);
      }
      var u := Merge(employees[id], req);
      UpdateKeepsUnique(employees, id, req);
      employees := employees[id := u];
      r := Ok(Some(u));
    }

    /** `deleteEmployee`: true exactly when the id was on file; afterwards it is not. */
    method DeleteEmployee(id: int) returns (deleted: bool)
      requires Valid()
      modifies this
      ensures Valid() && nextId == old(nextId)
      ensures deleted <==> id in old(employees)
      ensures employees == old(employees) - {id}
    {
      deleted := id in employees;
      if deleted {
        employees := employees - {id};
      }
    }

    /** `toggleEmployeeStatus`: false for an unknown id; otherwise the active
        flag is negated and nothing else changes. */
    method ToggleEmployeeStatus(id: int) returns (found: bool)
      requires Valid()
      modifies this
      ensures Valid() && nextId == old(nextId)
      ensures found <==> id in old(employees)
      ensures !found ==> employees == old(employees)
      ensures found ==> employees == old(employees)[id := Toggled(old(employees)[id])]
    {
      found := id in employees;
      if found {
        ToggleKeepsUnique(employees, id);
        employees := employees[id := Toggled(employees[id])];
      }
    }
  }

  /** The active flag negated. */
  function Toggled(e: Employee): (r: Employee)
    ensures r.active == !e.active
    ensures r.(active := e.active) == e
  {
    e.(active := !e.active)
  }

  /** Toggling twice restores the row. */
  lemma {:induction false} ToggleTwiceIsIdentity(e: Employee)
    ensures Toggled(Toggled(e)) == e
  {
  }

  lemma {:induction false} ToggleKeepsUnique(employees: map<int, Employee>, id: int)
    requires AllUnique(employees) && id in employees
    ensures AllUnique(employees[id := Toggled(employees[id])])
  {
    var m := employees[id := Toggled(employees[id])];
    forall a, b | a in m && b in m && a != b
      ensures m[a].email != m[b].email && m[a].employeeId != m[b].employeeId
      ensures m[a].phoneNumber.Some? && m[a].phoneNumber.value != "" ==> m[a].phoneNumber != m[b].phoneNumber
    {
      assert a in employees && b in employees;
    }
  }
}
