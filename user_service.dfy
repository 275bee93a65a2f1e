/** `UserService`: accounts, their roles, and the administration rules that keep
    e-mail addresses unique and at least one ADMIN in the system. */
module Users {
  import opened Common

  /** `User.UserRole`, in declaration order. */
  datatype UserRole =
    | Admin | OperationManager | MedicalCoordinator | PolicyManager | ClaimsManager
    | FinanceManager | SalesOfficer | CustomerSupportOfficer | Doctor | PolicyHolder | User

  /** The constant names of the enum, as `valueOf` matches them. */
  function Name(role: UserRole): string
  {
    match role
    case Admin => "ADMIN"
    case OperationManager => "OPERATION_MANAGER"
    case MedicalCoordinator => "MEDICAL_COORDINATOR"
    case PolicyManager => "POLICY_MANAGER"
    case ClaimsManager => "CLAIMS_MANAGER"
    case FinanceManager => "FINANCE_MANAGER"
    case SalesOfficer => "SALES_OFFICER"
    case CustomerSupportOfficer => "CUSTOMER_SUPPORT_OFFICER"
    case Doctor => "DOCTOR"
    case PolicyHolder => "POLICY_HOLDER"
    case User => "USER"
  }

  /** `UserRole.values()`. */
  const AllRoles: seq<UserRole> := [Admin, OperationManager, MedicalCoordinator, PolicyManager,
    ClaimsManager, FinanceManager, SalesOfficer, CustomerSupportOfficer, Doctor, PolicyHolder, User]

  lemma {:induction false} AllRolesListsEachRoleOnce(role: UserRole)
    ensures role in AllRoles
    ensures forall i, j :: 0 <= i < j < |AllRoles| ==> AllRoles[i] != AllRoles[j]
  {
  }

  lemma {:induction false} AllRolesListed()
    ensures forall role :: role in AllRoles
  {
    forall role ensures role in AllRoles {
      AllRolesListsEachRoleOnce(role);
    }
  }

  /** A stored password: the encoder is outside the model, so an encoded
      password is only ever compared with another one. */
  datatype Secret = Encoded(raw: string)

  /** One `users` row (`dateOfBirth`, `address` and the timestamps are not modelled). */
  datatype Account = Account(
    id: int,
    fullName: string,
    email: string,
    password: Secret,
    phone: Option<string>,
    role: UserRole)

  /** The e-mail of the account a row refers to by id; the foreign key keeps
      the account present, and "" stands in for a dangling reference. */
  function EmailOf(users: map<int, Account>, id: int): string
  {
    if id in users then users[id].email else ""
  }

  /** The full name of the account a row refers to by id, "" when dangling. */
  function FullNameOf(users: map<int, Account>, id: int): string
  {
    if id in users then users[id].fullName else ""
  }

  /** `RegisterRequest`; `confirmPassword` may be absent. */
  datatype RegisterRequest = RegisterRequest(
    fullName: string,
    email: string,
    password: string,
    confirmPassword: Option<string>,
    phone: Option<string>)

  /** `isEmployeeRole`: every role but POLICY_HOLDER and USER; null is not one. */
  predicate IsEmployeeRole(role: Option<UserRole>)
  {
    role.Some? && role.value != PolicyHolder && role.value != User
  }

  /** Employee roles are exactly the nine staff roles of the enum. */
  lemma {:induction false} EmployeeRolesAreStaff(role: UserRole)
    ensures IsEmployeeRole(Some(role)) <==>
      role in {Admin, OperationManager, MedicalCoordinator, PolicyManager, ClaimsManager,
               FinanceManager, SalesOfficer, CustomerSupportOfficer, Doctor}
  {
  }

  predicate EmailsUnique(users: map<int, Account>)
  {
    forall a, b :: a in users && b in users && a != b ==> users[a].email != users[b].email
  }

  /** Overwriting one account keeps addresses unique when no other account holds its new one. */
  lemma {:induction false} EmailsUniqueAfterSet(users: map<int, Account>, id: int, a: Account)
    requires EmailsUnique(users)
    requires forall k :: k in users && k != id ==> users[k].email != a.email
    ensures EmailsUnique(users[id := a])
  {
  }

  function AdminIds(users: map<int, Account>): set<int>
  {
    set k | k in users && users[k].role == Admin
  }

  /** `countByRole(ADMIN)`. */
  function AdminCount(users: map<int, Account>): nat
  {
    |AdminIds(users)|
  }

  /** Overwriting one account moves the ADMIN count by that account's role change only. */
  lemma {:induction false} AdminCountAfterSet(users: map<int, Account>, id: int, a: Account)
    requires id in users
    ensures AdminCount(users[id := a])
      == AdminCount(users) - (if users[id].role == Admin then 1 else 0) + (if a.role == Admin then 1 else 0)
  {
    var rest := AdminIds(users) - {id};
    assert AdminIds(users[id := a]) - {id} == rest;
    if users[id].role == Admin {
      assert AdminIds(users) == rest + {id};
    } else {
      assert AdminIds(users) == rest;
    }
    if a.role == Admin {
      assert AdminIds(users[id := a]) == rest + {id};
    } else {
      assert AdminIds(users[id := a]) == rest;
    }
  }

  /** Removing one account lowers the ADMIN count by one exactly when it was an ADMIN. */
  lemma {:induction false} AdminCountAfterRemove(users: map<int, Account>, id: int)
    requires id in users
    ensures AdminCount(users - {id}) == AdminCount(users) - (if users[id].role == Admin then 1 else 0)
  {
    var rest := AdminIds(users) - {id};
    assert AdminIds(users) == rest + (if users[id].role == Admin then {id} else {});
    assert AdminIds(users - {id}) == rest;
  }

  /** The guard of updateUser: a role change that passes it never removes the last
      ADMIN (its other fields do not matter to the count). */
  lemma {:induction false} UpdateGuardKeepsAnAdmin(users: map<int, Account>, id: int, a: Account)
    requires id in users && AdminCount(users) >= 1
    requires !(users[id].role == Admin && a.role != Admin && AdminCount(users) <= 1)
    ensures AdminCount(users[id := a]) >= 1
  {
    AdminCountAfterSet(users, id, a);
  }

  /** The guard of deleteUser: a deletion that passes it never removes the last ADMIN. */
  lemma {:induction false} DeleteGuardKeepsAnAdmin(users: map<int, Account>, id: int)
    requires id in users && AdminCount(users) >= 1
    requires !(users[id].role == Admin && AdminCount(users) <= 1)
    ensures AdminCount(users - {id}) >= 1
  {
    AdminCountAfterRemove(users, id);
  }

  /** changeUserRole has no such guard: the only ADMIN can be given any other role
      (as purchasePolicy and registerDoctor do), leaving no ADMIN at all. */
  lemma {:induction false} ChangeRoleCanRemoveLastAdmin(users: map<int, Account>, id: int, role: UserRole)
    requires id in users && AdminIds(users) == {id} && role != Admin
    ensures AdminCount(users[id := users[id].(role := role)]) == 0
  {
    AdminCountAfterSet(users, id, users[id].(role := role));
  }

  /** `searchUsers`' text test: a case-insensitive substring of name or e-mail. */
  predicate MatchesQuery(u: Account, query: string)
  {
    Contains(Lower(u.fullName), Lower(query)) || Contains(Lower(u.email), Lower(query))
  }

  /** Every account is found by searching for its own e-mail address. */
  lemma {:induction false} FoundByOwnEmail(u: Account)
    ensures MatchesQuery(u, u.email)
  {
    assert OccursAt(Lower(u.email), Lower(u.email), 0);
  }

  /** The query text is matched case-insensitively. */
  lemma {:induction false} QueryIgnoresAsciiCase(u: Account, query: string)
    ensures MatchesQuery(u, query) <==> MatchesQuery(u, Upper(query))
  {
    var lq := Lower(query);
    var lu := Lower(Upper(query));
    forall i | 0 <= i < |query| ensures lq[i] == lu[i] {
    }
    assert lq == lu;
  }

  /** `existsByEmail`: an exact, case-sensitive match. */
  predicate EmailTaken(users: map<int, Account>, email: string)
  {
    exists k :: k in users && users[k].email == email
  }

  predicate BlankAfterTrim(s: Option<string>)
  {
    s.None? || Trim(s.value) == []
  }

  /** The first check of createEmployee that fails, in the source's order:
      name, e-mail, password length, missing role, taken e-mail, role eligibility. */
  function CreateEmployeeRefusal(fullName: Option<string>, email: Option<string>, password: Option<string>,
                                 role: Option<UserRole>, emailTaken: bool): (r: Option<Failure>)
    ensures r.None? <==>
      !BlankAfterTrim(fullName) && !BlankAfterTrim(email) && password.Some? && |password.value| >= 6
      && !emailTaken && IsEmployeeRole(role)
    ensures BlankAfterTrim(fullName) ==> r == Some(FullNameEmpty)
    ensures !BlankAfterTrim(fullName) && BlankAfterTrim(email) ==> r == Some(EmailEmpty)
    ensures !BlankAfterTrim(fullName) && !BlankAfterTrim(email) && (password.None? || |password.value| < 6)
      ==> r == Some(PasswordTooShort)
    ensures !BlankAfterTrim(fullName) && !BlankAfterTrim(email) && password.Some? && |password.value| >= 6
      && role.None?
      ==> r == Some(RoleNull)
    ensures r == Some(EmailExists) <==>
      !BlankAfterTrim(fullName) && !BlankAfterTrim(email) && password.Some? && |password.value| >= 6
      && role.Some? && emailTaken
    ensures r == Some(RoleNotEligible) <==>
      !BlankAfterTrim(fullName) && !BlankAfterTrim(email) && password.Some? && |password.value| >= 6
      && !emailTaken && role.Some? && !IsEmployeeRole(role)
  {
    if BlankAfterTrim(fullName) then Some(FullNameEmpty)
    else if BlankAfterTrim(email) then Some(EmailEmpty)
    else if password.None? || |password.value| < 6 then Some(PasswordTooShort)
    else if role.None? then Some(RoleNull)
    else if emailTaken then Some(EmailExists)
    else if !IsEmployeeRole(role) then Some(RoleNotEligible)
    else None
  }

  /** The first check of updateUser that fails, in the source's order. The
      e-mail pre-check is skipped when the new address equals the old one
      ignoring case; an address that then collides exactly with another account
      is refused by the database's unique constraint instead (`DuplicateKey`). */
  function UpdateUserRefusal(users: map<int, Account>, id: int, fullName: Option<string>,
                             email: Option<string>, role: Option<UserRole>): (r: Option<Failure>)
    ensures r.None? <==>
      !BlankAfterTrim(fullName) && !BlankAfterTrim(email) && IsEmployeeRole(role)
      && id in users && IsEmployeeRole(Some(users[id].role))
      && (EqualsIgnoreCase(users[id].email, email.value) || !EmailTaken(users, email.value))
      && !(users[id].role == Admin && role.value != Admin && AdminCount(users) <= 1)
      && (forall k :: k in users && k != id ==> users[k].email != email.value)
    ensures id in users && email.Some? && EqualsIgnoreCase(users[id].email, email.value) ==> r != Some(EmailExists)
    ensures r == Some(EmailExists) <==>
      !BlankAfterTrim(fullName) && !BlankAfterTrim(email) && IsEmployeeRole(role)
      && id in users && IsEmployeeRole(Some(users[id].role))
      && !EqualsIgnoreCase(users[id].email, email.value) && EmailTaken(users, email.value)
  {
    if BlankAfterTrim(fullName) then Some(FullNameEmpty)
    else if BlankAfterTrim(email) then Some(EmailEmpty)
    else if role.None? then Some(RoleNull)
    else if !IsEmployeeRole(role) then Some(RoleNotEligible)
    else if id !in users then Some(UserNotFound)
    else if !IsEmployeeRole(Some(users[id].role)) then Some(NotEmployeeAccount)
    else if !EqualsIgnoreCase(users[id].email, email.value) && EmailTaken(users, email.value) then Some(EmailExists)
    else if users[id].role == Admin && role.value != Admin && AdminCount(users) <= 1 then Some(LastAdminMustRemain)
    else if exists k :: k in users && k != id && users[k].email == email.value then Some(DuplicateKey)
    else None
  }

  /** An unknown id is reported only once the request itself is valid; the
      last-ADMIN refusal is given exactly when every earlier check passes and
      the only ADMIN would lose the role; and an accepted role change never
      leaves the table without an ADMIN. */
  lemma {:induction false} UpdateUserRefusalCases(users: map<int, Account>, id: int, fullName: Option<string>,
                                                   email: Option<string>, role: Option<UserRole>)
    ensures !BlankAfterTrim(fullName) && !BlankAfterTrim(email) && IsEmployeeRole(role) && id !in users
      ==> UpdateUserRefusal(users, id, fullName, email, role) == Some(UserNotFound)
    ensures UpdateUserRefusal(users, id, fullName, email, role) == Some(LastAdminMustRemain) <==>
      !BlankAfterTrim(fullName) && !BlankAfterTrim(email) && IsEmployeeRole(role) && id in users
      && IsEmployeeRole(Some(users[id].role))
      && (EqualsIgnoreCase(users[id].email, email.value) || !EmailTaken(users, email.value))
      && users[id].role == Admin && role.value != Admin && AdminCount(users) <= 1
    ensures UpdateUserRefusal(users, id, fullName, email, role).None? && AdminCount(users) >= 1 ==>
      AdminCount(users[id := users[id].(role := role.value)]) >= 1
  {
    if UpdateUserRefusal(users, id, fullName, email, role).None? {
      AdminCountAfterSet(users, id, users[id].(role := role.value));
    }
  }

  /** The case-insensitive shortcut of updateUser: an account that keeps its
      role and changes its address to one equal to the old address up to
      letter case passes the service's own e-mail check, so an exact clash
      with another account is stopped only by the database. */
  lemma {:induction false} CaseOnlyEmailChangeReachesDatabase(users: map<int, Account>, id: int, other: int,
                                                               fullName: string, email: string)
    requires id in users && other in users && id != other
    requires IsEmployeeRole(Some(users[id].role))
    requires EqualsIgnoreCase(users[id].email, email) && users[other].email == email
    requires Trim(fullName) != [] && Trim(email) != []
    ensures UpdateUserRefusal(users, id, Some(fullName), Some(email), Some(users[id].role)) == Some(DuplicateKey)
  {
    assert other in users && other != id && users[other].email == email;
  }

  /** The `users` table: ids below the next one and matching their keys, and
      every e-mail address held once. */
  ghost predicate WellFormed(users: map<int, Account>, nextId: int)
  {
    nextId >= 1
    && (forall k :: k in users ==> 1 <= k < nextId && users[k].id == k)
    && EmailsUnique(users)
  }

  /** An update that `UpdateUserRefusal` lets through keeps the table well
      formed and leaves at least one ADMIN when there was one. */
  lemma {:induction false} AcceptedUpdateKeepsInvariants(users: map<int, Account>, nextId: int, id: int,
                                                          fullName: Option<string>, email: Option<string>,
                                                          phone: Option<string>, role: Option<UserRole>)
    requires WellFormed(users, nextId)
    requires UpdateUserRefusal(users, id, fullName, email, role).None?
    ensures id in users && fullName.Some? && email.Some? && role.Some?
    ensures var a := users[id].(fullName := fullName.value, email := email.value, phone := phone, role := role.value);
      WellFormed(users[id := a], nextId) && (AdminCount(users) >= 1 ==> AdminCount(users[id := a]) >= 1)
  {
    var a := users[id].(fullName := fullName.value, email := email.value, phone := phone, role := role.value);
    assert users[id].id == id && a.id == id;
    AdminCountAfterSet(users, id, a);
    EmailsUniqueAfterSet(users, id, a);
  }

  class UserService {
    var users: map<int, Account>
    var nextId: int

    ghost predicate Valid()
      reads this
    {
      WellFormed(users, nextId)
    }

    constructor ()
      ensures Valid() && users == map[]
    {
      users := map[];
      nextId := 1;
    }

    /** `existsByEmail`: an exact, case-sensitive match. */
    predicate ExistsByEmail(email: string)
      reads this
    {
      EmailTaken(users, email)
    }

    /** `getUserById`: "User not found with ID" for an unknown id. */
    function GetUserById(id: int): (r: Result<Account>)
      reads this
      ensures r.Ok? <==> id in users
      ensures r.Ok? ==> r.value == users[id]
      ensures r.Err? ==> r.failure == UserNotFound
    {
      if id in users then Ok(users[id]) else Err(UserNotFound)
    }

    /** `registerUser`: a new POLICY_HOLDER account; a taken e-mail fails first,
        then a confirmation that is present and differs from the password. */
    method RegisterUser(req: RegisterRequest) returns (r: Result<Account>)
      requires Valid()
      modifies this
      ensures Valid()
      ensures old(ExistsByEmail(req.email)) ==> r == Err(EmailExists)
      ensures (!old(ExistsByEmail(req.email)) && req.confirmPassword.Some?
               && req.confirmPassword.value != req.password) ==> r == Err(PasswordsDoNotMatch)
      ensures r.Err? ==> users == old(users) && nextId == old(nextId)
      ensures r.Ok? <==> !old(ExistsByEmail(req.email))
                         && (req.confirmPassword.None? || req.confirmPassword.value == req.password)
      ensures r.Ok? ==>
        r.value == Account(old(nextId), req.fullName, req.email, Encoded(req.password), req.phone, PolicyHolder)
        && users == old(users)[old(nextId) := r.value] && nextId == old(nextId) + 1
    {
      if ExistsByEmail(req.email) {
        return Err(EmailExists);
      }
      if req.confirmPassword.Some? && req.password != req.confirmPassword.value {
        return Err(PasswordsDoNotMatch);
      }
      var u := Account(nextId, req.fullName, req.email, Encoded(req.password), req.phone, PolicyHolder);
      users := users[nextId := u];
      nextId := nextId + 1;
      r := Ok(u);
    }

    /** `createEmployee`: stores the account when `CreateEmployeeRefusal` finds
        nothing to refuse, and otherwise fails with the first refusal. */
    method CreateEmployee(fullName: Option<string>, email: Option<string>, password: Option<string>,
                          phone: Option<string>, role: Option<UserRole>) returns (r: Result<Account>)
      requires Valid()
      modifies this
      ensures Valid()
      ensures var refusal := CreateEmployeeRefusal(fullName, email, password, role,
                                                   email.Some? && EmailTaken(old(users), email.value));
        if refusal.Some? then r == Err(refusal.value) && users == old(users) && nextId == old(nextId)
        else (r.Ok?
          && r.value == Account(old(nextId), fullName.value, email.value, Encoded(password.value), phone, role.value)
          && users == old(users)[old(nextId) := r.value] && nextId == old(nextId) + 1)
    {
      var refusal := CreateEmployeeRefusal(fullName, email, password, role,
                                           email.Some? && EmailTaken(users, email.value));
      if refusal.Some? {
        return Err(refusal.value);
      }
      var u := Account(nextId, fullName.value, email.value, Encoded(password.value), phone, role.value);
      users := users[nextId := u];
      nextId := nextId + 1;
      r := Ok(u);
    }

    /** `updateUser`: overwrites name, e-mail, phone and role when
        `UpdateUserRefusal` finds nothing to refuse. The ADMIN count never drops
        to zero. */
    method UpdateUser(id: int, fullName: Option<string>, email: Option<string>, phone: Option<string>,
                      role: Option<UserRole>) returns (r: Result<Account>)
      requires Valid()
      modifies this
      ensures Valid() && nextId == old(nextId)
      ensures var refusal := UpdateUserRefusal(old(users), id, fullName, email, role);
        if refusal.Some? then r == Err(refusal.value) && users == old(users)
        else (r.Ok?
          && r.value == old(users)[id].(fullName := fullName.value, email := email.value, phone := phone,
                                        role := role.value)
          && users == old(users)[id := r.value])
      ensures old(AdminCount(users)) >= 1 ==> AdminCount(users) >= 1
    {
      var refusal := UpdateUserRefusal(users, id, fullName, email, role);
      if refusal.Some? {
        return Err(refusal.value);
      }
      var updated := users[id].(fullName := fullName.value, email := email.value, phone := phone,
                                role := role.value);
      AcceptedUpdateKeepsInvariants(users, nextId, id, fullName, email, phone, role);
      ghost var before := users;
      users := users[id := updated];
      assert WellFormed(users, nextId);
      assert AdminCount(before) >= 1 ==> AdminCount(users) >= 1;
      r := Ok(updated);
    }

    /** `deleteUser`: only employee accounts, and never the last ADMIN. */
    method DeleteUser(id: int) returns (r: Result<()>)
      requires Valid()
      modifies this
      ensures Valid() && nextId == old(nextId)
      ensures id !in old(users) ==> r == Err(UserNotFound)
      ensures id in old(users) && !IsEmployeeRole(Some(old(users)[id].role)) ==> r == Err(NotEmployeeAccount)
      ensures r == Err(LastAdminCannotBeDeleted) <==>
        id in old(users) && old(users)[id].role == Admin && old(AdminCount(users)) <= 1
      ensures r.Ok? <==> id in old(users) && IsEmployeeRole(Some(old(users)[id].role))
                         && !(old(users)[id].role == Admin && old(AdminCount(users)) <= 1)
      ensures users == if r.Ok? then old(users) - {id} else old(users)
      ensures old(AdminCount(users)) >= 1 ==> AdminCount(users) >= 1
    {
      if id !in users {
        return Err(UserNotFound);
      }
      if !IsEmployeeRole(Some(users[id].role)) {
        return Err(NotEmployeeAccount);
      }
      if users[id].role == Admin && AdminCount(users) <= 1 {
        return Err(LastAdminCannotBeDeleted);
      }
      if AdminCount(users) >= 1 {
        DeleteGuardKeepsAnAdmin(users, id);
      }
      users := users - {id};
      r := Ok(());
    }

    /** `changeUserRole`: only the role of that one account changes. */
    method ChangeUserRole(id: int, role: UserRole) returns (r: Result<()>)
      requires Valid()
      modifies this
      ensures Valid() && nextId == old(nextId)
      ensures id !in old(users) ==> r == Err(UserNotFound) && users == old(users)
      ensures id in old(users) ==> r == Ok(()) && users == old(users)[id := old(users)[id].(role := role)]
    {
      var found := GetUserById(id);
      if found.Err? {
        return Err(found.failure);
      }
      users := users[id := found.value.(role := role)];
      r := Ok(());
    }

    /** `searchUsers`: an exact role filter when a role is given, and the text
        test unless the query is null or empty. */
    function SearchUsers(query: Option<string>, role: Option<UserRole>): (r: map<int, Account>)
      reads this
      ensures forall k :: k in r ==> k in users && r[k] == users[k]
      ensures forall k :: k in users && role.Some? && users[k].role != role.value ==> k !in r
      ensures forall k :: (k in users && (role.None? || users[k].role == role.value)
                           && (query.None? || query.value == [] || MatchesQuery(users[k], query.value))) ==> k in r
      ensures query.Some? && query.value != [] ==> forall k :: k in r ==> MatchesQuery(users[k], query.value)
    {
      Select(users, (u: Account) =>
        (role.None? || u.role == role.value)
        && (query.None? || query.value == [] || MatchesQuery(u, query.value)))
    }
  }
}
