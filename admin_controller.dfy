/** The guard chains of `AdminController`: every request is validated and the
    caller's own account protected before the single call into `UserService`. */
module Admin {
  import opened Common
  import opened Users

  /** A JSON request body after `toString()` of each value; a key bound to
      JSON null is the same as a missing key. */
  type Payload = map<string, string>

  /** `extractString`: null for a missing key, otherwise the trimmed text. */
  function ExtractString(payload: Payload, key: string): (r: Option<string>)
    ensures r.None? <==> key !in payload
    ensures r.Some? ==> r.value == Trim(payload[key])
  {
    if key in payload then Some(Trim(payload[key])) else None
  }

  /** What `parseRole` hands to `UserRole.valueOf`. */
  function Sanitize(value: string): (r: string)
    ensures |r| == |Trim(value)|
    ensures ' ' !in r
    ensures forall i :: 0 <= i < |r| ==> !('a' <= r[i] <= 'z')
  {
    ReplaceChar(Upper(Trim(value)), ' ', '_')
  }

  /** `UserRole.valueOf` over a list of candidates: the first whose name matches. */
  function FindRole(roles: seq<UserRole>, name: string): (r: Option<UserRole>)
    ensures r.Some? ==> r.value in roles && Name(r.value) == name
    ensures r.None? ==> forall role :: role in roles ==> Name(role) != name
  {
    if roles == [] then None
    else if Name(roles[0]) == name then Some(roles[0])
    else FindRole(roles[1..], name)
  }

  /** `parseRole`: trims, upper-cases and turns spaces into underscores, then
      matches an enum constant name; otherwise "Invalid role: " + value. */
  function ParseRole(value: string): (r: Result<UserRole>)
    ensures r.Ok? ==> Name(r.value) == Sanitize(value)
    ensures r.Err? ==> r.failure == InvalidRole(value) && forall role :: Name(role) != Sanitize(value)
  {
    var found := FindRole(AllRoles, Sanitize(value));
    if found.Some? then Ok(found.value)
    else
      AllRolesListed();
      Err(InvalidRole(value))
  }

  /** Characters of an enum constant name. */
  predicate ConstantChars(s: string)
  {
    forall c :: c in s ==> ('A' <= c <= 'Z') || c == '_'
  }

  /** The same, position by position. */
  lemma {:induction false} ConstantCharsAt(s: string)
    requires ConstantChars(s)
    ensures forall i :: 0 <= i < |s| ==> ('A' <= s[i] <= 'Z') || s[i] == '_'
  {
    forall i | 0 <= i < |s| ensures ('A' <= s[i] <= 'Z') || s[i] == '_' {
      assert s[i] in s;
    }
  }

  lemma {:induction false} NamesAreConstantChars(role: UserRole)
    ensures ConstantChars(Name(role)) && Name(role) != []
  {
  }

  lemma {:induction false} NamesAreDistinct(a: UserRole, b: UserRole)
    ensures Name(a) == Name(b) ==> a == b
  {
    if a != b {
      match a
      case Admin =>
      case OperationManager =>
      case MedicalCoordinator =>
      case PolicyManager =>
      case ClaimsManager =>
      case FinanceManager => assert Name(a)[0] == 'F';
      case SalesOfficer =>
      case CustomerSupportOfficer =>
      case Doctor =>
      case PolicyHolder => assert Name(a)[0..8] == "POLICY_H";
      case User =>
    }
  }

  /** Trimming a string that starts and ends above U+0020 changes nothing. */
  lemma {:induction false} TrimKeeps(s: string)
    requires s == [] || (s[0] > ' ' && s[|s| - 1] > ' ')
    ensures Trim(s) == s
  {
  }

  /** Lower-casing then upper-casing gives back a constant name. */
  lemma {:induction false} UpperLowerConstant(s: string)
    requires ConstantChars(s)
    ensures Upper(Lower(s)) == s && Upper(s) == s
  {
    ConstantCharsAt(s);
    assert forall i :: 0 <= i < |s| ==> UpperChar(LowerChar(s[i])) == s[i];
  }

  /** Sanitizing leaves a constant name, or its lower-case spelling, as that name. */
  lemma {:induction false} SanitizeConstant(n: string)
    requires ConstantChars(n) && n != []
    ensures Sanitize(n) == n && Sanitize(Lower(n)) == n
  {
    SanitizeKeepsConstant(n);
    SanitizeRaisesLowerConstant(n);
  }

  lemma {:induction false} SanitizeKeepsConstant(n: string)
    requires ConstantChars(n) && n != []
    ensures Sanitize(n) == n
  {
    ConstantCharsAt(n);
    UpperLowerConstant(n);
    NoSpaceToReplace(n);
    TrimKeeps(n);
    assert Sanitize(n) == ReplaceChar(Upper(n), ' ', '_');
  }

  lemma {:induction false} SanitizeRaisesLowerConstant(n: string)
    requires ConstantChars(n) && n != []
    ensures Sanitize(Lower(n)) == n
  {
    UpperLowerConstant(n);
    NoSpaceToReplace(n);
    LowerEndsAboveSpace(n);
    TrimKeeps(Lower(n));
    assert Sanitize(Lower(n)) == ReplaceChar(Upper(Lower(n)), ' ', '_');
  }

  lemma {:induction false} LowerEndsAboveSpace(n: string)
    requires ConstantChars(n) && n != []
    ensures var l := Lower(n); l[0] > ' ' && l[|l| - 1] > ' '
  {
    ConstantCharsAt(n);
    var l := Lower(n);
    assert l[0] == LowerChar(n[0]);
    assert l[|l| - 1] == LowerChar(n[|n| - 1]);
  }

  lemma {:induction false} NoSpaceToReplace(n: string)
    requires ConstantChars(n)
    ensures ReplaceChar(n, ' ', '_') == n
  {
    ConstantCharsAt(n);
    var r := ReplaceChar(n, ' ', '_');
    assert forall i :: 0 <= i < |n| ==> r[i] == n[i];
  }

  /** A string that sanitizes to a role's name parses as that role. */
  lemma {:induction false} ParsesAs(value: string, role: UserRole)
    requires Sanitize(value) == Name(role)
    ensures ParseRole(value) == Ok(role)
  {
    AllRolesListsEachRoleOnce(role);
    var r := ParseRole(value);
    assert r.Ok?;
    NamesAreDistinct(r.value, role);
  }

  /** `parseRole` accepts every constant name, in upper or lower case, and
      returns that very role. */
  lemma {:induction false} ParseRoleRoundTrip(role: UserRole)
    ensures ParseRole(Name(role)) == Ok(role)
    ensures ParseRole(Lower(Name(role))) == Ok(role)
  {
    NamesAreConstantChars(role);
    SanitizeConstant(Name(role));
    ParsesAs(Name(role), role);
    ParsesAs(Lower(Name(role)), role);
  }

  /** The fields of a validated createEmployee request. */
  datatype EmployeeForm = EmployeeForm(
    fullName: string, email: string, password: string, phone: Option<string>, role: UserRole)

  /** The fields of a validated updateUser request. */
  datatype UserForm = UserForm(fullName: string, email: string, phone: Option<string>, role: UserRole)

  /** The role checks shared by both forms: present and not blank, a known
      constant name, an employee role. */
  function CheckRole(roleValue: Option<string>, forCreation: bool): (r: Result<UserRole>)
    ensures r.Ok? ==> roleValue.Some? && Name(r.value) == Sanitize(roleValue.value)
                      && IsEmployeeRole(Some(r.value))
    ensures NullOrBlank(roleValue) ==> r == Err(RoleRequired)
    ensures r.Ok? <==>
      !NullOrBlank(roleValue) && ParseRole(roleValue.value).Ok? && IsEmployeeRole(Some(ParseRole(roleValue.value).value))
    ensures !NullOrBlank(roleValue) && ParseRole(roleValue.value).Err? ==> r == Err(InvalidRole(roleValue.value))
    ensures (!NullOrBlank(roleValue) && ParseRole(roleValue.value).Ok?
             && !IsEmployeeRole(Some(ParseRole(roleValue.value).value))) ==>
      r == Err(if forCreation then RoleNotEligibleForCreation(Name(ParseRole(roleValue.value).value))
               else RoleNotEligibleForManagement(Name(ParseRole(roleValue.value).value)))
  {
    if NullOrBlank(roleValue) then Err(RoleRequired)
    else
      var parsed := ParseRole(roleValue.value);
      if parsed.Err? then Err(parsed.failure)
      else if !IsEmployeeRole(Some(parsed.value)) then
        Err(if forCreation then RoleNotEligibleForCreation(Name(parsed.value))
            else RoleNotEligibleForManagement(Name(parsed.value)))
      else Ok(parsed.value)
  }

  /** createEmployee's checks before the service call, in the source's order. */
  function CheckCreateEmployee(payload: Payload): (r: Result<EmployeeForm>)
    ensures NullOrBlank(ExtractString(payload, "fullName")) ==> r == Err(FullNameRequired)
    ensures r.Ok? ==>
      Some(r.value.fullName) == ExtractString(payload, "fullName") && !IsBlank(r.value.fullName)
      && Some(r.value.email) == ExtractString(payload, "email") && !IsBlank(r.value.email)
      && Some(r.value.password) == ExtractString(payload, "password") && !IsBlank(r.value.password)
      && r.value.phone == ExtractString(payload, "phone")
      && (var confirm := ExtractString(payload, "confirmPassword"); confirm.None? || confirm.value == r.value.password)
      && IsEmployeeRole(Some(r.value.role))
      && ExtractString(payload, "role").Some? && Name(r.value.role) == Sanitize(ExtractString(payload, "role").value)
    ensures !NullOrBlank(ExtractString(payload, "fullName")) && NullOrBlank(ExtractString(payload, "email"))
            ==> r == Err(EmailRequired)
    ensures (!NullOrBlank(ExtractString(payload, "fullName")) && !NullOrBlank(ExtractString(payload, "email"))
             && NullOrBlank(ExtractString(payload, "password")))
            ==> r == Err(PasswordRequired)
    ensures (!NullOrBlank(ExtractString(payload, "fullName")) && !NullOrBlank(ExtractString(payload, "email"))
             && !NullOrBlank(ExtractString(payload, "password")) && ExtractString(payload, "confirmPassword").Some?
             && ExtractString(payload, "confirmPassword") != ExtractString(payload, "password"))
            ==> r == Err(PasswordsDoNotMatch)
    ensures (!NullOrBlank(ExtractString(payload, "fullName")) && !NullOrBlank(ExtractString(payload, "email"))
             && !NullOrBlank(ExtractString(payload, "password"))
             && (ExtractString(payload, "confirmPassword").None?
                 || ExtractString(payload, "confirmPassword") == ExtractString(payload, "password"))
             && NullOrBlank(ExtractString(payload, "role")))
            ==> r == Err(RoleRequired)
    ensures r.Ok? <==>
      !NullOrBlank(ExtractString(payload, "fullName")) && !NullOrBlank(ExtractString(payload, "email"))
      && !NullOrBlank(ExtractString(payload, "password"))
      && (ExtractString(payload, "confirmPassword").None?
          || ExtractString(payload, "confirmPassword") == ExtractString(payload, "password"))
      && CheckRole(ExtractString(payload, "role"), true).Ok?
    ensures (!NullOrBlank(ExtractString(payload, "fullName")) && !NullOrBlank(ExtractString(payload, "email"))
             && !NullOrBlank(ExtractString(payload, "password"))
             && (ExtractString(payload, "confirmPassword").None?
                 || ExtractString(payload, "confirmPassword") == ExtractString(payload, "password"))
             && CheckRole(ExtractString(payload, "role"), true).Err?)
            ==> r == Err(CheckRole(ExtractString(payload, "role"), true).failure)
  {
    var fullName := ExtractString(payload, "fullName");
    var email := ExtractString(payload, "email");
    var password := ExtractString(payload, "password");
    var confirm := ExtractString(payload, "confirmPassword");
    var phone := ExtractString(payload, "phone");
    var roleValue := ExtractString(payload, "role");
    if NullOrBlank(fullName) then Err(FullNameRequired)
    else if NullOrBlank(email) then Err(EmailRequired)
    else if NullOrBlank(password) then Err(PasswordRequired)
    else if confirm.Some? && confirm != password then Err(PasswordsDoNotMatch)
    else
      var role := CheckRole(roleValue, true);
      if role.Err? then Err(role.failure)
      else Ok(EmployeeForm(fullName.value, email.value, password.value, phone, role.value))
  }

  /** updateUser's checks before the service call: the form, then the caller may
      not take ADMIN away from their own account. An unresolvable caller is null. */
  function CheckUpdateUser(payload: Payload, id: int, caller: Option<int>): (r: Result<UserForm>)
    ensures r.Ok? ==>
      Some(r.value.fullName) == ExtractString(payload, "fullName") && !IsBlank(r.value.fullName)
      && Some(r.value.email) == ExtractString(payload, "email") && !IsBlank(r.value.email)
      && r.value.phone == ExtractString(payload, "phone")
      && IsEmployeeRole(Some(r.value.role))
      && ExtractString(payload, "role").Some? && Name(r.value.role) == Sanitize(ExtractString(payload, "role").value)
    ensures r.Ok? && caller == Some(id) ==> r.value.role == Admin
    ensures NullOrBlank(ExtractString(payload, "fullName")) ==> r == Err(FullNameRequired)
    ensures !NullOrBlank(ExtractString(payload, "fullName")) && NullOrBlank(ExtractString(payload, "email"))
            ==> r == Err(EmailRequired)
    ensures (!NullOrBlank(ExtractString(payload, "fullName")) && !NullOrBlank(ExtractString(payload, "email"))
             && NullOrBlank(ExtractString(payload, "role")))
            ==> r == Err(RoleRequired)
    ensures (!NullOrBlank(ExtractString(payload, "fullName")) && !NullOrBlank(ExtractString(payload, "email"))
             && CheckRole(ExtractString(payload, "role"), false).Ok?
             && caller == Some(id) && CheckRole(ExtractString(payload, "role"), false).value != Admin)
            ==> r == Err(CannotRemoveOwnAdmin)
    ensures r.Ok? <==>
      !NullOrBlank(ExtractString(payload, "fullName")) && !NullOrBlank(ExtractString(payload, "email"))
      && CheckRole(ExtractString(payload, "role"), false).Ok?
      && !(caller == Some(id) && CheckRole(ExtractString(payload, "role"), false).value != Admin)
    ensures (!NullOrBlank(ExtractString(payload, "fullName")) && !NullOrBlank(ExtractString(payload, "email"))
             && CheckRole(ExtractString(payload, "role"), false).Err?)
            ==> r == Err(CheckRole(ExtractString(payload, "role"), false).failure)
  {
    var fullName := ExtractString(payload, "fullName");
    var email := ExtractString(payload, "email");
    var phone := ExtractString(payload, "phone");
    var roleValue := ExtractString(payload, "role");
    if NullOrBlank(fullName) then Err(FullNameRequired)
    else if NullOrBlank(email) then Err(EmailRequired)
    else
      var role := CheckRole(roleValue, false);
      if role.Err? then Err(role.failure)
      else if caller == Some(id) && role.value != Admin then Err(CannotRemoveOwnAdmin)
      else Ok(UserForm(fullName.value, email.value, phone, role.value))
  }

  /** deleteUser's check before the service call. */
  function CheckDeleteUser(id: int, caller: Option<int>): (r: Option<Failure>)
    ensures r.Some? <==> caller == Some(id)
    ensures r.Some? ==> r.value == CannotDeleteOwnAccount
  {
    if caller == Some(id) then Some(CannotDeleteOwnAccount) else None
  }

  /** What passes the controller's `isBlank` checks also passes the service's
      `trim().isEmpty()` checks, because extracted values are already trimmed. */
  lemma {:induction false} ValidatedFormPassesServiceTextChecks(payload: Payload)
    requires CheckCreateEmployee(payload).Ok?
    ensures var f := CheckCreateEmployee(payload).value;
      !BlankAfterTrim(Some(f.fullName)) && !BlankAfterTrim(Some(f.email)) && IsEmployeeRole(Some(f.role))
  {
    var f := CheckCreateEmployee(payload).value;
    TrimmedStaysNonEmpty(payload["fullName"]);
    TrimmedStaysNonEmpty(payload["email"]);
  }

  /** A trimmed string that is not blank survives a second trim. */
  lemma {:induction false} TrimmedStaysNonEmpty(s: string)
    requires !IsBlank(Trim(s))
    ensures Trim(Trim(s)) != []
  {
    TrimIsSlice(s);
    TrimKeeps(Trim(s));
  }

  class AdminController {
    const users: UserService

    constructor (users: UserService)
      ensures this.users == users
    {
      this.users := users;
    }

    /** POST /users: the controller's checks, then `UserService.createEmployee`. */
    method CreateEmployee(payload: Payload) returns (r: Result<Account>)
      requires users.Valid()
      modifies users
      ensures users.Valid()
      ensures CheckCreateEmployee(payload).Err? ==>
        r == Err(CheckCreateEmployee(payload).failure) && users.users == old(users.users)
      ensures r.Ok? ==> CheckCreateEmployee(payload).Ok? && r.value.role == CheckCreateEmployee(payload).value.role
                        && users.users == old(users.users)[r.value.id := r.value]
      ensures CheckCreateEmployee(payload).Ok? ==>
        var f := CheckCreateEmployee(payload).value;
        var refusal := CreateEmployeeRefusal(Some(f.fullName), Some(f.email), Some(f.password), Some(f.role),
                                             EmailTaken(old(users.users), f.email));
        if refusal.Some? then r == Err(refusal.value) && users.users == old(users.users)
        else r == Ok(Account(old(users.nextId), f.fullName, f.email, Encoded(f.password), f.phone, f.role))
             && users.users == old(users.users)[old(users.nextId) := r.value]
    {
      var form := CheckCreateEmployee(payload);
      if form.Err? {
        return Err(form.failure);
      }
      var f := form.value;
      r := users.CreateEmployee(Some(f.fullName), Some(f.email), Some(f.password), f.phone, Some(f.role));
    }

    /** PUT /users/{id}: the controller's checks, then `UserService.updateUser`. */
    method UpdateUser(id: int, payload: Payload, caller: Option<int>) returns (r: Result<Account>)
      requires users.Valid()
      modifies users
      ensures users.Valid()
      ensures CheckUpdateUser(payload, id, caller).Err? ==>
        r == Err(CheckUpdateUser(payload, id, caller).failure) && users.users == old(users.users)
      ensures r.Ok? ==> users.users == old(users.users)[id := r.value]
      ensures CheckUpdateUser(payload, id, caller).Ok? ==>
        var f := CheckUpdateUser(payload, id, caller).value;
        var refusal := UpdateUserRefusal(old(users.users), id, Some(f.fullName), Some(f.email), Some(f.role));
        if refusal.Some? then r == Err(refusal.value) && users.users == old(users.users)
        else r == Ok(old(users.users)[id].(fullName := f.fullName, email := f.email, phone := f.phone, role := f.role))
             && users.users == old(users.users)[id := r.value]
      ensures r.Ok? && caller == Some(id) ==> users.users[id].role == Admin
      ensures old(AdminCount(users.users)) >= 1 ==> AdminCount(users.users) >= 1
    {
      var form := CheckUpdateUser(payload, id, caller);
      if form.Err? {
        return Err(form.failure);
      }
      var f := form.value;
      r := users.UpdateUser(id, Some(f.fullName), Some(f.email), f.phone, Some(f.role));
    }

    /** DELETE /users/{id}: never the caller's own account, then `UserService.deleteUser`. */
    method DeleteUser(id: int, caller: Option<int>) returns (r: Result<()>)
      requires users.Valid()
      modifies users
      ensures users.Valid()
      ensures caller == Some(id) ==> r == Err(CannotDeleteOwnAccount) && users.users == old(users.users)
      ensures users.users == if r.Ok? then old(users.users) - {id} else old(users.users)
      ensures old(AdminCount(users.users)) >= 1 ==> AdminCount(users.users) >= 1
      ensures caller != Some(id) ==>
        (r.Ok? <==> id in old(users.users) && IsEmployeeRole(Some(old(users.users)[id].role))
                    && !(old(users.users)[id].role == Admin && old(AdminCount(users.users)) <= 1))
      ensures caller != Some(id) && id !in old(users.users) ==> r == Err(UserNotFound)
      ensures (caller != Some(id) && id in old(users.users) && !IsEmployeeRole(Some(old(users.users)[id].role)))
              ==> r == Err(NotEmployeeAccount)
      ensures (caller != Some(id) && id in old(users.users) && old(users.users)[id].role == Admin
               && old(AdminCount(users.users)) <= 1) ==> r == Err(LastAdminCannotBeDeleted)
    {
      var refusal := CheckDeleteUser(id, caller);
      if refusal.Some? {
        return Err(refusal.value);
      }
      r := users.DeleteUser(id);
    }
  }
}
