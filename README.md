# MediSure workflow model

MediSure is a health-insurance back office written as a Spring application. Users
register as policy holders and buy policies. Staff then move the resulting
records through their lifecycles:

- policy managers and finance officers approve paid enrollments;
- claims managers review claims and forward them to finance;
- finance records its decision on each claim;
- doctors work through their appointment lists;
- sales officers review policy applications;
- support officers answer tickets;
- administrators manage staff accounts, without ever removing the last
  administrator.

Every change of interest is written to an audit log.

This project models the service layer that carries these rules, one Dafny
module per source file. Each module also holds the pure computations of the
dashboard and admin controllers.

- **Services as classes.** Each service is a `class` whose repository tables are
  `map<int, Record>` fields. Ids are allocated from `nextId`, as the database
  identity column does. The services it is injected with are `const` fields.
- **Records as values.** Stored records (enrollment, claim, appointment, ticket,
  …) are datatypes. A transition of one record is a pure function that returns
  `Result`. The service method looks the record up, applies the transition,
  saves it, and appends the audit entry.
- **Contracts of state-changing methods.** Each such method states its whole new
  state: the table, the id counter and the audit log. Lemmas beside it state the
  invariants it keeps:
  - at least one ADMIN account;
  - unique e-mails, registration numbers and employee ids;
  - no double-booked doctor slot;
  - the approval gate on paid enrollments.
- **Errors.** Each distinct exception message of the source is one constructor
  of `Common.Failure`.
- **Time.** Dates are `Calendar.Date` values with Java's `plusMonths`, which
  clamps the day to the length of the target month. Instants are integers. The
  current date and time are parameters (`today`, `now`).
- **Money.** Amounts are integers in minor units.
- **Passwords.** The password encoder is the opaque constructor `Encoded`.

Modules:

| module | file |
|---|---|
| `Common` | `common.dfy` |
| `Calendar` | `calendar.dfy` |
| `AuditLogs` | `audit_log.dfy` |
| `Users` | `user_service.dfy` |
| `Admin` | `admin_controller.dfy` |
| `Policies` | `policy_service.dfy` |
| `Doctors` | `doctor_service.dfy` |
| `Enrollments` | `enrollment.dfy` |
| `PolicyHolders` | `policy_holder_service.dfy` |
| `Claims` | `claim_service.dfy` |
| `Finance` | `finance_service.dfy` |
| `Appointments` | `appointment_service.dfy` |
| `Dashboard` | `dashboard.dfy` |
| `Employees` | `employee_service.dfy` |
| `Tickets` | `ticket_service.dfy` |
| `SalesReview` | `sales_review_service.dfy` |
| `Purchases` | `policy_purchase_service.dfy` |

## Model


| member | source | states |
|---|---|---|
| Common.Where | src/main/java/com/virul/medisure/service/AuditLogService.java:34-44 | A stream filter: the result holds exactly the elements of the input that satisfy the predicate, and is no longer than the input |
| Common.WhereAppend | src/main/java/com/virul/medisure/service/AuditLogService.java:34-36 | Filtering a list with one more element appended gives the old filtered list plus that element exactly when it passes |
| Common.Select | src/main/java/com/virul/medisure/service/PolicyService.java:21-23 | A derived `findBy…` query over a table: a key is selected iff it is stored and its record satisfies the predicate, with the stored record as value |
| Common.Find | src/main/java/com/virul/medisure/service/PolicyService.java:29-32 | `findById`: a value is found iff the id is in the table, and it is the stored record |
| Common.SortBy | src/main/java/com/virul/medisure/controller/DashboardController.java:163-166 | `sorted(comparator)`: the result is ordered by the key and is a permutation of the input |
| Common.InsertBy | src/main/java/com/virul/medisure/controller/DashboardController.java:163-166 | Inserting into an ordered list keeps it ordered and adds exactly that one element |
| Common.SortedPrefix | src/main/java/com/virul/medisure/controller/DashboardController.java:163-166 | `limit(k)` after a sort: the prefix is ordered, is drawn from the list, and no element left out precedes any kept one |
| Common.TrimStart | src/main/java/com/virul/medisure/service/UserService.java:55 | `trim()` at the front: the result is a suffix of the input that starts with a character above space |
| Common.TrimStartDropsBlanks | src/main/java/com/virul/medisure/service/UserService.java:55 | Every character the front trim removes is a space or a control character |
| Common.TrimEnd | src/main/java/com/virul/medisure/service/UserService.java:55 | `trim()` at the back: the result is a prefix of the input that ends with a character above space |
| Common.TrimEndDropsBlanks | src/main/java/com/virul/medisure/service/UserService.java:55 | Every character the back trim removes is a space or a control character |
| Common.TrimEmptyIff | src/main/java/com/virul/medisure/service/UserService.java:55-60 | `s.trim().isEmpty()` holds exactly when every character of `s` is at most a space |
| Common.TrimIsSlice | src/main/java/com/virul/medisure/controller/AdminController.java:83-89 | `trim()` returns a contiguous slice of its input that is empty or begins and ends above space |
| Common.Upper | src/main/java/com/virul/medisure/controller/AdminController.java:95 | `toUpperCase()` on the ASCII letters only: each character is mapped on its own, so the length is kept. Every other character is left as it is |
| Common.Lower | src/main/java/com/virul/medisure/service/UserService.java:186-187 | `toLowerCase()` on the ASCII letters only: each character is mapped on its own, so the length is kept. Every other character is left as it is |
| Common.ReplaceChar | src/main/java/com/virul/medisure/controller/AdminController.java:96 | `replace(' ', '_')` replaces exactly the occurrences of one character and keeps every other position |
| Calendar.MonthLength | src/main/java/com/virul/medisure/service/PolicyHolderService.java:50 | Every month has between 28 and 31 days |
| Calendar.PlusMonths | src/main/java/com/virul/medisure/service/PolicyHolderService.java:50 | `plusMonths(n)` yields a valid date exactly `n` months later by month count. The day is kept, or clamped to the target month's last day |
| Calendar.BeforeIsMonthIndexThenDay | src/main/java/com/virul/medisure/service/PolicyHolderService.java:262 | `isBefore` on valid dates compares month count first, then day |
| Calendar.PlusMonthsOrder | src/main/java/com/virul/medisure/service/PolicyHolderService.java:99 | Adding a positive number of months gives a strictly later date, a negative number a strictly earlier one, and zero the same date |
| AuditLogs.AuditLogService.constructor | src/main/java/com/virul/medisure/service/AuditLogService.java:13-15 | The log starts empty |
| AuditLogs.Text | src/main/java/com/virul/medisure/service/PolicyHolderService.java:187 | Each `details` text starts with the fixed opening words of its kind of event, and every policy message ends with the policy's name |
| AuditLogs.Values | src/main/java/com/virul/medisure/service/PolicyHolderService.java:187-188 | The values that follow the opening words; every policy message ends with the policy's name |
| AuditLogs.AuditLogService.LogAction | src/main/java/com/virul/medisure/service/AuditLogService.java:17-28 | Appends exactly one entry carrying the given entity type, id, action, performer, details and time. Earlier entries are untouched and the new id is the next identity value |
| AuditLogs.AuditLogService.GetAuditLogsByEntity | src/main/java/com/virul/medisure/service/AuditLogService.java:34-36 | Returns exactly the entries whose entity type and entity id both match |
| AuditLogs.AuditLogService.GetAuditLogsByUser | src/main/java/com/virul/medisure/service/AuditLogService.java:38-40 | Returns exactly the entries performed by the given e-mail |
| AuditLogs.AuditLogService.GetAuditLogsByDateRange | src/main/java/com/virul/medisure/service/AuditLogService.java:42-44 | Returns exactly the entries whose timestamp lies between start and end, both ends included |
| AuditLogs.EntityHistoryGrowsByOne | src/main/java/com/virul/medisure/service/AuditLogService.java:17-36 | After one logged action, an entity's history grows by that entry when it is about the entity, and otherwise stays the same |
| Users.AllRolesListsEachRoleOnce | src/main/java/com/virul/medisure/model/User.java:91-102 | `UserRole.values()` lists each of the eleven roles exactly once |
| Users.AllRolesListed | src/main/java/com/virul/medisure/model/User.java:91-102 | Every role appears in `values()` |
| Users.EmployeeRolesAreStaff | src/main/java/com/virul/medisure/service/UserService.java:201-205 | `isEmployeeRole` holds exactly for the nine staff roles. It is false for null, POLICY_HOLDER and USER |
| Users.EmailsUniqueAfterSet | src/main/java/com/virul/medisure/service/UserService.java:132-134 | Saving an account whose e-mail no other account holds keeps e-mails unique |
| Users.AdminCountAfterSet | src/main/java/com/virul/medisure/service/UserService.java:136-141 | Saving one account changes the ADMIN count only by that account losing or gaining ADMIN |
| Users.AdminCountAfterRemove | src/main/java/com/virul/medisure/service/UserService.java:165-170 | Deleting one account lowers the ADMIN count by one exactly when that account was an ADMIN |
| Users.UpdateGuardKeepsAnAdmin | src/main/java/com/virul/medisure/service/UserService.java:136-141 | When the last-admin guard of `updateUser` passes, at least one ADMIN remains |
| Users.DeleteGuardKeepsAnAdmin | src/main/java/com/virul/medisure/service/UserService.java:165-170 | When the last-admin guard of `deleteUser` passes, at least one ADMIN remains |
| Users.ChangeRoleCanRemoveLastAdmin | src/main/java/com/virul/medisure/service/UserService.java:175-179 | `changeUserRole` has no such guard: moving the only ADMIN to another role leaves no ADMIN |
| Users.FoundByOwnEmail | src/main/java/com/virul/medisure/service/UserService.java:181-199 | An account always matches a search for its own e-mail |
| Users.QueryIgnoresAsciiCase | src/main/java/com/virul/medisure/service/UserService.java:186-187 | Upper-casing a query does not change which accounts match |
| Users.CreateEmployeeRefusal | src/main/java/com/virul/medisure/service/UserService.java:53-80 | Accepts iff the name and e-mail are not blank, the password has at least 6 characters, the e-mail is free and the role is an employee role. Otherwise it gives the first failing check in the source order: blank name, blank e-mail, short or missing password, missing role, taken e-mail, ineligible role. A taken e-mail and an ineligible role are each stated as an iff |
| Users.UpdateUserRefusal | src/main/java/com/virul/medisure/service/UserService.java:109-141 | Accepts iff the texts are not blank, the new role is an employee role, the account exists and is an employee, the e-mail passes the pre-check, the last ADMIN keeps the role, and no other account holds the e-mail. Keeping the old e-mail up to letter case never gives EmailExists. EmailExists is given iff the earlier checks pass and a different e-mail is already taken |
| Users.UpdateUserRefusalCases | src/main/java/com/virul/medisure/service/UserService.java:117-141 | Valid fields with an unknown id give UserNotFound. The last-admin refusal happens exactly when the only ADMIN would lose the role. An accepted update keeps an ADMIN |
| Users.CaseOnlyEmailChangeReachesDatabase | src/main/java/com/virul/medisure/service/UserService.java:132-134 | The case-insensitive comparison lets through a case-only e-mail change that collides with another account, which only the unique constraint then refuses |
| Users.AcceptedUpdateKeepsInvariants | src/main/java/com/virul/medisure/service/UserService.java:109-151 | An accepted update keeps ids, unique e-mails and the ADMIN count of at least one |
| Users.UserService.constructor | src/main/java/com/virul/medisure/service/UserService.java:18-21 | The user table starts empty |
| Users.UserService.GetUserById | src/main/java/com/virul/medisure/service/UserService.java:101-107 | Returns the stored account, or UserNotFound iff the id is unknown |
| Users.UserService.RegisterUser | src/main/java/com/virul/medisure/service/UserService.java:29-51 | A taken e-mail is refused first. A mismatch is refused only when a confirmation is given. Otherwise exactly one POLICY_HOLDER account with the encoded password is added under the next id |
| Users.UserService.CreateEmployee | src/main/java/com/virul/medisure/service/UserService.java:53-85 | Refuses as `CreateEmployeeRefusal` says and changes nothing then. Otherwise adds exactly the new account with the requested role |
| Users.UserService.UpdateUser | src/main/java/com/virul/medisure/service/UserService.java:109-151 | Refuses as `UpdateUserRefusal` says and changes nothing then. Otherwise overwrites name, e-mail, phone and role of that one account. The ADMIN count never drops below one |
| Users.UserService.DeleteUser | src/main/java/com/virul/medisure/service/UserService.java:153-173 | Unknown id, non-employee account and last ADMIN are refused, the last exactly when the target is the only ADMIN. Otherwise that one account is removed; at least one ADMIN remains |
| Users.UserService.ChangeUserRole | src/main/java/com/virul/medisure/service/UserService.java:175-179 | Changes only the role of an existing account; an unknown id is refused |
| Users.UserService.SearchUsers | src/main/java/com/virul/medisure/service/UserService.java:181-199 | Returns stored accounts only. With a role, only that role. A null or empty query matches every account; otherwise the query must be a case-insensitive substring of the name or e-mail |
| Admin.ExtractString | src/main/java/com/virul/medisure/controller/AdminController.java:83-89 | A missing key gives null; a present value gives its trimmed text |
| Admin.FindRole | src/main/java/com/virul/medisure/controller/AdminController.java:97-100 | `valueOf`: finds the role with exactly that name, or reports that none has it |
| Admin.ParseRole | src/main/java/com/virul/medisure/controller/AdminController.java:91-101 | Succeeds with the role whose name equals the trimmed, upper-cased, space-to-underscore value. Otherwise fails with "Invalid role" and no role has that name |
| Admin.Sanitize | src/main/java/com/virul/medisure/controller/AdminController.java:95 | The value handed to `valueOf` is as long as the trimmed input, has no space and no lower-case ASCII letter |
| Admin.NamesAreDistinct | src/main/java/com/virul/medisure/model/User.java:91-102 | No two roles share a name |
| Admin.SanitizeConstant | src/main/java/com/virul/medisure/controller/AdminController.java:91-96 | Normalising a constant name, or its lower-case spelling, gives the constant name back |
| Admin.ParsesAs | src/main/java/com/virul/medisure/controller/AdminController.java:91-101 | Any value that normalises to a role's name parses as that role |
| Admin.ParseRoleRoundTrip | src/main/java/com/virul/medisure/controller/AdminController.java:91-101 | Every role's name, and its lower-case spelling, parses back to that role |
| Admin.CheckRole | src/main/java/com/virul/medisure/controller/AdminController.java:65-72 | Accepts iff the role is present and not blank, parses, and is an employee role. A missing or blank role is refused as required, an unparsable one as an invalid role naming the text, and a non-employee role as ineligible for creation or for management |
| Admin.CheckCreateEmployee | src/main/java/com/virul/medisure/controller/AdminController.java:44-72 | Accepts iff the name, e-mail and password are not blank, the confirmation is absent or equal, and the role passes `CheckRole`. Otherwise it refuses, in order, a blank name, a blank e-mail, a blank password, a present but different confirmation, then the role's own refusal. An accepted form carries the trimmed non-blank fields and an employee role whose name is the sanitized `role` value |
| Admin.CheckUpdateUser | src/main/java/com/virul/medisure/controller/AdminController.java:108-139 | Accepts iff the name and e-mail are not blank, the role passes `CheckRole`, and callers do not take ADMIN from their own account. Otherwise it refuses, in order, a blank name, a blank e-mail, the role's own refusal, then the self-demotion. An accepted form carries the trimmed non-blank name and e-mail and an employee role whose name is the sanitized `role` value |
| Admin.CheckDeleteUser | src/main/java/com/virul/medisure/controller/AdminController.java:170-172 | Refuses exactly when callers target their own account |
| Admin.ValidatedFormPassesServiceTextChecks | src/main/java/com/virul/medisure/controller/AdminController.java:53-81 | A form the controller accepts also passes the service's blank-name, blank-e-mail and role checks |
| Admin.AdminController.constructor | src/main/java/com/virul/medisure/controller/AdminController.java:20-22 | The controller is bound to the given user service |
| Admin.AdminController.CreateEmployee | src/main/java/com/virul/medisure/controller/AdminController.java:44-81 | A form refused by the controller checks changes nothing. For an accepted form, the result and the table are exactly what `CreateEmployeeRefusal` decides for its fields: the refusal with no change, or the new account with the next id, the form's fields and the encoded password |
| Admin.AdminController.UpdateUser | src/main/java/com/virul/medisure/controller/AdminController.java:108-149 | A refused form changes nothing. For an accepted form, the result and the table are exactly what `UpdateUserRefusal` decides: the refusal with no change, or that account with the form's name, e-mail, phone and role. Callers editing themselves keep ADMIN. The ADMIN count never drops below one |
| Admin.AdminController.DeleteUser | src/main/java/com/virul/medisure/controller/AdminController.java:162-182 | Deleting one's own account is refused with no change. Otherwise it succeeds iff the account exists, is an employee account and is not the last ADMIN, refusing those cases with UserNotFound, NotEmployeeAccount and LastAdminCannotBeDeleted. On success exactly that account goes, and an ADMIN remains |
| Policies.UpdateWritesRequestOnly | src/main/java/com/virul/medisure/service/PolicyService.java:47-57 | An update stores exactly the request's fields. It keeps the id and `isActive`, is idempotent, and rewriting a policy's own fields is a no-op |
| Policies.PolicyService.constructor | src/main/java/com/virul/medisure/service/PolicyService.java:13-15 | The policy table starts empty |
| Policies.PolicyService.GetActivePolicies | src/main/java/com/virul/medisure/service/PolicyService.java:21-23 | Returns exactly the active policies |
| Policies.PolicyService.GetPolicyById | src/main/java/com/virul/medisure/service/PolicyService.java:29-32 | Returns the stored policy, or PolicyNotFound iff the id is unknown |
| Policies.PolicyService.CreatePolicy | src/main/java/com/virul/medisure/service/PolicyService.java:34-45 | Adds one active policy under the next id whose fields are the request's |
| Policies.PolicyService.UpdatePolicy | src/main/java/com/virul/medisure/service/PolicyService.java:47-57 | Overwrites the request fields of that one policy and leaves `isActive`. An unknown id is refused with no change |
| Policies.PolicyService.DeletePolicy | src/main/java/com/virul/medisure/service/PolicyService.java:59-63 | Soft delete: only `isActive` becomes false, and the record stays |
| Policies.PolicyService.ActivatePolicy | src/main/java/com/virul/medisure/service/PolicyService.java:65-69 | Only `isActive` becomes true |
| Policies.SoftDeleteThenActivate | src/main/java/com/virul/medisure/service/PolicyService.java:59-69 | Soft delete removes exactly that id from the active set and is idempotent. Activating afterwards restores the table |
| Doctors.EditKeepsRegistrationsUnique | src/main/java/com/virul/medisure/service/DoctorService.java:56-61 | Editing specialization and availability keeps registration numbers unique |
| Doctors.DoctorService.constructor | src/main/java/com/virul/medisure/service/DoctorService.java:14-17 | The doctor table starts empty |
| Doctors.DoctorService.RegisterDoctor | src/main/java/com/virul/medisure/service/DoctorService.java:19-32 | An unknown user is refused with no change. Otherwise the user's role becomes DOCTOR, even when the registration number is taken and the insert then fails. On success one available doctor is added, linked to the user |
| Doctors.DoctorService.GetAvailableDoctors | src/main/java/com/virul/medisure/service/DoctorService.java:38-40 | Returns exactly the doctors marked available |
| Doctors.DoctorService.GetDoctorById | src/main/java/com/virul/medisure/service/DoctorService.java:46-49 | Returns the stored doctor, or DoctorNotFound iff the id is unknown |
| Doctors.DoctorService.UpdateDoctor | src/main/java/com/virul/medisure/service/DoctorService.java:56-61 | Overwrites only specialization and availability; an unknown id is refused |
| Doctors.DoctorService.DeleteDoctor | src/main/java/com/virul/medisure/service/DoctorService.java:63-67 | Soft delete: only availability becomes false, and the doctor leaves the available list |
| Enrollments.NewEnrollment | src/main/java/com/virul/medisure/service/PolicyHolderService.java:46-51 | A new enrollment starts today and ends the policy's duration in months later, with neither approval set |
| Enrollments.Upgrade | src/main/java/com/virul/medisure/service/PolicyHolderService.java:122-133 | Upgrading keeps the row and its owner, forces ACTIVE and keeps both approval flags: no re-approval |
| Enrollments.Cancel | src/main/java/com/virul/medisure/service/PolicyHolderService.java:168-192 | Succeeds iff ACTIVE and then only the status becomes CANCELLED; otherwise the deactivation error |
| Enrollments.Suspend | src/main/java/com/virul/medisure/service/PolicyHolderService.java:227-249 | Succeeds iff ACTIVE and then only the status becomes SUSPENDED; otherwise the suspension error |
| Enrollments.Reactivate | src/main/java/com/virul/medisure/service/PolicyHolderService.java:254-280 | Succeeds iff SUSPENDED and the end date is not before today, with ending today allowed; only the status becomes ACTIVE. Each refusal has its own error |
| Enrollments.Approve | src/main/java/com/virul/medisure/service/PolicyHolderService.java:304-375 | Refused unless PENDING_APPROVAL, and refused when this approver's flag is already set. Otherwise the result is the enrollment with this approver's flag set, their name and today's date recorded, and every other field kept, including the other approver's flag, name and date. It becomes ACTIVE iff the other approval was already there |
| Enrollments.PaidPurchaseStartsGated | src/main/java/com/virul/medisure/service/PolicyHolderService.java:95-102 | A paid purchase starts pending with no approval, which satisfies the sign-off gate |
| Enrollments.TransitionsKeepGate | src/main/java/com/virul/medisure/service/PolicyHolderService.java:122-375 | Approval, cancellation, suspension, reactivation, expiry and upgrade all keep the gate "pending approval or both approvals given" |
| Enrollments.DirectPurchaseBypassesGate | src/main/java/com/virul/medisure/service/PolicyHolderService.java:46-51 | A purchase without payment is ACTIVE with neither approval, so the unpaid path skips the sign-off gate |
| Enrollments.ActiveOnlyAfterBothApprovals | src/main/java/com/virul/medisure/service/PolicyHolderService.java:304-375 | Along any sequence of approvals, a gated pending enrollment stays pending or becomes ACTIVE, and it is ACTIVE iff both approvals have been given |
| Enrollments.ActiveRowIgnoresApprovals | src/main/java/com/virul/medisure/service/PolicyHolderService.java:307-309 | Approvals leave an enrollment that is not pending unchanged |
| Enrollments.ApprovalIsOncePerRole | src/main/java/com/virul/medisure/service/PolicyHolderService.java:311-313 | The same approver cannot approve twice |
| Enrollments.BothApprovalsActivate | src/main/java/com/virul/medisure/service/PolicyHolderService.java:304-375 | Both approvals, in either order, activate a pending enrollment |
| Enrollments.SuspendThenReactivate | src/main/java/com/virul/medisure/service/PolicyHolderService.java:227-280 | Suspending then reactivating restores the enrollment unless it has ended before today, in which case reactivation is refused |
| PolicyHolders.HasActivePolicy | src/main/java/com/virul/medisure/service/PolicyHolderService.java:148-152 | No row gives false. More than one row for the user fails as a non-unique result, exactly then |
| PolicyHolders.OneRowDecidesActive | src/main/java/com/virul/medisure/service/PolicyHolderService.java:148-152 | With one row, the answer is whether that row is ACTIVE |
| PolicyHolders.SecondRowBreaksLookup | src/main/java/com/virul/medisure/service/PolicyHolderService.java:41-51 | A user whose only row is not ACTIVE gets a second row on purchase, after which the per-user lookup fails |
| PolicyHolders.ExpireDue | src/main/java/com/virul/medisure/service/PolicyHolderService.java:197-222 | The expiry sweep keeps the ids and expires exactly the ACTIVE rows ending on or before today |
| PolicyHolders.SweepStep | src/main/java/com/virul/medisure/service/PolicyHolderService.java:202-218 | One loop step expires the row at hand exactly when it is due, and nothing else |
| PolicyHolders.SweepComplete | src/main/java/com/virul/medisure/service/PolicyHolderService.java:197-222 | Sweeping past every id gives the full expiry result and collects exactly the due ids |
| PolicyHolders.SweepLeavesNothingDue | src/main/java/com/virul/medisure/service/PolicyHolderService.java:197-222 | After the sweep nothing is due, so an immediate second sweep changes nothing and returns nothing |
| PolicyHolders.SweepMovesDueRowsOnly | src/main/java/com/virul/medisure/service/PolicyHolderService.java:197-222 | The sweep moves exactly the due rows from ACTIVE to EXPIRED; every other status keeps its rows |
| PolicyHolders.StatusCountsPartitionTable | src/main/java/com/virul/medisure/service/PolicyHolderService.java:292-299 | The per-status counts add up to the number of rows |
| PolicyHolders.ExpiryLogsAppend | src/main/java/com/virul/medisure/service/PolicyHolderService.java:209-217 | Each expired row contributes one UPDATE entry naming its end date and policy, in the order expired |
| PolicyHolders.SweptAdvance | src/main/java/com/virul/medisure/service/PolicyHolderService.java:202-218 | The sweep's loop invariant is kept by one step, whether the row is expired or skipped |
| PolicyHolders.PolicyHolderService.constructor | src/main/java/com/virul/medisure/service/PolicyHolderService.java:20-29 | The enrollment table starts empty |
| PolicyHolders.PolicyHolderService.FindByUser | src/main/java/com/virul/medisure/service/PolicyHolderService.java:148-152 | No row, exactly one row (returned), or NotUniqueResult iff more than one |
| PolicyHolders.PolicyHolderService.GetPolicyHolderById | src/main/java/com/virul/medisure/service/PolicyHolderService.java:154-157 | Returns the stored enrollment, or HolderNotFound iff the id is unknown |
| PolicyHolders.PolicyHolderService.UpgradePolicy | src/main/java/com/virul/medisure/service/PolicyHolderService.java:122-133 | The user's single row is upgraded in place. No row is refused; several rows fail as non-unique |
| PolicyHolders.PolicyHolderService.PurchasePolicy | src/main/java/com/virul/medisure/service/PolicyHolderService.java:31-57 | An unknown user, unknown policy or inactive policy is refused with no change. An ACTIVE holder's row is upgraded in place. Otherwise one ACTIVE enrollment is added, from today to today plus the duration, and the user becomes POLICY_HOLDER |
| PolicyHolders.PolicyHolderService.PurchasePolicyWithPayment | src/main/java/com/virul/medisure/service/PolicyHolderService.java:59-120 | As a purchase, but a failed payment is refused before anything changes. With an available policy and a successful payment it succeeds iff the user has at most one enrollment, and fails with NotUniqueResult otherwise. The charge is premium × duration. A new enrollment is PENDING_APPROVAL with both flags false. An ACTIVE row is upgraded without re-approval |
| PolicyHolders.PolicyHolderService.UpdatePolicyStatus | src/main/java/com/virul/medisure/service/PolicyHolderService.java:159-163 | Overwrites only the status of that one row, unguarded |
| PolicyHolders.PolicyHolderService.ApplyAndLog | src/main/java/com/virul/medisure/service/PolicyHolderService.java:168-192 | Saves a successful transition of one row and logs one UPDATE. A refused one changes neither table nor log |
| PolicyHolders.PolicyHolderService.DeactivatePolicy | src/main/java/com/virul/medisure/service/PolicyHolderService.java:168-192 | Applies `Cancel` to the row and logs the deactivation with reason and policy name; refusals change nothing |
| PolicyHolders.PolicyHolderService.SuspendPolicy | src/main/java/com/virul/medisure/service/PolicyHolderService.java:227-249 | Applies `Suspend` to the row and logs the suspension; refusals change nothing |
| PolicyHolders.PolicyHolderService.ReactivatePolicy | src/main/java/com/virul/medisure/service/PolicyHolderService.java:254-280 | Applies `Reactivate` to the row and logs the reactivation; refusals change nothing |
| PolicyHolders.PolicyHolderService.ApprovePolicy | src/main/java/com/virul/medisure/service/PolicyHolderService.java:304-375 | Applies `Approve` for the policy manager or finance officer and logs the approval by that approver; refusals change nothing |
| PolicyHolders.PolicyHolderService.DeactivateExpiredPolicies | src/main/java/com/virul/medisure/service/PolicyHolderService.java:197-222 | The table becomes the expiry sweep of the old one. The returned list is exactly the due rows, each now EXPIRED. One audit entry is appended per returned row |
| PolicyHolders.PolicyHolderService.SweepOne | src/main/java/com/virul/medisure/service/PolicyHolderService.java:202-218 | One iteration of the sweep loop keeps its invariant |
| PolicyHolders.PolicyHolderService.ExpireRow | src/main/java/com/virul/medisure/service/PolicyHolderService.java:203-217 | Expires one row and logs exactly one UPDATE for it |
| PolicyHolders.PolicyHolderService.GetActivePolicyCount | src/main/java/com/virul/medisure/service/PolicyHolderService.java:285-287 | Counts exactly the ACTIVE rows |
| PolicyHolders.PolicyHolderService.GetPolicyCountByStatus | src/main/java/com/virul/medisure/service/PolicyHolderService.java:292-299 | Every status has an entry, equal to the number of rows in that status |
| PolicyHolders.PolicyHolderService.GetPendingApprovalPolicies | src/main/java/com/virul/medisure/service/PolicyHolderService.java:380-382 | Returns exactly the PENDING_APPROVAL rows |
| Claims.NewClaim | src/main/java/com/virul/medisure/service/ClaimService.java:30-39 | A submitted claim is SUBMITTED, open and without remarks. It is linked to the holder and carries the request's fields |
| Claims.Reviewed | src/main/java/com/virul/medisure/service/ClaimService.java:73-90 | A review overwrites status and remarks and keeps everything else |
| Claims.ReviewIsUnguarded | src/main/java/com/virul/medisure/service/ClaimService.java:73-76 | Any status can be set from any status, including reopening a closed claim, and a review is idempotent |
| Claims.ReviewIsReversible | src/main/java/com/virul/medisure/service/ClaimService.java:73-76 | Reviewing back to the old status and remarks restores the claim |
| Claims.ClaimService.constructor | src/main/java/com/virul/medisure/service/ClaimService.java:14-19 | The claim table starts empty |
| Claims.ClaimService.MayClaim | src/main/java/com/virul/medisure/service/ClaimService.java:21-28 | A claim is allowed only on the existing policy the existing holder holds |
| Claims.ClaimService.SubmitClaim | src/main/java/com/virul/medisure/service/ClaimService.java:21-53 | Refuses an unknown holder, an unknown policy, or a policy other than the holder's own, with no change. Otherwise adds one SUBMITTED claim and one CREATE entry by the holder's e-mail |
| Claims.ClaimService.GetClaimsByStatus | src/main/java/com/virul/medisure/service/ClaimService.java:59-61 | Returns exactly the claims with that status |
| Claims.ClaimService.GetClaimsByPolicyHolder | src/main/java/com/virul/medisure/service/ClaimService.java:63-66 | Unknown holder fails; otherwise exactly that holder's claims |
| Claims.ClaimService.GetClaimById | src/main/java/com/virul/medisure/service/ClaimService.java:68-71 | Returns the stored claim, or ClaimNotFound iff the id is unknown |
| Claims.ClaimService.ReviewClaim | src/main/java/com/virul/medisure/service/ClaimService.java:73-90 | Overwrites status and remarks of that claim, unguarded, and logs one UPDATE by CLAIMS_MANAGER |
| Claims.ClaimService.ForwardToFinance | src/main/java/com/virul/medisure/service/ClaimService.java:92-109 | Sets FORWARDED_TO_FINANCE from any status, overwrites remarks and logs one FORWARD |
| Finance.ClaimStatusAfter | src/main/java/com/virul/medisure/service/FinanceService.java:36-41 | APPROVED gives APPROVED_BY_FINANCE, REJECTED gives REJECTED, PENDING_REVIEW keeps the claim's status |
| Finance.DecisionClosesClaim | src/main/java/com/virul/medisure/service/FinanceService.java:36-41 | After a finance decision the claim is open iff the decision is PENDING_REVIEW and it was open |
| Finance.DecisionIgnoresPriorStatus | src/main/java/com/virul/medisure/service/FinanceService.java:23-41 | A final decision does not depend on the claim's prior status: there is no forwarded-first precondition |
| Finance.FinanceService.constructor | src/main/java/com/virul/medisure/service/FinanceService.java:12-17 | The finance record table starts empty |
| Finance.FinanceService.ProcessClaim | src/main/java/com/virul/medisure/service/FinanceService.java:19-53 | An unknown claim or manager is refused before anything is written. Otherwise one record is stored and the claim takes the mapped status and the finance remarks. Two entries are logged, the claim UPDATE then the record CREATE |
| Finance.FinanceService.GetFinanceRecordsByStatus | src/main/java/com/virul/medisure/service/FinanceService.java:59-61 | Returns exactly the records with that status |
| Finance.FinanceService.GetFinanceRecordById | src/main/java/com/virul/medisure/service/FinanceService.java:63-66 | Returns the stored record, or the not-found error iff the id is unknown |
| Finance.FinanceService.GetFinanceRecordsByClaim | src/main/java/com/virul/medisure/service/FinanceService.java:68-71 | Unknown claim fails; otherwise exactly that claim's records |
| Appointments.BookingKeepsNoDoubleBooking | src/main/java/com/virul/medisure/service/AppointmentService.java:31-39 | Adding an appointment whose slot is free keeps "no two appointments share doctor, date and time" |
| Appointments.StatusChangeKeepsNoDoubleBooking | src/main/java/com/virul/medisure/service/AppointmentService.java:87-89 | A status change keeps the no-double-booking invariant |
| Appointments.CancelledSlotStaysTaken | src/main/java/com/virul/medisure/service/AppointmentService.java:31-39 | The slot check ignores status: a cancelled appointment still blocks its slot |
| Appointments.AppointmentService.constructor | src/main/java/com/virul/medisure/service/AppointmentService.java:14-19 | The appointment table starts empty |
| Appointments.AppointmentService.MayBook | src/main/java/com/virul/medisure/service/AppointmentService.java:21-39 | A booking is allowed only with an existing, available doctor, and only when no stored appointment of that doctor has that date and time |
| Appointments.AppointmentService.BookAppointment | src/main/java/com/virul/medisure/service/AppointmentService.java:21-62 | Refuses, in order, an unknown holder, an unknown doctor, an unavailable doctor and a taken slot, each with no change. Otherwise adds one SCHEDULED appointment from the request and logs one CREATE |
| Appointments.AppointmentService.GetAppointmentsByDoctor | src/main/java/com/virul/medisure/service/AppointmentService.java:68-71 | Unknown doctor fails; otherwise exactly that doctor's appointments |
| Appointments.AppointmentService.GetAppointmentsByPolicyHolder | src/main/java/com/virul/medisure/service/AppointmentService.java:73-76 | Unknown holder fails; otherwise exactly that holder's appointments |
| Appointments.AppointmentService.GetAppointmentsByStatus | src/main/java/com/virul/medisure/service/AppointmentService.java:78-80 | Returns exactly the appointments in that status |
| Appointments.AppointmentService.GetAppointmentById | src/main/java/com/virul/medisure/service/AppointmentService.java:82-85 | Returns the stored appointment, or the not-found error iff the id is unknown |
| Appointments.AppointmentService.UpdateAppointmentStatus | src/main/java/com/virul/medisure/service/AppointmentService.java:87-103 | Overwrites only the status, unguarded, and logs one UPDATE by DOCTOR |
| Appointments.AppointmentService.GetTodayAppointments | src/main/java/com/virul/medisure/service/AppointmentService.java:105-108 | Returns exactly that doctor's appointments dated today |
| Appointments.TodayHasDistinctTimes | src/main/java/com/virul/medisure/service/AppointmentService.java:105-108 | Under the invariant, a doctor's appointments for one day all have distinct times |
| Dashboard.SingleRoleGoesHome | src/main/java/com/virul/medisure/controller/DashboardController.java:59-88 | A user with one role lands on that role's dashboard |
| Dashboard.DashboardRoute | src/main/java/com/virul/medisure/controller/DashboardController.java:59-88 | No authentication goes to the login page. ADMIN wins over every other role, then POLICY_HOLDER or USER. Any other page is the home of some role the user holds |
| Dashboard.HomeOf | src/main/java/com/virul/medisure/controller/DashboardController.java:65-83 | Every role has a dashboard. POLICY_HOLDER and USER go to the policy holder page, and every employee role but DOCTOR and SALES_OFFICER goes to the admin page |
| Dashboard.LoginOnlyWithoutRoles | src/main/java/com/virul/medisure/controller/DashboardController.java:59-88 | The route is the login page iff the authentication is missing or holds no role |
| Dashboard.HeldRoleLeavesLogin | src/main/java/com/virul/medisure/controller/DashboardController.java:59-88 | Holding any role routes away from the login page |
| Dashboard.GetEmployeeRoles | src/main/java/com/virul/medisure/controller/DashboardController.java:682-686 | Lists exactly the roles other than POLICY_HOLDER and USER |
| Dashboard.CanBookAppointments | src/main/java/com/virul/medisure/controller/DashboardController.java:144-145 | True iff the policy type is PREMIUM or SENIOR |
| Dashboard.ActiveClaims | src/main/java/com/virul/medisure/controller/DashboardController.java:156-159 | Exactly the number of claims neither approved by finance nor rejected, as the filtered list counts them. So it never exceeds the number of claims, equals it iff every claim is open, and is zero iff none is |
| Dashboard.DivHalfUp | src/main/java/com/virul/medisure/controller/DashboardController.java:177 | `divide(…, HALF_UP)`: the nearest integer, halves rounded away from zero |
| Dashboard.NearestBelowHalf | src/main/java/com/virul/medisure/controller/DashboardController.java:177 | The rounding formula is within half a unit of the exact ratio |
| Dashboard.CoverageUsed | src/main/java/com/virul/medisure/controller/DashboardController.java:170-182 | Zero without positive coverage and never above 100%. It is exactly 100% iff approved/coverage rounds HALF_UP to at least one, which includes every total of at least the coverage. Below 100% it is the HALF_UP rounding of approved/coverage, for negative totals too |
| Dashboard.ApprovedTotal | src/main/java/com/virul/medisure/controller/DashboardController.java:170-173 | Not negative when no amount is, and zero when finance approved no claim |
| Dashboard.RoundsToWhole | src/main/java/com/virul/medisure/controller/DashboardController.java:177-182 | A HALF_UP-rounded ratio reaches 100% exactly when the exact ratio is at least half a unit below 100% |
| Dashboard.AtLeastWhole | src/main/java/com/virul/medisure/controller/DashboardController.java:177-181 | Rounding a ratio of at least one does not fall below 100% |
| Dashboard.ApprovedTotalAppend | src/main/java/com/virul/medisure/controller/DashboardController.java:170-173 | The approved total adds up over any split of the claims |
| Dashboard.OnlyApprovedClaimsCount | src/main/java/com/virul/medisure/controller/DashboardController.java:170-173 | A claim adds its amount to the approved total only if finance approved it |
| Dashboard.RecentClaims | src/main/java/com/virul/medisure/controller/DashboardController.java:163-166 | At most five claims, newest first, drawn from the holder's claims, and none left out is newer than one kept |
| Dashboard.NewestPrefix | src/main/java/com/virul/medisure/controller/DashboardController.java:163-166 | Any prefix of the newest-first order is ordered, drawn from the input, and no newer claim is left out |
| Dashboard.LeftOutNoNewer | src/main/java/com/virul/medisure/controller/DashboardController.java:163-166 | After a newest-first sort, the claims cut by `limit` are no newer than the kept ones |
| Dashboard.Commission | src/main/java/com/virul/medisure/controller/DashboardController.java:383-387 | Exactly 5% of `ActivePremiums`, in hundredths of a minor unit. With `CommissionPerEnrollment`, that is 5% of the premium of each ACTIVE enrollment and nothing for the others |
| Dashboard.ActivePremiums | src/main/java/com/virul/medisure/controller/DashboardController.java:383-385 | Zero for no enrollments and not negative when no premium is. With `OnlyActivePremiumsCount`, it is the sum of the policy premiums of exactly the ACTIVE enrollments |
| Dashboard.OnlyActivePremiumsCount | src/main/java/com/virul/medisure/controller/DashboardController.java:383-385 | One more enrollment adds its policy's premium to the sum iff it is ACTIVE |
| Dashboard.CommissionPerEnrollment | src/main/java/com/virul/medisure/controller/DashboardController.java:383-387 | No enrollments earn no commission. One more earns 5% of its policy's premium iff it is ACTIVE, and nothing otherwise |
| Dashboard.CommissionAdds | src/main/java/com/virul/medisure/controller/DashboardController.java:383-387 | Commission adds up over any split of the enrollments, and rows that are not ACTIVE add nothing |
| Dashboard.ActivePremiumsAppend | src/main/java/com/virul/medisure/controller/DashboardController.java:383-385 | The premium sum adds up over any split of the enrollments |
| Dashboard.InactivePremiumsZero | src/main/java/com/virul/medisure/controller/DashboardController.java:383-385 | Rows that are not ACTIVE contribute no premium |
| Dashboard.RejectionReason | src/main/java/com/virul/medisure/controller/DashboardController.java:790-792 | A non-blank reason is used trimmed; a missing or blank one becomes "Doctor is unavailable at this time". The result is never blank |
| Dashboard.CompleteAppointment | src/main/java/com/virul/medisure/controller/DashboardController.java:796-803 | Refuses an unknown appointment, or one belonging to another doctor, with no change. Otherwise only the status becomes COMPLETED, and exactly one UPDATE entry by DOCTOR naming COMPLETED is appended to the log |
| Employees.CreateRefusal | src/main/java/com/virul/medisure/service/EmployeeService.java:24-39 | Accepts iff the e-mail, any non-empty phone number and the employee id are all free. A taken e-mail is reported first |
| Employees.Pick | src/main/java/com/virul/medisure/service/EmployeeService.java:74-104 | A null request field keeps the stored value; a given one replaces it |
| Employees.Merge | src/main/java/com/virul/medisure/service/EmployeeService.java:74-104 | Keeps id and password. For each of the ten request fields (username, e-mail, names, phone, employee id, department, hire date, role, active), a null field keeps the stored value and a given one replaces it |
| Employees.MergeLaws | src/main/java/com/virul/medisure/service/EmployeeService.java:74-104 | An all-null request changes nothing, and applying a request twice is applying it once |
| Employees.UpdateRefusal | src/main/java/com/virul/medisure/service/EmployeeService.java:62-72 | Accepts iff a changed e-mail is free, a changed non-empty phone number is free, and no other employee holds the merged employee id. EmailExists is given iff a changed e-mail is taken |
| Employees.CreateKeepsUnique | src/main/java/com/virul/medisure/service/EmployeeService.java:24-54 | An accepted creation keeps e-mails, phone numbers and employee ids unique |
| Employees.UpdateKeepsUnique | src/main/java/com/virul/medisure/service/EmployeeService.java:58-108 | An accepted update keeps e-mails, phone numbers and employee ids unique |
| Employees.EmployeeService.constructor | src/main/java/com/virul/medisure/service/EmployeeService.java:19-22 | The employee table starts empty |
| Employees.EmployeeService.CreateEmployee | src/main/java/com/virul/medisure/service/EmployeeService.java:24-56 | Refuses exactly as `CreateRefusal` says, with no change. Otherwise adds one active employee built from the request |
| Employees.EmployeeService.UpdateEmployee | src/main/java/com/virul/medisure/service/EmployeeService.java:58-109 | Unknown id returns empty with no change. A refused update changes nothing. Otherwise the stored employee becomes the merge, which takes every given field and keeps every null one |
| Employees.EmployeeService.DeleteEmployee | src/main/java/com/virul/medisure/service/EmployeeService.java:111-117 | Returns true iff the id existed; afterwards it is absent and nothing else changed |
| Employees.EmployeeService.ToggleEmployeeStatus | src/main/java/com/virul/medisure/service/EmployeeService.java:129-137 | Returns false for an unknown id with no change; otherwise negates `active` of that one employee |
| Employees.Toggled | src/main/java/com/virul/medisure/service/EmployeeService.java:132 | Negates `active` and nothing else |
| Employees.ToggleTwiceIsIdentity | src/main/java/com/virul/medisure/service/EmployeeService.java:129-137 | Toggling twice is the identity |
| Employees.ToggleKeepsUnique | src/main/java/com/virul/medisure/service/EmployeeService.java:129-137 | Toggling keeps the uniqueness invariants |
| Tickets.NewTicket | src/main/java/com/virul/medisure/service/TicketService.java:25-37 | A new ticket is OPEN, unassigned, unresolved and owned by the caller, with the request's fields |
| Tickets.Assigned | src/main/java/com/virul/medisure/service/TicketService.java:72-84 | Assignment sets the assignee and IN_PROGRESS from any status and changes nothing else but the update time |
| Tickets.WithStatus | src/main/java/com/virul/medisure/service/TicketService.java:86-101 | Any status is accepted. `resolvedAt` is set to now for RESOLVED or CLOSED and otherwise kept |
| Tickets.ResolvedAtIsNeverCleared | src/main/java/com/virul/medisure/service/TicketService.java:86-101 | Once set, `resolvedAt` stays set through status changes and assignment |
| Tickets.ReopenedTicketKeepsResolution | src/main/java/com/virul/medisure/service/TicketService.java:93-95 | A resolved then reopened ticket is open yet still carries its resolution time |
| Tickets.PublicComments | src/main/java/com/virul/medisure/service/TicketService.java:118-126 | Exactly the ticket's non-internal comments, ordered by creation time |
| Tickets.NewCommentVisibility | src/main/java/com/virul/medisure/service/TicketService.java:103-126 | A new comment shows up in the public list iff it is for that ticket and not internal |
| Tickets.TicketService.constructor | src/main/java/com/virul/medisure/service/TicketService.java:20-23 | Tickets and comments start empty |
| Tickets.TicketService.CreateTicket | src/main/java/com/virul/medisure/service/TicketService.java:25-37 | Adds exactly the new ticket under the next id |
| Tickets.TicketService.GetTicketComments | src/main/java/com/virul/medisure/service/TicketService.java:118-126 | Unknown ticket fails. Otherwise it returns exactly the ticket's public comments, oldest first, each as often as it is stored |
| Tickets.TicketService.AssignTicket | src/main/java/com/virul/medisure/service/TicketService.java:72-84 | Unknown ticket fails with no change; otherwise that ticket is assigned and returned with its public comments |
| Tickets.TicketService.UpdateTicketStatus | src/main/java/com/virul/medisure/service/TicketService.java:86-101 | Unknown ticket fails with no change; otherwise that ticket takes the status as `WithStatus` says |
| Tickets.TicketService.AddComment | src/main/java/com/virul/medisure/service/TicketService.java:103-116 | Unknown ticket fails; otherwise exactly one comment with the given text, author and internal flag is appended |
| SalesReview.Reviewed | src/main/java/com/virul/medisure/service/SalesReviewService.java:46-55 | A review takes status, notes and reviewer from the request and stamps the time, changing nothing else |
| SalesReview.ApprovedBy | src/main/java/com/virul/medisure/service/SalesReviewService.java:86-100 | Approval sets APPROVED and the reviewer, keeps the notes, and changes nothing else |
| SalesReview.ReviewNotice | src/main/java/com/virul/medisure/service/SalesReviewService.java:57-61 | A review emits one notification iff the new status is MISSING_INFO |
| SalesReview.DecisionsAgainstReview | src/test/java/com/virul/medisure/SalesReviewServiceTest.java:86-93 | Approval is a review to APPROVED that keeps the notes. Only MISSING_INFO reviews notify |
| SalesReview.WithStatusIn | src/main/java/com/virul/medisure/service/SalesReviewService.java:34-40 | Exactly the applications whose status is in the set |
| SalesReview.ForReview | src/main/java/com/virul/medisure/service/SalesReviewService.java:34-40 | Exactly the SUBMITTED or UNDER_REVIEW applications |
| SalesReview.PendingIsPartOfQueue | src/main/java/com/virul/medisure/service/SalesReviewService.java:24-40 | The pending list is part of the review queue, which is pending plus under review |
| SalesReview.DecisionLeavesQueue | src/main/java/com/virul/medisure/service/SalesReviewService.java:34-40 | Giving an application any other status removes exactly it from the review queue |
| SalesReview.SalesReviewService.constructor | src/main/java/com/virul/medisure/service/SalesReviewService.java:19-22 | The service holds the given applications and no notifications |
| SalesReview.SalesReviewService.GetPendingApplications | src/main/java/com/virul/medisure/service/SalesReviewService.java:24-27 | Exactly the SUBMITTED applications |
| SalesReview.SalesReviewService.GetApplicationsByStatus | src/main/java/com/virul/medisure/service/SalesReviewService.java:29-32 | Exactly the applications with that status |
| SalesReview.SalesReviewService.GetApplicationsForReview | src/main/java/com/virul/medisure/service/SalesReviewService.java:34-40 | Exactly the SUBMITTED or UNDER_REVIEW applications |
| SalesReview.SalesReviewService.GetApplicationById | src/main/java/com/virul/medisure/service/SalesReviewService.java:42-44 | The stored application, or empty iff the id is unknown |
| SalesReview.SalesReviewService.ReviewApplication | src/main/java/com/virul/medisure/service/SalesReviewService.java:46-65 | Unknown id returns empty with no save and no notification. Otherwise the review is saved, unguarded, and notifies iff MISSING_INFO |
| SalesReview.SalesReviewService.RequestAdditionalInfo | src/main/java/com/virul/medisure/service/SalesReviewService.java:67-84 | Sets MISSING_INFO with notes and reviewer and emits exactly one missing-info notification; an unknown id changes nothing |
| SalesReview.SalesReviewService.ApproveApplication | src/main/java/com/virul/medisure/service/SalesReviewService.java:86-100 | Sets APPROVED without touching the notes and emits exactly one approval notification; an unknown id changes nothing |
| SalesReview.SalesReviewService.RejectApplication | src/main/java/com/virul/medisure/service/SalesReviewService.java:102-119 | Sets REJECTED with the notes and emits exactly one rejection notification; an unknown id changes nothing |
| Purchases.Merge | src/main/java/com/virul/medisure/service/PolicyPurchaseService.java:62-80 | The null-skipping update keeps id, policy and holder and takes each given field |
| Purchases.MergeLaws | src/main/java/com/virul/medisure/service/PolicyPurchaseService.java:62-80 | An all-null update changes nothing, and applying one twice is applying it once. Re-applying the old fields undoes any update of a fully set purchase |
| Purchases.Expiring | src/main/java/com/virul/medisure/repository/PolicyPurchaseRepository.java:30-31 | Exactly the ACTIVE purchases whose expiry date is on or before the date |
| Purchases.ExpiringGrowsWithDate | src/main/java/com/virul/medisure/service/PolicyPurchaseService.java:90-92 | A later date never removes a purchase from the expiring list |
| Purchases.UpdateAndExpiry | src/main/java/com/virul/medisure/service/PolicyPurchaseService.java:62-92 | Setting a status other than ACTIVE takes a purchase off the expiring list. An update that sets neither status nor expiry date does not change membership |
| Purchases.PolicyPurchaseService.constructor | src/main/java/com/virul/medisure/service/PolicyPurchaseService.java:21-25 | The purchase table starts empty |
| Purchases.PolicyPurchaseService.CreatePolicyPurchase | src/main/java/com/virul/medisure/service/PolicyPurchaseService.java:27-40 | An unknown policy, then an unknown holder, is refused with no change. Otherwise exactly the request's purchase is added under the next id |
| Purchases.PolicyPurchaseService.GetPolicyPurchaseById | src/main/java/com/virul/medisure/service/PolicyPurchaseService.java:42-44 | The stored purchase, or empty iff the id is unknown |
| Purchases.PolicyPurchaseService.UpdatePolicyPurchase | src/main/java/com/virul/medisure/service/PolicyPurchaseService.java:62-80 | Unknown id returns empty with no change; otherwise that purchase becomes the merge |
| Purchases.PolicyPurchaseService.DeletePolicyPurchase | src/main/java/com/virul/medisure/service/PolicyPurchaseService.java:82-88 | Returns true iff the id existed; afterwards it is absent and nothing else changed |
| Purchases.PolicyPurchaseService.GetExpiringPolicies | src/main/java/com/virul/medisure/service/PolicyPurchaseService.java:90-92 | Exactly the ACTIVE purchases with an expiry date on or before the given date |

## Left out

- The notification service only prints. Here it is a list of notification events that the sales-review operations append to.
- Payments: the payment record, the transaction id (a UUID plus the clock) and the simulated delay. The payment outcome is a boolean input to `PurchasePolicyWithPayment`.
- Clocks: `LocalDate.now()` and `LocalDateTime.now()` are the parameters `today` and `now`.
- Password hashing is the opaque constructor `Encoded`.
- Security, authentication, JWT handling, `AuthService` and every HTTP, redirect and view-model detail of the controllers.
- File storage, PDFs and uploads.
- The frontend.
- The seed data.
- Paged finders (`getAllEmployees`, `getEmployeesByRole`, `getActiveEmployees` and the other `Pageable` queries) are not modelled. They are plain repository reads.
- Response DTO mapping is not modelled. Results are the stored records.
- TicketService's listing and counting queries (`getUserTickets`, `getAssignedTickets`, `getAllTickets`, `getTicketCount…`) are not modelled. They are plain filters of the same kind as those modelled elsewhere.
- The appointment actions accept, reject, edit and delete are called by the controllers, but AppointmentService as written does not define them. Only the reject reason and the complete action, which use existing methods, are modelled.
- Floating point: the coverage percentage is exact, in hundredths of a percent, with no final `doubleValue()`. The finance `approvedAmount` is an opaque optional integer.
- Amount formatting (`NumberFormat`) is left out. Commission is an exact integer in hundredths of a minor unit.
- PolicyHolders.PolicyHolderService.DeactivateExpiredPolicies: the returned list follows ascending id order, because the repository's row order is not specified. The audit entries follow that order.
- Users.EmailOf and Users.FullNameOf give an empty string for a reference to a missing user, where the source would throw a null-pointer exception.
- SalesReview.SalesReviewService.ReviewApplication: a review request with a null status is not modelled. The status is always given.
- Purchases.PolicyPurchaseService.CreatePolicyPurchase: a request that already carries an id always gets a fresh one here, whereas `save` would then update the existing row.
- Users.UpdateUserRefusal states the acceptance as an iff, EmailExists as an iff, and the unknown-id and last-admin refusals (with `UpdateUserRefusalCases`). It does not spell out which error each of the other refusals returns.
- Employees.UpdateRefusal states the acceptance as an iff and EmailExists as an iff. It does not tell PhoneExists and DuplicateKey apart.
- Employees.CreateRefusal names the error only for a taken e-mail. The other refusals are covered by the iff but not told apart.
- The unique constraints on e-mails, registration numbers and employee ids are modelled as a `DuplicateKey` failure that leaves the table unchanged. No transaction wraps these service calls, so earlier writes stay. In `RegisterDoctor`, the role change is kept when the doctor insert fails, in the model as in the source.
- Users.UserService.DeleteUser: the database refuses to delete an account that a doctor, finance record, ticket, ticket comment, payment or policy-holder row still references (the non-null foreign keys in Doctor.java:25, FinanceRecord.java:30, Ticket.java:41, TicketComment.java:31, Payment.java:26 and PolicyHolder.java:26). Those tables belong to other services here, so the model deletes the account anyway and can leave such rows pointing at a missing account.
- Concurrency: there are no locks or version fields, and races on approvals or bookings fall outside a sequential model.
- Upper (`Common.Upper`): Java's `toUpperCase()` is Unicode-aware and follows the default locale, and it can change the length ('ß' becomes "SS"). The model upper-cases the ASCII letters only.
- Lower (`Common.Lower`): Java's `toLowerCase()` is Unicode-aware and follows the default locale. The model lower-cases the ASCII letters only, and `Common.EqualsIgnoreCase` compares through these two mappings.
- ParseRole (`Admin.ParseRole`): because upper-casing is ASCII only, a spelling that Java maps onto a constant name through a non-ASCII letter (the dotless 'ı', U+0131, in "admın") is rejected here but accepted by the source.
- SearchUsers (`Users.UserService.SearchUsers`): matching ignores ASCII letter case only. A query that differs from a name only in a non-ASCII letter's case ("É" against "émile") matches in the source but not here.
- AuditLogs.Text: amounts appear as whole minor units in plain decimal, where the source concatenates `BigDecimal.toString()` ("1500.00"). Dates appear through `ShowDate`.
- The `createdAt` and `updatedAt` stamps that entities take at construction or on update are modelled as the creation instant of tickets, ticket comments, sales reviews, claims and appointments, and as the update instant of tickets and sales reviews. Accounts, enrollments, policies, doctors and payments carry no stamps, and no `updatedAt` is kept for claims or appointments.
- Purchases.PolicyPurchaseService: the purchase's policy and holder are resolved against the `Policies` and `PolicyHolders` tables. In the source, the purchase entity refers to the `policy` package's `Policy` and the `user` package's `PolicyHolder`, while the repositories the service calls are typed over `model.Policy` (PolicyRepository.java:10) and `model.PolicyHolder` (PolicyHolderRepository.java:12). The mismatch is not modelled.
- The `User` entity in the `user` package, its `UserRole` there, `PolicyApplicationStatus`, the `policy.PolicyPurchase` entity and `PolicyPurchaseStatus` are not part of this model. Their fields are taken from the services that use them.
