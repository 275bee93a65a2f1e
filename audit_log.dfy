/** `AuditLogService`: an append-only log of who did what to which entity. */
module AuditLogs {
  import opened Common
  import opened Calendar

  datatype EntityType =
    | UserEntity | PolicyEntity | ClaimEntity | AppointmentEntity
    | DoctorEntity | PolicyHolderEntity | FinanceRecordEntity

  datatype Action = Create | Update | Delete | Approve | Reject | Forward | Login | Logout

  /** What an entry's `details` text says, one constructor per message the
      services write; `Text` renders it. Amounts are whole minor units and
      statuses are passed as their enum names. */
  datatype Detail =
    | PolicyDeactivated(reason: Option<string>, policyName: string)
    | PolicyExpired(endDate: Date, policyName: string)
    | PolicySuspended(reason: Option<string>, policyName: string)
    | PolicyReactivated(policyName: string)
    | PolicyApprovedByPolicyManager(policyName: string)
    | PolicyApprovedByFinanceOfficer(policyName: string)
    | ClaimSubmitted(amountClaimed: int)
    | ClaimReviewed(claimStatus: string, remarks: Option<string>)
    | ClaimForwarded(remarks: Option<string>)
    | ClaimProcessed(financeStatus: string, approvedAmount: Option<int>)
    | AppointmentBooked(doctorName: string)
    | AppointmentStatusUpdated(appointmentStatus: string)

  /** A reason as the services print it: the text, or "No reason provided". */
  function ReasonText(reason: Option<string>): string
  {
    if reason.Some? then reason.value else "No reason provided"
  }

  /** The fixed opening words of each kind of message. */
  function Lead(d: Detail): string
  {
    match d
    case PolicyDeactivated(_, _) => "Policy deactivated. Reason: "
    case PolicyExpired(_, _) => "Policy automatically expired. End date: "
    case PolicySuspended(_, _) => "Policy suspended. Reason: "
    case PolicyReactivated(_) => "Policy reactivated from suspended status. Policy: "
    case PolicyApprovedByPolicyManager(_) => "Policy approved by Policy Manager. Policy: "
    case PolicyApprovedByFinanceOfficer(_) => "Policy approved by Finance Officer. Policy: "
    case ClaimSubmitted(_) => "Claim submitted for amount: "
    case ClaimReviewed(_, _) => "Claim reviewed with status: "
    case ClaimForwarded(_) => "Claim forwarded to finance. Remarks: "
    case ClaimProcessed(_, _) => "Claim processed with status: "
    case AppointmentBooked(_) => "Appointment booked with Dr. "
    case AppointmentStatusUpdated(_) => "Appointment status updated to: "
  }

  /** A policy message: one that ends with the policy's name. */
  predicate NamesPolicy(d: Detail)
  {
    d.PolicyDeactivated? || d.PolicyExpired? || d.PolicySuspended? || d.PolicyReactivated?
    || d.PolicyApprovedByPolicyManager? || d.PolicyApprovedByFinanceOfficer?
  }

  /** The values that follow a message's opening words. */
  function Values(d: Detail): (r: string)
    ensures NamesPolicy(d) ==> |d.policyName| <= |r| && r[|r| - |d.policyName|..] == d.policyName
  {
    match d
    case PolicyDeactivated(reason, name) => ReasonText(reason) + ". Policy: " + name
    case PolicyExpired(endDate, name) => ShowDate(endDate) + ". Policy: " + name
    case PolicySuspended(reason, name) => ReasonText(reason) + ". Policy: " + name
    case PolicyReactivated(name) => name
    case PolicyApprovedByPolicyManager(name) => name
    case PolicyApprovedByFinanceOfficer(name) => name
    case ClaimSubmitted(amount) => Show(amount)
    case ClaimReviewed(status, remarks) => status + ". Remarks: " + OrNull(remarks)
    case ClaimForwarded(remarks) => OrNull(remarks)
    case ClaimProcessed(status, amount) =>
      status + ". Approved amount: " + (if amount.Some? then Show(amount.value) else "null")
    case AppointmentBooked(doctorName) => doctorName
    case AppointmentStatusUpdated(status) => status
  }

  /** The `details` column: the message's opening words, then its values.
      Amounts appear as whole minor units in decimal (`Show`), not in the
      two-decimal form `BigDecimal.toString` gives them. */
  function Text(d: Detail): (r: string)
    ensures Lead(d) <= r
    ensures NamesPolicy(d) ==> |d.policyName| <= |r| && r[|r| - |d.policyName|..] == d.policyName
  {
    var lead, v := Lead(d), Values(d);
    EndsOfConcat(lead, v, if NamesPolicy(d) then |d.policyName| else 0);
    lead + v
  }

  /** A concatenation starts with its first part and ends like its second. */
  lemma {:induction false} EndsOfConcat(a: string, b: string, n: nat)
    requires n <= |b|
    ensures a <= a + b
    ensures (a + b)[|a + b| - n..] == b[|b| - n..]
  {
    assert (a + b)[..|a|] == a;
  }

  /** One `audit_logs` row; `timestamp` is the instant of `LocalDateTime.now()`. */
  datatype AuditLog = AuditLog(
    id: int,
    entityType: EntityType,
    entityId: int,
    action: Action,
    performedBy: string,
    timestamp: int,
    details: Detail)

  class AuditLogService {
    /** The table in insertion order; ids are assigned 1, 2, 3, ... */
    var entries: seq<AuditLog>

    ghost predicate Valid()
      reads this
    {
      forall i :: 0 <= i < |entries| ==> entries[i].id == i + 1
    }

    constructor ()
      ensures Valid() && entries == []
    {
      entries := [];
    }

    /** `logAction`: appends exactly one entry and leaves every earlier one as it was. */
    method LogAction(entityType: EntityType, entityId: int, action: Action,
                     performedBy: string, details: Detail, now: int)
      requires Valid()
      modifies this
      ensures Valid()
      ensures entries == old(entries)
        + [AuditLog(|old(entries)| + 1, entityType, entityId, action, performedBy, now, details)]
    {
      var log := AuditLog(|entries| + 1, entityType, entityId, action, performedBy, now, details);
      entries := entries + [log];
    }

    /** `getAuditLogsByEntity`: the entries about one entity, oldest first. */
    function GetAuditLogsByEntity(entityType: EntityType, entityId: int): (r: seq<AuditLog>)
      reads this
      ensures forall e :: e in r <==> e in entries && e.entityType == entityType && e.entityId == entityId
    {
      Where(entries, (e: AuditLog) => e.entityType == entityType && e.entityId == entityId)
    }

    /** `getAuditLogsByUser`: the entries performed by one e-mail address. */
    function GetAuditLogsByUser(email: string): (r: seq<AuditLog>)
      reads this
      ensures forall e :: e in r <==> e in entries && e.performedBy == email
    {
      Where(entries, (e: AuditLog) => e.performedBy == email)
    }

    /** `getAuditLogsByDateRange`: `timestamp BETWEEN start AND end`, both ends included. */
    function GetAuditLogsByDateRange(start: int, end: int): (r: seq<AuditLog>)
      reads this
      ensures forall e :: e in r <==> e in entries && start <= e.timestamp <= end
    {
      Where(entries, (e: AuditLog) => start <= e.timestamp <= end)
    }
  }

  /** Logging one action extends the history of its entity by exactly that
      entry and leaves the history of every other entity as it was. */
  lemma {:induction false} EntityHistoryGrowsByOne(before: seq<AuditLog>, log: AuditLog, entityType: EntityType, entityId: int)
    ensures var p := (e: AuditLog) => e.entityType == entityType && e.entityId == entityId;
      Where(before + [log], p)
        == Where(before, p) + (if log.entityType == entityType && log.entityId == entityId then [log] else [])
  {
    WhereAppend(before, log, (e: AuditLog) => e.entityType == entityType && e.entityId == entityId);
  }
}
