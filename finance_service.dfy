/** `FinanceService`: the finance manager settles a claim, which stores a
    finance record and moves the claim to its settled status. */
module Finance {
  import opened Common
  import opened AuditLogs
  import Users
  import Claims

  datatype FinanceStatus = Approved | Rejected | PendingReview

  /** The enum constant's name, as string concatenation prints it. */
  function StatusName(s: FinanceStatus): string
  {
    match s
    case Approved => "APPROVED"
    case Rejected => "REJECTED"
    case PendingReview => "PENDING_REVIEW"
  }

  /** One `finance_records` row. `approvedAmount` is optional and in whole
      minor units; `processedAt` is the instant the row was built. */
  datatype FinanceRecord = FinanceRecord(
    id: int,
    claimId: int,
    financeManagerId: int,
    status: FinanceStatus,
    remarks: Option<string>,
    approvedAmount: Option<int>,
    processedAt: int)

  /** The claim status a finance decision leaves: approval and rejection
      settle the claim, a pending review keeps whatever status it had. */
  function ClaimStatusAfter(current: Claims.ClaimStatus, decision: FinanceStatus): (r: Claims.ClaimStatus)
    ensures decision == Approved ==> r == Claims.ApprovedByFinance
    ensures decision == Rejected ==> r == Claims.Rejected
    ensures decision == PendingReview ==> r == current
  {
    match decision
    case Approved => Claims.ApprovedByFinance
    case Rejected => Claims.Rejected
    case PendingReview => current
  }

  /** After a finance decision the claim is still open exactly when the
      decision was a pending review and the claim was open before. */
  lemma {:induction false} DecisionClosesClaim(current: Claims.ClaimStatus, decision: FinanceStatus)
    ensures Claims.IsOpen(ClaimStatusAfter(current, decision))
        <==> decision == PendingReview && Claims.IsOpen(current)
  {
    match decision
    case Approved =>
    case Rejected =>
    case PendingReview =>
  }

  /** Settling needs no particular prior status: every claim status, open or
      not, forwarded to finance or not, is moved the same way. */
  lemma {:induction false} DecisionIgnoresPriorStatus(a: Claims.ClaimStatus, b: Claims.ClaimStatus,
                                                      decision: FinanceStatus)
    requires decision != PendingReview
    ensures ClaimStatusAfter(a, decision) == ClaimStatusAfter(b, decision)
  {
    match decision
    case Approved =>
    case Rejected =>
  }

  class FinanceService {
    var records: map<int, FinanceRecord>
    var nextId: int
    const claims: Claims.ClaimService
    const users: Users.UserService
    const audit: AuditLogService

    ghost predicate Valid()
      reads this
    {
      nextId >= 1 && forall k :: k in records ==> 1 <= k < nextId && records[k].id == k
    }

    constructor (claims: Claims.ClaimService, users: Users.UserService, audit: AuditLogService)
      ensures Valid() && records == map[]
      ensures this.claims == claims && this.users == users && this.audit == audit
    {
      records := map[];
      nextId := 1;
      this.claims := claims;
      this.users := users;
      this.audit := audit;
    }

    /** `processClaim`. The claim and then the manager are looked up; the
        record is saved; the claim gets the status the decision leaves and
        the finance remarks through the claims manager's review step; then the
        record's creation is logged. One call thus adds two entries, the
        claim's UPDATE first. The claim's prior status is not checked. */
    method ProcessClaim(claimId: int, managerId: int, status: FinanceStatus,
                        remarks: Option<string>, approvedAmount: Option<int>, now: int)
      returns (r: Result<FinanceRecord>)
      requires Valid() && claims.Valid() && audit.Valid()
      requires claims.audit == audit
      modifies this, claims, audit
      ensures Valid() && claims.Valid() && audit.Valid() && claims.nextId == old(claims.nextId)
      ensures r.Err? <==> claimId !in old(claims.claims) || managerId !in users.users
      ensures claimId !in old(claims.claims) ==> r == Err(ClaimNotFound)
      ensures claimId in old(claims.claims) && managerId !in users.users ==> r == Err(UserNotFound)
      ensures (r.Err? ==> records == old(records) && nextId == old(nextId)
                          && claims.claims == old(claims.claims) && audit.entries == old(audit.entries))
      ensures (r.Ok? ==>
        var before := old(claims.claims)[claimId];
        var after := ClaimStatusAfter(before.status, status);
        var n := |old(audit.entries)|;
        r.value == FinanceRecord(old(nextId), claimId, managerId, status, remarks, approvedAmount, now)
        && records == old(records)[old(nextId) := r.value] && nextId == old(nextId) + 1
        && claims.claims == old(claims.claims)[claimId := Claims.Reviewed(before, after, remarks)]
        && audit.entries == old(audit.entries)
             + [AuditLog(n + 1, ClaimEntity, claimId, Update, "CLAIMS_MANAGER", now,
                         ClaimReviewed(Claims.StatusName(after), remarks)),
                AuditLog(n + 2, FinanceRecordEntity, r.value.id, Create, users.users[managerId].email, now,
                         ClaimProcessed(StatusName(status), approvedAmount))])
    {
      var claim := claims.GetClaimById(claimId);
      if claim.Err? {
        return Err(claim.failure);
      }
      var manager := users.GetUserById(managerId);
      if manager.Err? {
        return Err(manager.failure);
      }
      var record := FinanceRecord(nextId, claimId, managerId, status, remarks, approvedAmount, now);
      records := records[nextId := record];
      nextId := nextId + 1;
      var reviewed := claims.ReviewClaim(claimId, ClaimStatusAfter(claim.value.status, status), remarks, now);
      audit.LogAction(FinanceRecordEntity, record.id, Create, manager.value.email,
                      ClaimProcessed(StatusName(status), approvedAmount), now);
      r := Ok(record);
    }

    /** `getFinanceRecordsByStatus`: exactly the records with that status. */
    function GetFinanceRecordsByStatus(status: FinanceStatus): (r: map<int, FinanceRecord>)
      reads this
      ensures forall k :: k in r <==> k in records && records[k].status == status
      ensures forall k :: k in r ==> r[k] == records[k]
    {
      Select(records, (f: FinanceRecord) => f.status == status)
    }

    /** `getFinanceRecordById`: "Finance record not found" for an unknown id. */
    function GetFinanceRecordById(id: int): (r: Result<FinanceRecord>)
      reads this
      ensures r.Ok? <==> id in records
      ensures r.Ok? ==> r.value == records[id]
      ensures r.Err? ==> r.failure == FinanceRecordNotFound
    {
      if id in records then Ok(records[id]) else Err(FinanceRecordNotFound)
    }

    /** `getFinanceRecordsByClaim`: an unknown claim fails, otherwise the
        records settling that claim. */
    function GetFinanceRecordsByClaim(claimId: int): (r: Result<map<int, FinanceRecord>>)
      reads this, claims
      ensures r.Err? <==> claimId !in claims.claims
      ensures r.Err? ==> r.failure == ClaimNotFound
      ensures r.Ok? ==> forall k :: k in r.value <==> k in records && records[k].claimId == claimId
      ensures r.Ok? ==> forall k :: k in r.value ==> r.value[k] == records[k]
    {
      var claim := claims.GetClaimById(claimId);
      if claim.Err? then Err(claim.failure)
      else Ok(Select(records, (f: FinanceRecord) => f.claimId == claimId))
    }
  }
}
