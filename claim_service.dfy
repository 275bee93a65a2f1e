/** `ClaimService`: a policy holder submits a claim against the policy they
    hold; the claims manager reviews it and forwards it to finance. */
module Claims {
  import opened Common
  import opened Calendar
  import opened AuditLogs
  import Users
  import Policies
  import PolicyHolders

  datatype ClaimStatus =
    | Submitted | UnderReview | ApprovedByClaims | ForwardedToFinance
    | ApprovedByFinance | Rejected | RequiresCorrection

  /** The enum constant's name, as string concatenation prints it. */
  function StatusName(s: ClaimStatus): string
  {
    match s
    case Submitted => "SUBMITTED"
    case UnderReview => "UNDER_REVIEW"
    case ApprovedByClaims => "APPROVED_BY_CLAIMS"
    case ForwardedToFinance => "FORWARDED_TO_FINANCE"
    case ApprovedByFinance => "APPROVED_BY_FINANCE"
    case Rejected => "REJECTED"
    case RequiresCorrection => "REQUIRES_CORRECTION"
  }

  /** A claim still being worked on: finance has neither paid nor refused it. */
  predicate IsOpen(s: ClaimStatus)
  {
    s != ApprovedByFinance && s != Rejected
  }

  /** One `claims` row. Amounts are whole minor units; `createdAt` is the
      instant the row was built. */
  datatype Claim = Claim(
    id: int,
    policyHolderId: int,
    policyId: int,
    claimDate: Date,
    amountClaimed: int,
    description: string,
    status: ClaimStatus,
    remarks: Option<string>,
    medicalDiagnosis: Option<string>,
    hospitalName: Option<string>,
    treatmentDate: Option<Date>,
    createdAt: int)

  /** `ClaimRequest`: what the holder fills in. */
  datatype ClaimRequest = ClaimRequest(
    policyId: int,
    claimDate: Date,
    amountClaimed: int,
    description: string,
    medicalDiagnosis: Option<string>,
    hospitalName: Option<string>,
    treatmentDate: Option<Date>)

  /** The claim a request becomes: SUBMITTED, no remarks yet, every request
      field carried over. */
  function NewClaim(id: int, holderId: int, req: ClaimRequest, now: int): (c: Claim)
    ensures c.id == id && c.policyHolderId == holderId && c.createdAt == now
    ensures c.status == Submitted && c.remarks == None && IsOpen(c.status)
    ensures RequestOf(c) == req
  {
    Claim(id, holderId, req.policyId, req.claimDate, req.amountClaimed, req.description,
          Submitted, None, req.medicalDiagnosis, req.hospitalName, req.treatmentDate, now)
  }

  /** The request a claim was built from. */
  function RequestOf(c: Claim): ClaimRequest
  {
    ClaimRequest(c.policyId, c.claimDate, c.amountClaimed, c.description,
                 c.medicalDiagnosis, c.hospitalName, c.treatmentDate)
  }

  /** The review step: status and remarks are overwritten, whatever the
      claim's status was. */
  function Reviewed(c: Claim, status: ClaimStatus, remarks: Option<string>): (r: Claim)
    ensures r.status == status && r.remarks == remarks
    ensures r.id == c.id && r.policyHolderId == c.policyHolderId && r.createdAt == c.createdAt
    ensures RequestOf(r) == RequestOf(c)
  {
    c.(status := status, remarks := remarks)
  }

  /** Reviewing has no guard: a claim finance has already settled can be sent
      back to any status, open ones included, and a review repeated with the
      same arguments changes nothing more. */
  lemma {:induction false} ReviewIsUnguarded(c: Claim, status: ClaimStatus, remarks: Option<string>)
    ensures Reviewed(c, status, remarks).status == status
    ensures Reviewed(Reviewed(c, status, remarks), status, remarks) == Reviewed(c, status, remarks)
    ensures !IsOpen(c.status) && IsOpen(status) ==> IsOpen(Reviewed(c, status, remarks).status)
  {
  }

  /** A review undoes itself: reviewing back to the old status and remarks
      restores the claim exactly. */
  lemma {:induction false} ReviewIsReversible(c: Claim, status: ClaimStatus, remarks: Option<string>)
    ensures Reviewed(Reviewed(c, status, remarks), c.status, c.remarks) == c
  {
  }

  class ClaimService {
    var claims: map<int, Claim>
    var nextId: int
    const holders: PolicyHolders.PolicyHolderService
    const policies: Policies.PolicyService
    const audit: AuditLogService

    ghost predicate Valid()
      reads this
    {
      nextId >= 1 && forall k :: k in claims ==> 1 <= k < nextId && claims[k].id == k
    }

    constructor (holders: PolicyHolders.PolicyHolderService, policies: Policies.PolicyService,
                 audit: AuditLogService)
      ensures Valid() && claims == map[]
      ensures this.holders == holders && this.policies == policies && this.audit == audit
    {
      claims := map[];
      nextId := 1;
      this.holders := holders;
      this.policies := policies;
      this.audit := audit;
    }

    /** Whether `submitClaim` accepts: the holder and the policy exist and the
        policy is the one the holder currently holds. */
    predicate MayClaim(holderId: int, policyId: int)
      reads holders, policies
      ensures MayClaim(holderId, policyId) ==>
        holderId in holders.holders && policyId == holders.holders[holderId].policyId && policyId in policies.policies
    {
      holderId in holders.holders && policyId in policies.policies
      && holders.holders[holderId].policyId == policyId
    }

    /** `submitClaim`. The holder is looked up first, then the policy, then
        ownership is checked; a claim that passes is stored as SUBMITTED and
        one CREATE entry by the holder's e-mail is logged. */
    method SubmitClaim(holderId: int, req: ClaimRequest, now: int) returns (r: Result<Claim>)
      requires Valid() && audit.Valid()
      modifies this, audit
      ensures Valid() && audit.Valid()
      ensures r.Ok? <==> MayClaim(holderId, req.policyId)
      ensures holderId !in holders.holders ==> r == Err(HolderNotFound)
      ensures holderId in holders.holders && req.policyId !in policies.policies ==> r == Err(PolicyNotFound)
      ensures ((holderId in holders.holders && req.policyId in policies.policies
                && holders.holders[holderId].policyId != req.policyId) ==> r == Err(PolicyNotOwned))
      ensures (r.Err? ==> claims == old(claims) && nextId == old(nextId)
                          && audit.entries == old(audit.entries))
      ensures (r.Ok? ==>
        r.value == NewClaim(old(nextId), holderId, req, now)
        && claims == old(claims)[old(nextId) := r.value] && nextId == old(nextId) + 1
        && audit.entries == old(audit.entries)
             + [AuditLog(|old(audit.entries)| + 1, ClaimEntity, r.value.id, Create,
                         Users.EmailOf(holders.users.users, holders.holders[holderId].userId),
                         now, ClaimSubmitted(req.amountClaimed))])
    {
      var holder := holders.GetPolicyHolderById(holderId);
      if holder.Err? {
        return Err(holder.failure);
      }
      var policy := policies.GetPolicyById(req.policyId);
      if policy.Err? {
        return Err(policy.failure);
      }
      if holder.value.policyId != req.policyId {
        return Err(PolicyNotOwned);
      }
      var c := NewClaim(nextId, holderId, req, now);
      claims := claims[nextId := c];
      nextId := nextId + 1;
      audit.LogAction(ClaimEntity, c.id, Create,
                      Users.EmailOf(holders.users.users, holder.value.userId), ClaimSubmitted(req.amountClaimed), now);
      r := Ok(c);
    }

    /** `getClaimsByStatus`: exactly the claims in that status. */
    function GetClaimsByStatus(status: ClaimStatus): (r: map<int, Claim>)
      reads this
      ensures forall k :: k in r <==> k in claims && claims[k].status == status
      ensures forall k :: k in r ==> r[k] == claims[k]
    {
      Select(claims, (c: Claim) => c.status == status)
    }

    /** `getClaimsByPolicyHolder`: an unknown holder fails, otherwise that
        holder's claims. */
    function GetClaimsByPolicyHolder(holderId: int): (r: Result<map<int, Claim>>)
      reads this, holders
      ensures r.Err? <==> holderId !in holders.holders
      ensures r.Err? ==> r.failure == HolderNotFound
      ensures r.Ok? ==> forall k :: k in r.value <==> k in claims && claims[k].policyHolderId == holderId
      ensures r.Ok? ==> forall k :: k in r.value ==> r.value[k] == claims[k]
    {
      var holder := holders.GetPolicyHolderById(holderId);
      if holder.Err? then Err(holder.failure)
      else Ok(Select(claims, (c: Claim) => c.policyHolderId == holderId))
    }

    /** `getClaimById`: "Claim not found" for an unknown id. */
    function GetClaimById(id: int): (r: Result<Claim>)
      reads this
      ensures r.Ok? <==> id in claims
      ensures r.Ok? ==> r.value == claims[id]
      ensures r.Err? ==> r.failure == ClaimNotFound
    {
      if id in claims then Ok(claims[id]) else Err(ClaimNotFound)
    }

    /** `reviewClaim`: overwrites the status and the remarks of an existing
        claim, from any status to any status, and logs one UPDATE by the
        claims manager. */
    method ReviewClaim(claimId: int, status: ClaimStatus, remarks: Option<string>, now: int)
      returns (r: Result<Claim>)
      requires Valid() && audit.Valid()
      modifies this, audit
      ensures Valid() && audit.Valid() && nextId == old(nextId)
      ensures r.Err? <==> claimId !in old(claims)
      ensures (r.Err? ==> r.failure == ClaimNotFound && claims == old(claims)
                          && audit.entries == old(audit.entries))
      ensures (r.Ok? ==>
        r.value == Reviewed(old(claims)[claimId], status, remarks)
        && claims == old(claims)[claimId := r.value]
        && audit.entries == old(audit.entries)
             + [AuditLog(|old(audit.entries)| + 1, ClaimEntity, claimId, Update, "CLAIMS_MANAGER",
                         now, ClaimReviewed(StatusName(status), remarks))])
    {
      var found := GetClaimById(claimId);
      if found.Err? {
        return Err(found.failure);
      }
      var c := Reviewed(found.value, status, remarks);
      claims := claims[claimId := c];
      audit.LogAction(ClaimEntity, claimId, Update, "CLAIMS_MANAGER",
                      ClaimReviewed(StatusName(status), remarks), now);
      r := Ok(c);
    }

    /** `forwardToFinance`: FORWARDED_TO_FINANCE whatever the prior status,
        remarks overwritten, one FORWARD entry by the claims manager. */
    method ForwardToFinance(claimId: int, remarks: Option<string>, now: int) returns (r: Result<Claim>)
      requires Valid() && audit.Valid()
      modifies this, audit
      ensures Valid() && audit.Valid() && nextId == old(nextId)
      ensures r.Err? <==> claimId !in old(claims)
      ensures (r.Err? ==> r.failure == ClaimNotFound && claims == old(claims)
                          && audit.entries == old(audit.entries))
      ensures (r.Ok? ==>
        r.value == Reviewed(old(claims)[claimId], ForwardedToFinance, remarks)
        && claims == old(claims)[claimId := r.value]
        && audit.entries == old(audit.entries)
             + [AuditLog(|old(audit.entries)| + 1, ClaimEntity, claimId, Forward, "CLAIMS_MANAGER",
                         now, ClaimForwarded(remarks))])
    {
      var found := GetClaimById(claimId);
      if found.Err? {
        return Err(found.failure);
      }
      var c := Reviewed(found.value, ForwardedToFinance, remarks);
      claims := claims[claimId := c];
      audit.LogAction(ClaimEntity, claimId, Forward, "CLAIMS_MANAGER", ClaimForwarded(remarks), now);
      r := Ok(c);
    }
  }
}
