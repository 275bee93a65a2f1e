/** `PolicyPurchaseService`: purchase records linking a policy to a policy
    holder, with partial updates and the expiring-purchases query. */
module Purchases {
  import opened Common
  import opened Calendar
  import Policies
  import PolicyHolders

  /** The status constant the expiring-purchases query compares with. */
  const ActiveStatus := "ACTIVE"

  /** One purchase row. The policy and the holder are referred to by id; the
      status is the name of its constant. */
  datatype PolicyPurchase = PolicyPurchase(
    id: int,
    policyId: int,
    policyHolderId: int,
    purchaseDate: Option<Date>,
    expiryDate: Option<Date>,
    status: Option<string>,
    documentPath: Option<string>)

  /** The purchase a caller submits for creation. */
  datatype PurchaseRequest = PurchaseRequest(
    policyId: int,
    policyHolderId: int,
    purchaseDate: Option<Date>,
    expiryDate: Option<Date>,
    status: Option<string>,
    documentPath: Option<string>)

  /** The details `updatePolicyPurchase` reads: `None` is a null field. */
  datatype PurchaseDetails = PurchaseDetails(
    purchaseDate: Option<Date>,
    expiryDate: Option<Date>,
    status: Option<string>,
    documentPath: Option<string>)

  /** The field copy of `updatePolicyPurchase`: a non-null detail overwrites
      the stored field, a null one leaves it; the policy and holder links are
      never touched. */
  function Merge(p: PolicyPurchase, d: PurchaseDetails): (r: PolicyPurchase)
    ensures r.id == p.id && r.policyId == p.policyId && r.policyHolderId == p.policyHolderId
    ensures r.purchaseDate == (if d.purchaseDate.Some? then d.purchaseDate else p.purchaseDate)
    ensures r.expiryDate == (if d.expiryDate.Some? then d.expiryDate else p.expiryDate)
    ensures r.status == (if d.status.Some? then d.status else p.status)
    ensures r.documentPath == (if d.documentPath.Some? then d.documentPath else p.documentPath)
  {
    p.(purchaseDate := if d.purchaseDate.Some? then d.purchaseDate else p.purchaseDate,
       expiryDate := if d.expiryDate.Some? then d.expiryDate else p.expiryDate,
       status := if d.status.Some? then d.status else p.status,
       documentPath := if d.documentPath.Some? then d.documentPath else p.documentPath)
  }

  /** The details of a purchase, read back. */
  function DetailsOf(p: PolicyPurchase): PurchaseDetails
  {
    PurchaseDetails(p.purchaseDate, p.expiryDate, p.status, p.documentPath)
  }

  /** Empty details change nothing; details applied twice act once; and
      writing back a purchase's own details restores it after any update. */
  lemma {:induction false} MergeLaws(p: PolicyPurchase, d: PurchaseDetails)
    ensures Merge(p, PurchaseDetails(None, None, None, None)) == p
    ensures Merge(Merge(p, d), d) == Merge(p, d)
    ensures p.purchaseDate.Some? && p.expiryDate.Some? && p.status.Some? && p.documentPath.Some?
            ==> Merge(Merge(p, d), DetailsOf(p)) == p
  {
  }

  /** Whether a purchase is returned by `findExpiringPolicies(date)`: its
      expiry date is on or before `date` and its status is ACTIVE. A null
      expiry date or status never matches. */
  predicate ExpiresBy(p: PolicyPurchase, date: Date)
  {
    p.expiryDate.Some? && NotAfter(p.expiryDate.value, date) && p.status == Some(ActiveStatus)
  }

  function Expiring(purchases: map<int, PolicyPurchase>, date: Date): (r: map<int, PolicyPurchase>)
    ensures forall k :: k in r <==> k in purchases && ExpiresBy(purchases[k], date)
    ensures forall k :: k in r ==> r[k] == purchases[k]
  {
    Select(purchases, (p: PolicyPurchase) => ExpiresBy(p, date))
  }

  /** A later date never drops a purchase from the expiring list. */
  lemma {:induction false} ExpiringGrowsWithDate(purchases: map<int, PolicyPurchase>, d1: Date, d2: Date)
    requires NotAfter(d1, d2)
    ensures Expiring(purchases, d1).Keys <= Expiring(purchases, d2).Keys
  {
    forall k | k in Expiring(purchases, d1)
      ensures k in Expiring(purchases, d2)
    {
      var e := purchases[k].expiryDate.value;
      assert NotAfter(e, d1);
      NotAfterTransitive(e, d1, d2);
    }
  }

  lemma {:induction false} NotAfterTransitive(a: Date, b: Date, c: Date)
    requires NotAfter(a, b) && NotAfter(b, c)
    ensures NotAfter(a, c)
  {
  }

  /** Setting a status other than ACTIVE takes a purchase off every expiring
      list; an update that leaves the status and expiry date null keeps its
      place on each list. */
  lemma {:induction false} UpdateAndExpiry(p: PolicyPurchase, d: PurchaseDetails, date: Date)
    ensures d.status.Some? && d.status != Some(ActiveStatus) ==> !ExpiresBy(Merge(p, d), date)
    ensures d.status.None? && d.expiryDate.None? ==> (ExpiresBy(Merge(p, d), date) <==> ExpiresBy(p, date))
  {
  }

  class PolicyPurchaseService {
    var purchases: map<int, PolicyPurchase>
    var nextId: int
    const policies: Policies.PolicyService
    const holders: PolicyHolders.PolicyHolderService

    ghost predicate Valid()
      reads this
    {
      nextId >= 1 && forall k :: k in purchases ==> 1 <= k < nextId && purchases[k].id == k
    }

    constructor (policies: Policies.PolicyService, holders: PolicyHolders.PolicyHolderService)
      ensures Valid() && purchases == map[] && this.policies == policies && this.holders == holders
    {
      purchases := map[];
      nextId := 1;
      this.policies := policies;
      this.holders := holders;
    }

    /** `createPolicyPurchase`: the policy is looked up first, then the
        holder; a purchase naming both is saved as given. */
    method CreatePolicyPurchase(req: PurchaseRequest) returns (r: Result<PolicyPurchase>)
      requires Valid()
      modifies this
      ensures Valid()
      ensures r.Ok? <==> req.policyId in policies.policies && req.policyHolderId in holders.holders
      ensures req.policyId !in policies.policies ==> r == Err(PurchasePolicyNotFound)
      ensures (req.policyId in policies.policies && req.policyHolderId !in holders.holders
               ==> r == Err(PurchaseHolderNotFound))
      ensures r.Err? ==> purchases == old(purchases) && nextId == old(nextId)
      ensures (r.Ok? ==>
        r.value == PolicyPurchase(old(nextId), req.policyId, req.policyHolderId, req.purchaseDate,
                                  req.expiryDate, req.status, req.documentPath)
        && purchases == old(purchases)[old(nextId) := r.value] && nextId == old(nextId) + 1)
    {
      var policy := policies.GetPolicyById(req.policyId);
      if policy.Err? {
        return Err(PurchasePolicyNotFound);
      }
      if req.policyHolderId !in holders.holders {
        return Err(PurchaseHolderNotFound);
      }
      var p := PolicyPurchase(nextId, req.policyId, req.policyHolderId, req.purchaseDate,
                              req.expiryDate, req.status, req.documentPath);
      purchases := purchases[nextId := p];
      nextId := nextId + 1;
      r := Ok(p);
    }

    /** `getPolicyPurchaseById`: empty for an unknown id. */
    function GetPolicyPurchaseById(id: int): (r: Option<PolicyPurchase>)
      reads this
      ensures r.Some? <==> id in purchases
      ensures r.Some? ==> r.value == purchases[id]
    {
      Find(purchases, id)
    }

    /** `updatePolicyPurchase`: empty and no change for an unknown id,
        otherwise the stored purchase merged with the details. */
    method UpdatePolicyPurchase(id: int, d: PurchaseDetails) returns (r: Option<PolicyPurchase>)
      requires Valid()
      modifies this
      ensures Valid() && nextId == old(nextId)
      ensures r.Some? <==> id in old(purchases)
      ensures r.None? ==> purchases == old(purchases)
      ensures r.Some? ==> r.value == Merge(old(purchases)[id], d) && purchases == old(purchases)[id := r.value]
    {
      if id !in purchases {
        return None;
      }
      var p := Merge(purchases[id], d);
      purchases := purchases[id := p];
      r := Some(p);
    }

    /** `deletePolicyPurchase`: true exactly when the id was on file; afterwards it is not. */
    method DeletePolicyPurchase(id: int) returns (deleted: bool)
      requires Valid()
      modifies this
      ensures Valid() && nextId == old(nextId)
      ensures deleted <==> id in old(purchases)
      ensures purchases == old(purchases) - {id}
    {
      deleted := id in purchases;
      if deleted {
        purchases := purchases - {id};
      }
    }

    /** `getExpiringPolicies`: exactly the ACTIVE purchases expiring on or before `date`. */
    function GetExpiringPolicies(date: Date): (r: map<int, PolicyPurchase>)
      reads this
      ensures (forall k :: k in r <==>
                 k in purchases && purchases[k].expiryDate.Some?
                 && NotAfter(purchases[k].expiryDate.value, date) && purchases[k].status == Some(ActiveStatus))
      ensures forall k :: k in r ==> r[k] == purchases[k]
    {
      Expiring(purchases, date)
    }
  }
}
