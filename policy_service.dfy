/** `PolicyService`: the catalogue of insurance policies, with soft delete. */
module Policies {
  import opened Common

  datatype PolicyType = Basic | Premium | Family | Senior

  /** One `policies` row. Amounts are in minor currency units. */
  datatype Policy = Policy(
    id: int,
    name: string,
    policyType: PolicyType,
    coverageAmount: int,
    premiumAmount: int,
    durationMonths: int,
    description: Option<string>,
    isActive: bool)

  /** `PolicyRequest`: the editable fields of a policy. */
  datatype PolicyRequest = PolicyRequest(
    name: string,
    policyType: PolicyType,
    coverageAmount: int,
    premiumAmount: int,
    durationMonths: int,
    description: Option<string>)

  /** The fields a request writes; `isActive` and the id are the caller's. */
  function WithRequest(p: Policy, req: PolicyRequest): Policy
  {
    p.(name := req.name, policyType := req.policyType, coverageAmount := req.coverageAmount,
       premiumAmount := req.premiumAmount, durationMonths := req.durationMonths,
       description := req.description)
  }

  /** The editable part of a policy, read back as a request. */
  function AsRequest(p: Policy): PolicyRequest
  {
    PolicyRequest(p.name, p.policyType, p.coverageAmount, p.premiumAmount, p.durationMonths, p.description)
  }

  /** An update is exactly "take the request's fields": reading them back gives
      the request, availability and identity are untouched, and updating twice
      with the same request is the same as once. */
  lemma {:induction false} UpdateWritesRequestOnly(p: Policy, req: PolicyRequest)
    ensures AsRequest(WithRequest(p, req)) == req
    ensures WithRequest(p, req).isActive == p.isActive && WithRequest(p, req).id == p.id
    ensures WithRequest(WithRequest(p, req), req) == WithRequest(p, req)
    ensures WithRequest(p, AsRequest(p)) == p
  {
  }

  class PolicyService {
    var policies: map<int, Policy>
    var nextId: int

    ghost predicate Valid()
      reads this
    {
      nextId >= 1 && forall k :: k in policies ==> 1 <= k < nextId && policies[k].id == k
    }

    constructor ()
      ensures Valid() && policies == map[]
    {
      policies := map[];
      nextId := 1;
    }

    /** `getActivePolicies` (`findByIsActiveTrue`). */
    function GetActivePolicies(): (r: map<int, Policy>)
      reads this
      ensures forall k :: k in r <==> k in policies && policies[k].isActive
      ensures forall k :: k in r ==> r[k] == policies[k]
    {
      Select(policies, (p: Policy) => p.isActive)
    }

    /** `getPolicyById`: "Policy not found" for an unknown id. */
    function GetPolicyById(id: int): (r: Result<Policy>)
      reads this
      ensures r.Ok? <==> id in policies
      ensures r.Ok? ==> r.value == policies[id]
      ensures r.Err? ==> r.failure == PolicyNotFound
    {
      if id in policies then Ok(policies[id]) else Err(PolicyNotFound)
    }

    /** `createPolicy`: a new available policy carrying the request's fields. */
    method CreatePolicy(req: PolicyRequest) returns (p: Policy)
      requires Valid()
      modifies this
      ensures Valid()
      ensures p.id == old(nextId) && p.isActive && AsRequest(p) == req
      ensures policies == old(policies)[p.id := p] && nextId == old(nextId) + 1
    {
      p := Policy(nextId, req.name, req.policyType, req.coverageAmount, req.premiumAmount,
                  req.durationMonths, req.description, true);
      policies := policies[nextId := p];
      nextId := nextId + 1;
    }

    /** `updatePolicy`: overwrites the six editable fields, keeps `isActive`. */
    method UpdatePolicy(id: int, req: PolicyRequest) returns (r: Result<Policy>)
      requires Valid()
      modifies this
      ensures Valid() && nextId == old(nextId)
      ensures id !in old(policies) ==> r == Err(PolicyNotFound) && policies == old(policies)
      ensures id in old(policies) ==>
        r == Ok(WithRequest(old(policies)[id], req)) && policies == old(policies)[id := r.value]
    {
      var found := GetPolicyById(id);
      if found.Err? {
        return Err(found.failure);
      }
      var p := WithRequest(found.value, req);
      policies := policies[id := p];
      r := Ok(p);
    }

    /** `deletePolicy`: a soft delete, the row stays and only `isActive` becomes false. */
    method DeletePolicy(id: int) returns (r: Result<()>)
      requires Valid()
      modifies this
      ensures Valid() && nextId == old(nextId)
      ensures id !in old(policies) ==> r == Err(PolicyNotFound) && policies == old(policies)
      ensures id in old(policies) ==>
        r == Ok(()) && policies == old(policies)[id := old(policies)[id].(isActive := false)]
    {
      var found := GetPolicyById(id);
      if found.Err? {
        return Err(found.failure);
      }
      policies := policies[id := found.value.(isActive := false)];
      r := Ok(());
    }

    /** `activatePolicy`: makes the policy available again. */
    method ActivatePolicy(id: int) returns (r: Result<Policy>)
      requires Valid()
      modifies this
      ensures Valid() && nextId == old(nextId)
      ensures id !in old(policies) ==> r == Err(PolicyNotFound) && policies == old(policies)
      ensures id in old(policies) ==>
        r == Ok(old(policies)[id].(isActive := true)) && policies == old(policies)[id := r.value]
    {
      var found := GetPolicyById(id);
      if found.Err? {
        return Err(found.failure);
      }
      var p := found.value.(isActive := true);
      policies := policies[id := p];
      r := Ok(p);
    }
  }

  /** Soft delete keeps the row and is idempotent; activation afterwards restores
      an available policy exactly, and the active listing loses only that id. */
  lemma {:induction false} SoftDeleteThenActivate(policies: map<int, Policy>, id: int)
    requires id in policies && policies[id].isActive
    ensures var deleted := policies[id := policies[id].(isActive := false)];
      id in deleted
      && deleted[id := deleted[id].(isActive := false)] == deleted
      && deleted[id := deleted[id].(isActive := true)] == policies
      && Select(deleted, (p: Policy) => p.isActive).Keys
           == Select(policies, (p: Policy) => p.isActive).Keys - {id}
  {
    var deleted := policies[id := policies[id].(isActive := false)];
    assert deleted[id := deleted[id].(isActive := true)] == policies;
  }
}
