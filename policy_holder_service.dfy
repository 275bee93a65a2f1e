/** `PolicyHolderService`: the enrollment table, purchases, the status
    transitions with their audit trail, the expiry sweep and the status counts. */
module PolicyHolders {
  import opened Common
  import opened Calendar
  import opened Enrollments
  import opened AuditLogs
  import Users
  import Policies

  /** The rows of one user. */
  function RowsOf(holders: map<int, Enrollment>, userId: int): set<int>
  {
    set k | k in holders && holders[k].userId == userId
  }

  /** `hasActivePolicy`: the user's single row is ACTIVE. A CANCELLED, EXPIRED,
      SUSPENDED or pending row does not count, and a user with several rows
      makes the single-row finder behind it fail. */
  function HasActivePolicy(holders: map<int, Enrollment>, userId: int): (r: Result<bool>)
    ensures r.Err? <==> |RowsOf(holders, userId)| > 1
    ensures r.Err? ==> r.failure == NotUniqueResult
    ensures RowsOf(holders, userId) == {} ==> r == Ok(false)
  {
    var rows := RowsOf(holders, userId);
    if |rows| > 1 then Err(NotUniqueResult)
    else Ok(|rows| == 1 && forall k :: k in rows ==> holders[k].status == Active)
  }

  /** With one row, `hasActivePolicy` answers whether that row is ACTIVE. */
  lemma {:induction false} OneRowDecidesActive(holders: map<int, Enrollment>, userId: int, k: int)
    requires RowsOf(holders, userId) == {k}
    ensures HasActivePolicy(holders, userId) == Ok(holders[k].status == Active)
  {
  }

  /** A user whose only row is not ACTIVE gets a second row on purchase, after
      which the single-row finder fails for that user: every later purchase,
      upgrade or `hasActivePolicy` check for them is refused. */
  lemma {:induction false} SecondRowBreaksLookup(holders: map<int, Enrollment>, userId: int, k: int,
                                                 newId: int, row: Enrollment)
    requires RowsOf(holders, userId) == {k} && holders[k].status != Active
    requires newId !in holders && row.userId == userId
    ensures HasActivePolicy(holders, userId) == Ok(false)
    ensures HasActivePolicy(holders[newId := row], userId) == Err(NotUniqueResult)
  {
    OneRowDecidesActive(holders, userId, k);
    assert RowsOf(holders[newId := row], userId) == {k, newId};
  }

  /** `findByStatus`. */
  function StatusIds(holders: map<int, Enrollment>, status: EnrollmentStatus): set<int>
  {
    set k | k in holders && holders[k].status == status
  }

  /** The rows whose end date has come: `deactivateExpiredPolicies` acts on these. */
  function DueIds(holders: map<int, Enrollment>, today: Date): (ids: set<int>)
    ensures ids <= StatusIds(holders, Active)
  {
    set k | k in holders && DueForExpiry(holders[k], today)
  }

  /** The table after the expiry sweep. */
  function ExpireDue(holders: map<int, Enrollment>, today: Date): (r: map<int, Enrollment>)
    ensures r.Keys == holders.Keys
    ensures forall k :: k in holders ==>
      r[k] == if DueForExpiry(holders[k], today) then holders[k].(status := Expired) else holders[k]
  {
    map k | k in holders :: if DueForExpiry(holders[k], today) then holders[k].(status := Expired) else holders[k]
  }

  /** The table with only the rows below id `n` swept, and the ids swept so far. */
  function SweptBelow(holders: map<int, Enrollment>, today: Date, n: int): map<int, Enrollment>
  {
    map k | k in holders ::
      if k < n && DueForExpiry(holders[k], today) then holders[k].(status := Expired) else holders[k]
  }

  function DueBelow(holders: map<int, Enrollment>, today: Date, n: int): set<int>
  {
    set k | k in holders && k < n && DueForExpiry(holders[k], today)
  }

  lemma {:induction false} SweepStep(holders: map<int, Enrollment>, today: Date, n: int)
    ensures n in holders ==> SweptBelow(holders, today, n)[n] == holders[n]
    ensures SweptBelow(holders, today, n + 1) ==
      (if n in holders && DueForExpiry(holders[n], today)
       then SweptBelow(holders, today, n)[n := holders[n].(status := Expired)]
       else SweptBelow(holders, today, n))
    ensures DueBelow(holders, today, n + 1) ==
      DueBelow(holders, today, n) + (if n in holders && DueForExpiry(holders[n], today) then {n} else {})
  {
  }

  lemma {:induction false} SweepComplete(holders: map<int, Enrollment>, today: Date, n: int)
    requires forall k :: k in holders ==> k < n
    ensures SweptBelow(holders, today, n) == ExpireDue(holders, today)
    ensures DueBelow(holders, today, n) == DueIds(holders, today)
  {
  }

  /** After a sweep nothing is due any more, so an immediate second sweep finds nothing. */
  lemma {:induction false} SweepLeavesNothingDue(holders: map<int, Enrollment>, today: Date)
    ensures DueIds(ExpireDue(holders, today), today) == {}
    ensures ExpireDue(ExpireDue(holders, today), today) == ExpireDue(holders, today)
  {
  }

  /** The sweep moves exactly the due rows to EXPIRED: the ACTIVE rows afterwards
      are the ACTIVE rows that were not due, and the EXPIRED rows grow by the due ones. */
  lemma {:induction false} SweepMovesDueRowsOnly(holders: map<int, Enrollment>, today: Date)
    ensures StatusIds(ExpireDue(holders, today), Active) == StatusIds(holders, Active) - DueIds(holders, today)
    ensures StatusIds(ExpireDue(holders, today), Expired) == StatusIds(holders, Expired) + DueIds(holders, today)
    ensures forall s :: s != Active && s != Expired ==> StatusIds(ExpireDue(holders, today), s) == StatusIds(holders, s)
  {
    var after := ExpireDue(holders, today);
    assert StatusIds(after, Active) == StatusIds(holders, Active) - DueIds(holders, today);
    assert StatusIds(after, Expired) == StatusIds(holders, Expired) + DueIds(holders, today);
  }

  /** The five status counts add up to the number of enrollments. */
  lemma {:induction false} StatusCountsPartitionTable(holders: map<int, Enrollment>)
    ensures |StatusIds(holders, PendingApproval)| + |StatusIds(holders, Active)| + |StatusIds(holders, Expired)|
            + |StatusIds(holders, Cancelled)| + |StatusIds(holders, Suspended)| == |holders.Keys|
  {
    var p, a, e, c, s :=
      StatusIds(holders, PendingApproval), StatusIds(holders, Active), StatusIds(holders, Expired),
      StatusIds(holders, Cancelled), StatusIds(holders, Suspended);
    forall k | k in holders.Keys ensures k in p + a + e + c + s {
      match holders[k].status
      case PendingApproval => assert k in p;
      case Active => assert k in a;
      case Expired => assert k in e;
      case Cancelled => assert k in c;
      case Suspended => assert k in s;
    }
    assert holders.Keys == p + a + e + c + s;
    assert p !! a && (p + a) !! e && (p + a + e) !! c && (p + a + e + c) !! s;
    assert |p + a| == |p| + |a|;
    assert |p + a + e| == |p + a| + |e|;
    assert |p + a + e + c| == |p + a + e| + |c|;
  }

  /** The ids of a list of rows. */
  function IdsOf(rows: seq<Enrollment>): set<int>
  {
    if rows == [] then {} else IdsOf(rows[..|rows| - 1]) + {rows[|rows| - 1].id}
  }

  lemma {:induction false} IdsOfAppend(rows: seq<Enrollment>, row: Enrollment)
    ensures IdsOf(rows + [row]) == IdsOf(rows) + {row.id}
  {
    assert (rows + [row])[..|rows|] == rows;
  }

  function ApprovalDetail(who: Approver, policyName: string): Detail
  {
    if who == PolicyManagerApprover then PolicyApprovedByPolicyManager(policyName)
    else PolicyApprovedByFinanceOfficer(policyName)
  }

  /** The audit entries of a sweep, numbered on from `base`. */
  function ExpiryLogs(expired: seq<Enrollment>, base: int, names: map<int, Policies.Policy>,
                      performedBy: string, now: int): (r: seq<AuditLog>)
    ensures |r| == |expired|
    decreases |expired|
  {
    if expired == [] then []
    else
      var row := expired[|expired| - 1];
      ExpiryLogs(expired[..|expired| - 1], base, names, performedBy, now)
      + [AuditLog(base + |expired|, PolicyHolderEntity, row.id, Update, performedBy, now,
                  PolicyExpired(row.endDate, PolicyNameIn(names, row.policyId)))]
  }

  lemma {:induction false} ExpiryLogsAppend(expired: seq<Enrollment>, row: Enrollment, base: int, names: map<int, Policies.Policy>,
                         performedBy: string, now: int)
    ensures ExpiryLogs(expired + [row], base, names, performedBy, now)
         == ExpiryLogs(expired, base, names, performedBy, now)
            + [AuditLog(base + |expired| + 1, PolicyHolderEntity, row.id, Update, performedBy, now,
                        PolicyExpired(row.endDate, PolicyNameIn(names, row.policyId)))]
  {
    assert (expired + [row])[..|expired|] == expired;
  }

  /** The sweep's progress once every id below `id` has been looked at: the
      due rows among them are expired in `holders`, listed in `expired` and
      logged in `entries` after `prior`. */
  ghost predicate Swept(holders: map<int, Enrollment>, entries: seq<AuditLog>, names: map<int, Policies.Policy>,
                        id: int, performedBy: string, today: Date, now: int, expired: seq<Enrollment>,
                        start: map<int, Enrollment>, prior: seq<AuditLog>)
  {
    && (forall k :: k in start ==> start[k].id == k)
    && holders == SweptBelow(start, today, id)
    && |IdsOf(expired)| == |expired|
    && IdsOf(expired) == DueBelow(start, today, id)
    && (forall i :: 0 <= i < |expired| ==>
          expired[i].id in start && expired[i] == start[expired[i].id].(status := Expired))
    && entries == prior + ExpiryLogs(expired, |prior|, names, performedBy, now)
  }

  /** One id of the sweep keeps `Swept`, one id further on. */
  lemma {:induction false} SweptAdvance(h0: map<int, Enrollment>, e0: seq<AuditLog>, names: map<int, Policies.Policy>,
                     id: int, performedBy: string, today: Date, now: int, expired: seq<Enrollment>,
                     start: map<int, Enrollment>, prior: seq<AuditLog>,
                     h1: map<int, Enrollment>, e1: seq<AuditLog>, next: seq<Enrollment>)
    requires Swept(h0, e0, names, id, performedBy, today, now, expired, start, prior)
    requires id in h0 && DueForExpiry(h0[id], today) ==>
      && h1 == h0[id := h0[id].(status := Expired)]
      && next == expired + [h1[id]]
      && e1 == e0 + [AuditLog(|e0| + 1, PolicyHolderEntity, id, Update, performedBy, now,
                              PolicyExpired(h0[id].endDate, PolicyNameIn(names, h0[id].policyId)))]
    requires !(id in h0 && DueForExpiry(h0[id], today)) ==> h1 == h0 && e1 == e0 && next == expired
    ensures Swept(h1, e1, names, id + 1, performedBy, today, now, next, start, prior)
  {
    SweepStep(start, today, id);
    assert (id in h0) == (id in start);
    if id in h0 && DueForExpiry(h0[id], today) {
      var u := h1[id];
      assert h0[id] == start[id] && u == start[id].(status := Expired) && u.id == id;
      assert h1 == SweptBelow(start, today, id + 1);
      IdsOfAppend(expired, u);
      assert id !in IdsOf(expired);
      assert IdsOf(next) == DueBelow(start, today, id + 1);
      assert forall i :: 0 <= i < |next| ==> next[i].id in start && next[i] == start[next[i].id].(status := Expired);
      ExpiryLogsAppend(expired, u, |prior|, names, performedBy, now);
    }
  }

  /** A policy's current name; "" for a policy that is not on file, which the
      foreign key from `policy_holders` to `policies` rules out. */
  function PolicyNameIn(policies: map<int, Policies.Policy>, policyId: int): string
  {
    if policyId in policies then policies[policyId].name else ""
  }

  /** What `purchasePolicyWithPayment` returns: the enrollment and the amount
      charged for it. */
  datatype PaidPurchase = PaidPurchase(holder: Enrollment, amountCharged: int)

  class PolicyHolderService {
    var holders: map<int, Enrollment>
    var nextId: int
    const users: Users.UserService
    const policies: Policies.PolicyService
    const audit: AuditLogService

    ghost predicate Valid()
      reads this
    {
      nextId >= 1 && forall k :: k in holders ==> 1 <= k < nextId && holders[k].id == k
    }

    constructor (users: Users.UserService, policies: Policies.PolicyService, audit: AuditLogService)
      ensures Valid() && holders == map[]
      ensures this.users == users && this.policies == policies && this.audit == audit
    {
      holders := map[];
      nextId := 1;
      this.users := users;
      this.policies := policies;
      this.audit := audit;
    }

    function PolicyName(policyId: int): string
      reads this, policies
    {
      PolicyNameIn(policies.policies, policyId)
    }

    /** `findByUser`, a single-row finder: nothing, the one row, or a failure
        when the user has several rows. */
    method FindByUser(userId: int) returns (r: Result<Option<Enrollment>>)
      requires Valid()
      ensures r == Ok(None) <==> RowsOf(holders, userId) == {}
      ensures r.Err? <==> |RowsOf(holders, userId)| > 1
      ensures r.Err? ==> r.failure == NotUniqueResult
      ensures r.Ok? && r.value.Some? ==>
        RowsOf(holders, userId) == {r.value.value.id} && holders[r.value.value.id] == r.value.value
    {
      var rows := RowsOf(holders, userId);
      if rows == {} {
        return Ok(None);
      }
      if |rows| > 1 {
        return Err(NotUniqueResult);
      }
      ghost var w := Member(rows);
      SingletonMembersEqual(rows);
      var k :| k in rows;
      assert rows == {k};
      r := Ok(Some(holders[k]));
    }

    /** `getPolicyHolderById`: "Policy holder not found" for an unknown id. */
    function GetPolicyHolderById(id: int): (r: Result<Enrollment>)
      reads this
      ensures r.Ok? <==> id in holders
      ensures r.Ok? ==> r.value == holders[id]
      ensures r.Err? ==> r.failure == HolderNotFound
    {
      if id in holders then Ok(holders[id]) else Err(HolderNotFound)
    }

    /** `upgradePolicy`: the user's single row takes the new policy, restarts
        today and is forced ACTIVE, whatever its status was. */
    method UpgradePolicy(userId: int, policy: Policies.Policy, today: Date) returns (r: Result<Enrollment>)
      requires Valid() && ValidDate(today)
      modifies this
      ensures Valid() && nextId == old(nextId)
      ensures |old(RowsOf(holders, userId))| > 1 ==> r == Err(NotUniqueResult) && holders == old(holders)
      ensures old(RowsOf(holders, userId)) == {} ==> r == Err(HolderNotFound) && holders == old(holders)
      ensures |old(RowsOf(holders, userId))| == 1 ==> r.Ok?
      ensures r.Ok? ==>
        old(RowsOf(holders, userId)) == {r.value.id}
        && r.value == Upgrade(old(holders)[r.value.id], policy, today)
        && holders == old(holders)[r.value.id := r.value]
    {
      var row := FindByUser(userId);
      if row.Err? {
        return Err(row.failure);
      }
      if row.value.None? {
        return Err(HolderNotFound);
      }
      var e := row.value.value;
      assert e.id in holders && holders[e.id] == e;
      var u := Upgrade(e, policy, today);
      holders := holders[e.id := u];
      r := Ok(u);
    }

    /** `purchasePolicy`: an available policy either upgrades the user's ACTIVE
        row in place or adds an ACTIVE row and makes the user a POLICY_HOLDER. */
    method PurchasePolicy(userId: int, policyId: int, today: Date) returns (r: Result<Enrollment>)
      requires Valid() && users.Valid() && policies.Valid() && ValidDate(today)
      modifies this, users
      ensures Valid() && users.Valid() && users.nextId == old(users.nextId)
      ensures r.Err? ==> holders == old(holders) && nextId == old(nextId) && users.users == old(users.users)
      ensures userId !in old(users.users) ==> r == Err(UserNotFound)
      ensures userId in old(users.users) && policyId !in policies.policies ==> r == Err(PolicyNotFound)
      ensures userId in old(users.users) && policyId in policies.policies && !policies.policies[policyId].isActive
              ==> r == Err(PolicyNotAvailable)
      ensures r.Ok? ==>
        userId in old(users.users) && policyId in policies.policies && policies.policies[policyId].isActive
        && r.value.userId == userId && r.value.policyId == policyId && r.value.status == Active
        && r.value.startDate == today && r.value.endDate == PlusMonths(today, policies.policies[policyId].durationMonths)
      ensures r.Ok? && old(HasActivePolicy(holders, userId)) == Ok(true) ==>
        r.value.id in old(holders) && holders == old(holders)[r.value.id := r.value]
        && r.value == Upgrade(old(holders)[r.value.id], policies.policies[policyId], today)
        && nextId == old(nextId) && users.users == old(users.users)
      ensures r.Ok? && old(HasActivePolicy(holders, userId)) == Ok(false) ==>
        r.value == NewEnrollment(old(nextId), userId, policies.policies[policyId], today, Active)
        && holders == old(holders)[old(nextId) := r.value] && nextId == old(nextId) + 1
        && users.users == old(users.users)[userId := old(users.users)[userId].(role := Users.PolicyHolder)]
      ensures userId in old(users.users) && policyId in policies.policies && policies.policies[policyId].isActive
              ==> (r.Err? <==> old(HasActivePolicy(holders, userId)).Err?)
    {
      var user := users.GetUserById(userId);
      if user.Err? {
        return Err(user.failure);
      }
      var policy := policies.GetPolicyById(policyId);
      if policy.Err? {
        return Err(policy.failure);
      }
      if !policy.value.isActive {
        return Err(PolicyNotAvailable);
      }
      var active := HasActivePolicy(holders, userId);
      if active.Err? {
        return Err(active.failure);
      }
      if active.value {
        r := UpgradePolicy(userId, policy.value, today);
        return;
      }
      var e := NewEnrollment(nextId, userId, policy.value, today, Active);
      var changed := users.ChangeUserRole(userId, Users.PolicyHolder);
      holders := holders[nextId := e];
      nextId := nextId + 1;
      r := Ok(e);
    }

    /** `purchasePolicyWithPayment`: charges premium times duration; a failed
        payment stops before any enrollment is touched. Otherwise the user's
        ACTIVE row is upgraded (no re-approval), or a PENDING_APPROVAL row with
        both approvals outstanding is added. */
    method PurchasePolicyWithPayment(userId: int, policyId: int, paymentSucceeded: bool, today: Date)
      returns (r: Result<PaidPurchase>)
      requires Valid() && users.Valid() && policies.Valid() && ValidDate(today)
      modifies this, users
      ensures Valid() && users.Valid() && users.nextId == old(users.nextId)
      ensures r.Err? ==> holders == old(holders) && nextId == old(nextId) && users.users == old(users.users)
      ensures userId !in old(users.users) ==> r == Err(UserNotFound)
      ensures userId in old(users.users) && policyId !in policies.policies ==> r == Err(PolicyNotFound)
      ensures userId in old(users.users) && policyId in policies.policies && !policies.policies[policyId].isActive
              ==> r == Err(PolicyNotAvailable)
      ensures (userId in old(users.users) && policyId in policies.policies && policies.policies[policyId].isActive
              && !paymentSucceeded) ==> r == Err(PaymentFailed)
      ensures r.Ok? ==>
        paymentSucceeded && userId in old(users.users) && policyId in policies.policies
        && policies.policies[policyId].isActive
        && r.value.amountCharged
           == policies.policies[policyId].premiumAmount * policies.policies[policyId].durationMonths
        && r.value.holder.userId == userId && r.value.holder.policyId == policyId
        && r.value.holder.startDate == today
        && r.value.holder.endDate == PlusMonths(today, policies.policies[policyId].durationMonths)
      ensures r.Ok? && old(HasActivePolicy(holders, userId)) == Ok(true) ==>
        r.value.holder.id in old(holders) && holders == old(holders)[r.value.holder.id := r.value.holder]
        && r.value.holder == Upgrade(old(holders)[r.value.holder.id], policies.policies[policyId], today)
        && nextId == old(nextId) && users.users == old(users.users)
      ensures r.Ok? && old(HasActivePolicy(holders, userId)) == Ok(false) ==>
        r.value.holder == NewEnrollment(old(nextId), userId, policies.policies[policyId], today, PendingApproval)
        && holders == old(holders)[old(nextId) := r.value.holder] && nextId == old(nextId) + 1
        && users.users == old(users.users)[userId := old(users.users)[userId].(role := Users.PolicyHolder)]
      ensures userId in old(users.users) && policyId in policies.policies && policies.policies[policyId].isActive
              && paymentSucceeded
              ==> (r.Err? <==> old(HasActivePolicy(holders, userId)).Err?)
                  && (r.Err? ==> r == Err(NotUniqueResult))
    {
      var user := users.GetUserById(userId);
      if user.Err? {
        return Err(user.failure);
      }
      var policy := policies.GetPolicyById(policyId);
      if policy.Err? {
        return Err(policy.failure);
      }
      if !policy.value.isActive {
        return Err(PolicyNotAvailable);
      }
      var total := policy.value.premiumAmount * policy.value.durationMonths;
      if !paymentSucceeded {
        return Err(PaymentFailed);
      }
      var active := HasActivePolicy(holders, userId);
      if active.Err? {
        return Err(active.failure);
      }
      if active.value {
        var upgraded := UpgradePolicy(userId, policy.value, today);
        if upgraded.Err? {
          return Err(upgraded.failure);
        }
        return Ok(PaidPurchase(upgraded.value, total));
      }
      var e := NewEnrollment(nextId, userId, policy.value, today, PendingApproval);
      var changed := users.ChangeUserRole(userId, Users.PolicyHolder);
      holders := holders[nextId := e];
      nextId := nextId + 1;
      r := Ok(PaidPurchase(e, total));
    }

    /** `updatePolicyStatus`: sets any status, with no guard. */
    method UpdatePolicyStatus(id: int, status: EnrollmentStatus) returns (r: Result<Enrollment>)
      requires Valid()
      modifies this
      ensures Valid() && nextId == old(nextId)
      ensures id !in old(holders) ==> r == Err(HolderNotFound) && holders == old(holders)
      ensures id in old(holders) ==>
        r == Ok(old(holders)[id].(status := status)) && holders == old(holders)[id := r.value]
    {
      var found := GetPolicyHolderById(id);
      if found.Err? {
        return Err(found.failure);
      }
      var e := found.value.(status := status);
      holders := holders[id := e];
      r := Ok(e);
    }

    /** Shared shape of the guarded single-row transitions: look the row up,
        apply the transition, save it and log one UPDATE on it. */
    method ApplyAndLog(id: int, next: Result<Enrollment>, performedBy: string, details: Detail, now: int)
      returns (r: Result<Enrollment>)
      requires Valid() && audit.Valid()
      requires id in holders ==> next.Ok? ==> next.value.id == id
      modifies this, audit
      ensures Valid() && audit.Valid() && nextId == old(nextId)
      ensures id !in old(holders) ==> r == Err(HolderNotFound)
      ensures id in old(holders) ==> r == next
      ensures r.Err? ==> holders == old(holders) && audit.entries == old(audit.entries)
      ensures r.Ok? ==> (holders == old(holders)[id := r.value]
        && audit.entries == old(audit.entries)
           + [AuditLog(|old(audit.entries)| + 1, PolicyHolderEntity, id, Update, performedBy, now, details)])
    {
      if id !in holders {
        return Err(HolderNotFound);
      }
      if next.Err? {
        return next;
      }
      holders := holders[id := next.value];
      audit.LogAction(PolicyHolderEntity, id, Update, performedBy, details, now);
      r := next;
    }

    /** `deactivatePolicy`: an ACTIVE row becomes CANCELLED and one UPDATE is logged. */
    method DeactivatePolicy(id: int, reason: Option<string>, performedBy: string, now: int)
      returns (r: Result<Enrollment>)
      requires Valid() && audit.Valid()
      modifies this, audit
      ensures Valid() && audit.Valid() && nextId == old(nextId)
      ensures id !in old(holders) ==> r == Err(HolderNotFound)
      ensures id in old(holders) ==> r == Cancel(old(holders)[id])
      ensures r.Err? ==> holders == old(holders) && audit.entries == old(audit.entries)
      ensures r.Ok? ==> (holders == old(holders)[id := r.value]
        && audit.entries == old(audit.entries)
           + [AuditLog(|old(audit.entries)| + 1, PolicyHolderEntity, id, Update, performedBy, now,
                       PolicyDeactivated(reason, PolicyName(old(holders)[id].policyId)))])
    {
      var next := if id in holders then Cancel(holders[id]) else Err(HolderNotFound);
      var name := if id in holders then PolicyName(holders[id].policyId) else "";
      r := ApplyAndLog(id, next, performedBy, PolicyDeactivated(reason, name), now);
    }

    /** `suspendPolicy`: an ACTIVE row becomes SUSPENDED and one UPDATE is logged. */
    method SuspendPolicy(id: int, reason: Option<string>, performedBy: string, now: int)
      returns (r: Result<Enrollment>)
      requires Valid() && audit.Valid()
      modifies this, audit
      ensures Valid() && audit.Valid() && nextId == old(nextId)
      ensures id !in old(holders) ==> r == Err(HolderNotFound)
      ensures id in old(holders) ==> r == Suspend(old(holders)[id])
      ensures r.Err? ==> holders == old(holders) && audit.entries == old(audit.entries)
      ensures r.Ok? ==> (holders == old(holders)[id := r.value]
        && audit.entries == old(audit.entries)
           + [AuditLog(|old(audit.entries)| + 1, PolicyHolderEntity, id, Update, performedBy, now,
                       PolicySuspended(reason, PolicyName(old(holders)[id].policyId)))])
    {
      var next := if id in holders then Suspend(holders[id]) else Err(HolderNotFound);
      var name := if id in holders then PolicyName(holders[id].policyId) else "";
      r := ApplyAndLog(id, next, performedBy, PolicySuspended(reason, name), now);
    }

    /** `reactivatePolicy`: a SUSPENDED row whose end date is not past becomes
        ACTIVE and one UPDATE is logged. */
    method ReactivatePolicy(id: int, performedBy: string, today: Date, now: int)
      returns (r: Result<Enrollment>)
      requires Valid() && audit.Valid()
      modifies this, audit
      ensures Valid() && audit.Valid() && nextId == old(nextId)
      ensures id !in old(holders) ==> r == Err(HolderNotFound)
      ensures id in old(holders) ==> r == Reactivate(old(holders)[id], today)
      ensures r.Err? ==> holders == old(holders) && audit.entries == old(audit.entries)
      ensures r.Ok? ==> (holders == old(holders)[id := r.value]
        && audit.entries == old(audit.entries)
           + [AuditLog(|old(audit.entries)| + 1, PolicyHolderEntity, id, Update, performedBy, now,
                       PolicyReactivated(PolicyName(old(holders)[id].policyId)))])
    {
      var next := if id in holders then Reactivate(holders[id], today) else Err(HolderNotFound);
      var name := if id in holders then PolicyName(holders[id].policyId) else "";
      r := ApplyAndLog(id, next, performedBy, PolicyReactivated(name), now);
    }

    /** `approvePolicyByPolicyManager` / `approvePolicyByFinanceOfficer`: the
        approval on the row, saved, and one UPDATE logged by the approver. */
    method ApprovePolicy(id: int, who: Approver, approvedBy: string, today: Date, now: int)
      returns (r: Result<Enrollment>)
      requires Valid() && audit.Valid()
      modifies this, audit
      ensures Valid() && audit.Valid() && nextId == old(nextId)
      ensures id !in old(holders) ==> r == Err(HolderNotFound)
      ensures id in old(holders) ==> r == Enrollments.Approve(old(holders)[id], who, approvedBy, today)
      ensures r.Err? ==> holders == old(holders) && audit.entries == old(audit.entries)
      ensures r.Ok? ==> (holders == old(holders)[id := r.value]
        && audit.entries == old(audit.entries)
           + [AuditLog(|old(audit.entries)| + 1, PolicyHolderEntity, id, Update, approvedBy, now,
                       ApprovalDetail(who, PolicyName(old(holders)[id].policyId)))])
    {
      var next := if id in holders then Enrollments.Approve(holders[id], who, approvedBy, today) else Err(HolderNotFound);
      var name := if id in holders then PolicyName(holders[id].policyId) else "";
      r := ApplyAndLog(id, next, approvedBy, ApprovalDetail(who, name), now);
    }

    /** `deactivateExpiredPolicies`: every ACTIVE row whose end date is today or
        earlier becomes EXPIRED, is returned, and gets one UPDATE in the log;
        every other row is left alone. */
    method DeactivateExpiredPolicies(performedBy: string, today: Date, now: int) returns (expired: seq<Enrollment>)
      requires Valid() && audit.Valid()
      modifies this, audit
      ensures Valid() && audit.Valid() && nextId == old(nextId)
      ensures holders == ExpireDue(old(holders), today)
      ensures IdsOf(expired) == DueIds(old(holders), today)
      ensures |expired| == |DueIds(old(holders), today)|
      ensures forall i :: 0 <= i < |expired| ==>
        expired[i].id in old(holders) && expired[i] == old(holders)[expired[i].id].(status := Expired)
      ensures audit.entries == old(audit.entries)
        + ExpiryLogs(expired, |old(audit.entries)|, policies.policies, performedBy, now)
    {
      ghost var start := holders;
      expired := [];
      for id := 1 to nextId
        invariant audit.Valid() && nextId == old(nextId)
        invariant Swept(holders, audit.entries, policies.policies, id, performedBy, today, now, expired, start, old(audit.entries))
      {
        expired := SweepOne(id, performedBy, today, now, expired, start, old(audit.entries));
      }
      SweepComplete(start, today, nextId);
    }

    /** One id of the sweep: the row with that id, when it is due, is expired,
        logged and appended to the result. */
    method SweepOne(id: int, performedBy: string, today: Date, now: int, expired: seq<Enrollment>,
                    ghost start: map<int, Enrollment>, ghost prior: seq<AuditLog>) returns (next: seq<Enrollment>)
      requires audit.Valid() && Swept(holders, audit.entries, policies.policies, id, performedBy, today, now, expired, start, prior)
      modifies this, audit
      ensures audit.Valid() && nextId == old(nextId)
      ensures Swept(holders, audit.entries, policies.policies, id + 1, performedBy, today, now, next, start, prior)
    {
      ghost var h0, e0 := holders, audit.entries;
      next := expired;
      if id in holders && DueForExpiry(holders[id], today) {
        var u := ExpireRow(id, performedBy, today, now);
        next := expired + [u];
      }
      SweptAdvance(h0, e0, policies.policies, id, performedBy, today, now, expired, start, prior,
                   holders, audit.entries, next);
    }

    /** One row of the sweep: marked EXPIRED, saved, and logged. */
    method ExpireRow(id: int, performedBy: string, today: Date, now: int) returns (u: Enrollment)
      requires audit.Valid() && id in holders
      modifies this, audit
      ensures audit.Valid() && nextId == old(nextId)
      ensures u == old(holders)[id].(status := Expired) && holders == old(holders)[id := u]
      ensures audit.entries == old(audit.entries)
        + [AuditLog(|old(audit.entries)| + 1, PolicyHolderEntity, id, Update, performedBy, now,
                    PolicyExpired(u.endDate, PolicyNameIn(policies.policies, u.policyId)))]
    {
      var e := holders[id];
      u := e.(status := Expired);
      holders := holders[id := u];
      audit.LogAction(PolicyHolderEntity, id, Update, performedBy, PolicyExpired(e.endDate, PolicyNameIn(policies.policies, e.policyId)), now);
    }

    /** `getActivePolicyCount`. */
    function GetActivePolicyCount(): (n: nat)
      reads this
      ensures n == |StatusIds(holders, Active)| && n <= |holders.Keys|
    {
      var ids := StatusIds(holders, Active);
      assert ids <= holders.Keys;
      Card(ids, holders.Keys);
      |ids|
    }

    /** `getPolicyCountByStatus`: one entry per status, each the number of rows in it. */
    method GetPolicyCountByStatus() returns (counts: map<EnrollmentStatus, nat>)
      ensures forall s :: s in counts && counts[s] == |StatusIds(holders, s)|
    {
      counts := map[];
      var i := 0;
      while i < |AllStatuses|
        invariant 0 <= i <= |AllStatuses|
        invariant forall s :: s in counts <==> s in AllStatuses[..i]
        invariant forall s :: s in counts ==> counts[s] == |StatusIds(holders, s)|
      {
        var s := AllStatuses[i];
        counts := counts[s := |StatusIds(holders, s)|];
        i := i + 1;
      }
      assert AllStatuses[..i] == AllStatuses;
      forall s: EnrollmentStatus ensures s in counts {
        match s
        case PendingApproval => assert AllStatuses[0] == s;
        case Active => assert AllStatuses[1] == s;
        case Expired => assert AllStatuses[2] == s;
        case Cancelled => assert AllStatuses[3] == s;
        case Suspended => assert AllStatuses[4] == s;
      }
    }

    /** `getPendingApprovalPolicies`. */
    function GetPendingApprovalPolicies(): (r: map<int, Enrollment>)
      reads this
      ensures r.Keys == StatusIds(holders, PendingApproval)
      ensures forall k :: k in r ==> r[k] == holders[k]
    {
      Select(holders, (e: Enrollment) => e.status == PendingApproval)
    }
  }

  lemma {:induction false} Card(a: set<int>, b: set<int>)
    requires a <= b
    ensures |a| <= |b|
  {
    assert b == a + (b - a);
  }
}
