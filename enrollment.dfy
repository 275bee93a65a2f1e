/** The records of `PolicyHolderService`: a user's enrollment in a policy, its
    status machine and the dual sign-off, as transitions on one record. */
module Enrollments {
  import opened Common
  import opened Calendar
  import Policies

  /** `PolicyHolder.PolicyStatus`, in declaration order. */
  datatype EnrollmentStatus = PendingApproval | Active | Expired | Cancelled | Suspended

  const AllStatuses: seq<EnrollmentStatus> := [PendingApproval, Active, Expired, Cancelled, Suspended]

  /** One `policy_holders` row. The approval flags default to false; an
      approval time is the start of the day it was given, so the day is kept. */
  datatype Enrollment = Enrollment(
    id: int,
    userId: int,
    policyId: int,
    startDate: Date,
    endDate: Date,
    status: EnrollmentStatus,
    policyManagerApproved: bool,
    policyManagerApprovedBy: Option<string>,
    policyManagerApprovedOn: Option<Date>,
    financeOfficerApproved: bool,
    financeOfficerApprovedBy: Option<string>,
    financeOfficerApprovedOn: Option<Date>)

  /** A new enrollment starting today and running for the policy's duration. */
  function NewEnrollment(id: int, userId: int, policy: Policies.Policy, today: Date,
                         status: EnrollmentStatus): (e: Enrollment)
    requires ValidDate(today)
    ensures e.startDate == today && MonthIndex(e.endDate) == MonthIndex(today) + policy.durationMonths
    ensures !e.policyManagerApproved && !e.financeOfficerApproved
  {
    Enrollment(id, userId, policy.id, today, PlusMonths(today, policy.durationMonths), status,
               false, None, None, false, None, None)
  }

  /** `upgradePolicy` on one row: new policy, restarted today, forced ACTIVE,
      approvals untouched. */
  function Upgrade(e: Enrollment, policy: Policies.Policy, today: Date): (r: Enrollment)
    requires ValidDate(today)
    ensures r.id == e.id && r.userId == e.userId && r.status == Active
    ensures r.policyManagerApproved == e.policyManagerApproved
    ensures r.financeOfficerApproved == e.financeOfficerApproved
  {
    e.(policyId := policy.id, startDate := today, endDate := PlusMonths(today, policy.durationMonths),
       status := Active)
  }

  /** `deactivatePolicy` on one row: ACTIVE becomes CANCELLED, anything else is refused. */
  function Cancel(e: Enrollment): (r: Result<Enrollment>)
    ensures r.Ok? <==> e.status == Active
    ensures r.Ok? ==> r.value == e.(status := Cancelled)
    ensures r.Err? ==> r.failure == NotActiveForDeactivation
  {
    if e.status != Active then Err(NotActiveForDeactivation) else Ok(e.(status := Cancelled))
  }

  /** `suspendPolicy` on one row: ACTIVE becomes SUSPENDED, anything else is refused. */
  function Suspend(e: Enrollment): (r: Result<Enrollment>)
    ensures r.Ok? <==> e.status == Active
    ensures r.Ok? ==> r.value == e.(status := Suspended)
    ensures r.Err? ==> r.failure == NotActiveForSuspension
  {
    if e.status != Active then Err(NotActiveForSuspension) else Ok(e.(status := Suspended))
  }

  /** `reactivatePolicy` on one row: SUSPENDED becomes ACTIVE unless the end date
      is already past; ending today still counts as in force. */
  function Reactivate(e: Enrollment, today: Date): (r: Result<Enrollment>)
    ensures r.Ok? <==> e.status == Suspended && !Before(e.endDate, today)
    ensures r.Ok? ==> r.value == e.(status := Active)
    ensures e.status != Suspended ==> r == Err(NotSuspendedForReactivation)
    ensures e.status == Suspended && Before(e.endDate, today) ==> r == Err(ReactivationAfterEnd)
  {
    if e.status != Suspended then Err(NotSuspendedForReactivation)
    else if Before(e.endDate, today) then Err(ReactivationAfterEnd)
    else Ok(e.(status := Active))
  }

  datatype Approver = PolicyManagerApprover | FinanceOfficerApprover

  /** The approval flag an approver owns. */
  function ApprovedBy(e: Enrollment, who: Approver): bool
  {
    match who
    case PolicyManagerApprover => e.policyManagerApproved
    case FinanceOfficerApprover => e.financeOfficerApproved
  }

  function Other(who: Approver): Approver
  {
    match who
    case PolicyManagerApprover => FinanceOfficerApprover
    case FinanceOfficerApprover => PolicyManagerApprover
  }

  /** `approvePolicyByPolicyManager` / `approvePolicyByFinanceOfficer` on one row:
      only a PENDING_APPROVAL row, only once per approver; the row becomes
      ACTIVE exactly when the other approval is already there. */
  function Approve(e: Enrollment, who: Approver, approvedBy: string, today: Date): (r: Result<Enrollment>)
    ensures e.status != PendingApproval ==> r == Err(NotPendingApproval)
    ensures e.status == PendingApproval && ApprovedBy(e, who) ==>
      r == Err(if who == PolicyManagerApprover then AlreadyApprovedByPolicyManager else AlreadyApprovedByFinanceOfficer)
    ensures r.Ok? <==> e.status == PendingApproval && !ApprovedBy(e, who)
    ensures r.Ok? ==> ApprovedBy(r.value, who) && ApprovedBy(r.value, Other(who)) == ApprovedBy(e, Other(who))
    ensures r.Ok? ==> (r.value.status == Active <==> ApprovedBy(e, Other(who)))
    ensures r.Ok? && !ApprovedBy(e, Other(who)) ==> r.value.status == PendingApproval
    ensures r.Ok? ==> r.value.id == e.id && r.value.userId == e.userId && r.value.policyId == e.policyId
                      && r.value.startDate == e.startDate && r.value.endDate == e.endDate
    ensures r.Ok? && who == PolicyManagerApprover ==>
      r.value == e.(policyManagerApproved := true, policyManagerApprovedBy := Some(approvedBy),
                    policyManagerApprovedOn := Some(today), status := r.value.status)
    ensures r.Ok? && who == FinanceOfficerApprover ==>
      r.value == e.(financeOfficerApproved := true, financeOfficerApprovedBy := Some(approvedBy),
                    financeOfficerApprovedOn := Some(today), status := r.value.status)
  {
    if e.status != PendingApproval then Err(NotPendingApproval)
    else match who
      case PolicyManagerApprover =>
        if e.policyManagerApproved then Err(AlreadyApprovedByPolicyManager)
        else
          var signed := e.(policyManagerApproved := true, policyManagerApprovedBy := Some(approvedBy),
                           policyManagerApprovedOn := Some(today));
          Ok(if e.financeOfficerApproved then signed.(status := Active) else signed)
      case FinanceOfficerApprover =>
        if e.financeOfficerApproved then Err(AlreadyApprovedByFinanceOfficer)
        else
          var signed := e.(financeOfficerApproved := true, financeOfficerApprovedBy := Some(approvedBy),
                           financeOfficerApprovedOn := Some(today));
          Ok(if e.policyManagerApproved then signed.(status := Active) else signed)
  }

  /** The end date is today or earlier (`isBefore(today) || isEqual(today)`). */
  predicate DueForExpiry(e: Enrollment, today: Date)
  {
    e.status == Active && !Before(today, e.endDate)
  }

  // ---------------------------------------------------------------------
  // The dual sign-off

  /** The sign-off gate: a row is pending exactly while the two approvals are
      not both given. */
  predicate SignOffGate(e: Enrollment)
  {
    e.status == PendingApproval <==> !(e.policyManagerApproved && e.financeOfficerApproved)
  }

  /** A paid purchase starts behind the gate. */
  lemma {:induction false} PaidPurchaseStartsGated(id: int, userId: int, policy: Policies.Policy, today: Date)
    requires ValidDate(today)
    ensures SignOffGate(NewEnrollment(id, userId, policy, today, PendingApproval))
  {
  }

  /** Every guarded transition keeps the gate: approvals, cancel, suspend,
      reactivate, expiry, and an upgrade of an ACTIVE row. */
  lemma {:induction false} TransitionsKeepGate(e: Enrollment, who: Approver, approver: string, today: Date,
                                               policy: Policies.Policy)
    requires SignOffGate(e)
    ensures Approve(e, who, approver, today).Ok? ==> SignOffGate(Approve(e, who, approver, today).value)
    ensures Cancel(e).Ok? ==> SignOffGate(Cancel(e).value)
    ensures Suspend(e).Ok? ==> SignOffGate(Suspend(e).value)
    ensures Reactivate(e, today).Ok? ==> SignOffGate(Reactivate(e, today).value)
    ensures DueForExpiry(e, today) ==> SignOffGate(e.(status := Expired))
    ensures ValidDate(today) && e.status == Active ==> SignOffGate(Upgrade(e, policy, today))
  {
    var r := Approve(e, who, approver, today);
    if r.Ok? {
      assert ApprovedBy(r.value, who);
      assert ApprovedBy(r.value, Other(who)) == ApprovedBy(e, Other(who));
      match who
      case PolicyManagerApprover =>
      case FinanceOfficerApprover =>
    }
  }

  /** The direct purchase path does not go through the gate: it yields an ACTIVE
      row that nobody approved. */
  lemma {:induction false} DirectPurchaseBypassesGate(id: int, userId: int, policy: Policies.Policy, today: Date)
    requires ValidDate(today)
    ensures var e := NewEnrollment(id, userId, policy, today, Active);
      e.status == Active && !e.policyManagerApproved && !e.financeOfficerApproved && !SignOffGate(e)
  {
  }

  /** A run of approval attempts; refused attempts leave the row as it was. */
  function ApplyApprovals(e: Enrollment, steps: seq<(Approver, string)>, today: Date): Enrollment
    decreases |steps|
  {
    if steps == [] then e
    else
      var r := Approve(e, steps[0].0, steps[0].1, today);
      ApplyApprovals(if r.Ok? then r.value else e, steps[1..], today)
  }

  /** Starting from a paid purchase, whatever approval attempts are made, the
      row is ACTIVE exactly when both the policy manager and the finance officer
      have approved it. */
  lemma {:induction false} ActiveOnlyAfterBothApprovals(e: Enrollment, steps: seq<(Approver, string)>, today: Date)
    requires e.status == PendingApproval && SignOffGate(e)
    ensures var f := ApplyApprovals(e, steps, today);
      (f.status == Active <==> f.policyManagerApproved && f.financeOfficerApproved)
      && (f.status == Active || f.status == PendingApproval)
    decreases |steps|
  {
    if steps != [] {
      var r := Approve(e, steps[0].0, steps[0].1, today);
      var next := if r.Ok? then r.value else e;
      TransitionsKeepGate(e, steps[0].0, steps[0].1, today, Policies.Policy(0, "", Policies.Basic, 0, 0, 0, None, true));
      if next.status == Active {
        assert ApplyApprovals(next, steps[1..], today) == next by {
          ActiveRowIgnoresApprovals(next, steps[1..], today);
        }
      } else {
        ActiveOnlyAfterBothApprovals(next, steps[1..], today);
      }
    }
  }

  /** Once ACTIVE, further approval attempts are all refused. */
  lemma {:induction false} ActiveRowIgnoresApprovals(e: Enrollment, steps: seq<(Approver, string)>, today: Date)
    requires e.status != PendingApproval
    ensures ApplyApprovals(e, steps, today) == e
    decreases |steps|
  {
    if steps != [] {
      ActiveRowIgnoresApprovals(e, steps[1..], today);
    }
  }

  /** Each approver approves once: a second approval by the same role is refused
      and changes nothing. */
  lemma {:induction false} ApprovalIsOncePerRole(e: Enrollment, who: Approver, by1: string, by2: string, today: Date)
    requires Approve(e, who, by1, today).Ok?
    ensures var once := Approve(e, who, by1, today).value;
      Approve(once, who, by2, today).Err?
  {
  }

  /** Both approvals, in either order, activate a paid purchase. */
  lemma {:induction false} BothApprovalsActivate(e: Enrollment, pm: string, fo: string, today: Date)
    requires e.status == PendingApproval && !e.policyManagerApproved && !e.financeOfficerApproved
    ensures ApplyApprovals(e, [(PolicyManagerApprover, pm), (FinanceOfficerApprover, fo)], today).status == Active
    ensures ApplyApprovals(e, [(FinanceOfficerApprover, fo), (PolicyManagerApprover, pm)], today).status == Active
  {
    var s1 := [(PolicyManagerApprover, pm), (FinanceOfficerApprover, fo)];
    var a1 := Approve(e, PolicyManagerApprover, pm, today).value;
    var b1 := Approve(a1, FinanceOfficerApprover, fo, today).value;
    assert s1[1..] == [(FinanceOfficerApprover, fo)] && s1[1..][1..] == [];
    assert ApplyApprovals(e, s1, today) == ApplyApprovals(a1, s1[1..], today);
    assert ApplyApprovals(a1, s1[1..], today) == ApplyApprovals(b1, [], today);
    var s2 := [(FinanceOfficerApprover, fo), (PolicyManagerApprover, pm)];
    var a2 := Approve(e, FinanceOfficerApprover, fo, today).value;
    var b2 := Approve(a2, PolicyManagerApprover, pm, today).value;
    assert s2[1..] == [(PolicyManagerApprover, pm)] && s2[1..][1..] == [];
    assert ApplyApprovals(e, s2, today) == ApplyApprovals(a2, s2[1..], today);
    assert ApplyApprovals(a2, s2[1..], today) == ApplyApprovals(b2, [], today);
  }

  // ---------------------------------------------------------------------
  // Suspension and reactivation

  /** Suspending and then reactivating an enrollment whose end date is not past
      restores it exactly; once the end date is past it stays suspended. */
  lemma {:induction false} SuspendThenReactivate(e: Enrollment, today: Date)
    requires e.status == Active
    ensures !Before(e.endDate, today) ==> Reactivate(Suspend(e).value, today) == Ok(e)
    ensures Before(e.endDate, today) ==> Reactivate(Suspend(e).value, today) == Err(ReactivationAfterEnd)
  {
  }
}
