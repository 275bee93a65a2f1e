/** `SalesReviewService`: the sales officer's review of policy applications,
    with the notifications each decision sends to the policy holder. */
module SalesReview {
  import opened Common

  /** The application statuses the service names. */
  datatype ApplicationStatus = Submitted | UnderReview | MissingInfo | Approved | Rejected

  /** One `policy_applications` row. Notes, reviewer and documents are
      nullable text; instants are ticks. */
  datatype PolicyApplication = PolicyApplication(
    id: int,
    policyHolderId: int,
    policyId: int,
    status: ApplicationStatus,
    submittedDocuments: Option<string>,
    reviewNotes: Option<string>,
    reviewedBy: Option<string>,
    reviewedAt: Option<int>,
    createdAt: int,
    updatedAt: int)

  /** `PolicyApplicationReviewRequest`. */
  datatype ReviewRequest = ReviewRequest(status: ApplicationStatus, reviewNotes: Option<string>,
                                         reviewedBy: Option<string>)

  /** What `NotificationService` is asked to send, addressed to a policy holder. */
  datatype Notification =
    | MissingInfoNotice(holderId: int, notes: Option<string>)
    | ApprovalNotice(holderId: int)
    | RejectionNotice(holderId: int, notes: Option<string>)

  /** The review step every decision shares: status, notes and reviewer are
      overwritten, the review and update instants become `now`; the prior
      status is not looked at. */
  function Reviewed(a: PolicyApplication, req: ReviewRequest, now: int): (r: PolicyApplication)
    ensures r.status == req.status && r.reviewNotes == req.reviewNotes && r.reviewedBy == req.reviewedBy
    ensures r.reviewedAt == Some(now) && r.updatedAt == now
    ensures (r.(status := a.status, reviewNotes := a.reviewNotes, reviewedBy := a.reviewedBy,
                reviewedAt := a.reviewedAt, updatedAt := a.updatedAt) == a)
  {
    a.(status := req.status, reviewNotes := req.reviewNotes, reviewedBy := req.reviewedBy,
       reviewedAt := Some(now), updatedAt := now)
  }

  /** The approval step: APPROVED with the reviewer, the notes left as they were. */
  function ApprovedBy(a: PolicyApplication, reviewer: Option<string>, now: int): (r: PolicyApplication)
    ensures r.status == Approved && r.reviewedBy == reviewer && r.reviewNotes == a.reviewNotes
    ensures r.reviewedAt == Some(now) && r.updatedAt == now
    ensures r.(status := a.status, reviewedBy := a.reviewedBy, reviewedAt := a.reviewedAt, updatedAt := a.updatedAt) == a
  {
    a.(status := Approved, reviewedBy := reviewer, reviewedAt := Some(now), updatedAt := now)
  }

  /** The notification `reviewApplication` sends: one only when the new status
      is MISSING_INFO, carrying the request's notes. */
  function ReviewNotice(a: PolicyApplication, req: ReviewRequest): (r: seq<Notification>)
    ensures |r| <= 1
    ensures r != [] <==> req.status == MissingInfo
    ensures r != [] ==> r[0] == MissingInfoNotice(a.policyHolderId, req.reviewNotes)
  {
    if req.status == MissingInfo then [MissingInfoNotice(a.policyHolderId, req.reviewNotes)] else []
  }

  /** A review to MISSING_INFO sends the same single notice as asking for
      more information. Approving and rejecting are not reviews: a review to APPROVED overwrites the notes where approving keeps
      them, and neither review to APPROVED nor to REJECTED notifies anybody. */
  lemma {:induction false} DecisionsAgainstReview(a: PolicyApplication, reviewer: Option<string>,
                                                   notes: Option<string>, now: int)
    ensures ReviewNotice(a, ReviewRequest(MissingInfo, notes, reviewer)) == [MissingInfoNotice(a.policyHolderId, notes)]
    ensures ApprovedBy(a, reviewer, now) == Reviewed(a, ReviewRequest(Approved, a.reviewNotes, reviewer), now)
    ensures ReviewNotice(a, ReviewRequest(Approved, notes, reviewer)) == []
    ensures ReviewNotice(a, ReviewRequest(Rejected, notes, reviewer)) == []
  {
  }

  /** The applications whose status is one of `statuses` (`findByStatusIn`). */
  function WithStatusIn(apps: map<int, PolicyApplication>, statuses: set<ApplicationStatus>)
    : (r: map<int, PolicyApplication>)
    ensures forall k :: k in r <==> k in apps && apps[k].status in statuses
    ensures forall k :: k in r ==> r[k] == apps[k]
  {
    Select(apps, (a: PolicyApplication) => a.status in statuses)
  }

  /** The review queue: SUBMITTED or UNDER_REVIEW. */
  function ForReview(apps: map<int, PolicyApplication>): (r: map<int, PolicyApplication>)
    ensures forall k :: k in r <==> k in apps && (apps[k].status == Submitted || apps[k].status == UnderReview)
  {
    WithStatusIn(apps, {Submitted, UnderReview})
  }

  /** The pending list is part of the review queue, and the queue is exactly
      the pending list plus the applications under review. */
  lemma {:induction false} PendingIsPartOfQueue(apps: map<int, PolicyApplication>)
    ensures WithStatusIn(apps, {Submitted}).Keys <= ForReview(apps).Keys
    ensures ForReview(apps).Keys == WithStatusIn(apps, {Submitted}).Keys + WithStatusIn(apps, {UnderReview}).Keys
  {
  }

  /** A decision other than a review back to SUBMITTED or UNDER_REVIEW takes
      the application out of the review queue; the rest of the queue stays. */
  lemma {:induction false} DecisionLeavesQueue(apps: map<int, PolicyApplication>, id: int, a: PolicyApplication)
    requires a.status != Submitted && a.status != UnderReview
    ensures id !in ForReview(apps[id := a])
    ensures ForReview(apps[id := a]) == ForReview(apps) - {id}
  {
  }

  class SalesReviewService {
    var applications: map<int, PolicyApplication>
    /** Every notification sent, oldest first. */
    var notifications: seq<Notification>

    ghost predicate Valid()
      reads this
    {
      forall k :: k in applications ==> applications[k].id == k
    }

    /** The service over the applications already on file. */
    constructor (applications: map<int, PolicyApplication>)
      requires forall k :: k in applications ==> applications[k].id == k
      ensures Valid() && this.applications == applications && notifications == []
    {
      this.applications := applications;
      notifications := [];
    }

    /** `getPendingApplications`: the SUBMITTED applications. */
    function GetPendingApplications(): (r: map<int, PolicyApplication>)
      reads this
      ensures forall k :: k in r <==> k in applications && applications[k].status == Submitted
      ensures forall k :: k in r ==> r[k] == applications[k]
    {
      WithStatusIn(applications, {Submitted})
    }

    /** `getApplicationsByStatus`. */
    function GetApplicationsByStatus(status: ApplicationStatus): (r: map<int, PolicyApplication>)
      reads this
      ensures forall k :: k in r <==> k in applications && applications[k].status == status
      ensures forall k :: k in r ==> r[k] == applications[k]
    {
      WithStatusIn(applications, {status})
    }

    /** `getApplicationsForReview`: SUBMITTED or UNDER_REVIEW. */
    function GetApplicationsForReview(): (r: map<int, PolicyApplication>)
      reads this
      ensures (forall k :: k in r <==>
                 k in applications && (applications[k].status == Submitted || applications[k].status == UnderReview))
      ensures forall k :: k in r ==> r[k] == applications[k]
    {
      ForReview(applications)
    }

    /** `getApplicationById`: empty for an unknown id. */
    function GetApplicationById(id: int): (r: Option<PolicyApplication>)
      reads this
      ensures r.Some? <==> id in applications
      ensures r.Some? ==> r.value == applications[id]
    {
      Find(applications, id)
    }

    /** `reviewApplication`: empty and silent for an unknown id; otherwise the
        review is saved and a missing-info notice sent only for MISSING_INFO. */
    method ReviewApplication(id: int, req: ReviewRequest, now: int) returns (r: Option<PolicyApplication>)
      requires Valid()
      modifies this
      ensures Valid()
      ensures r.Some? <==> id in old(applications)
      ensures r.None? ==> applications == old(applications) && notifications == old(notifications)
      ensures (r.Some? ==>
        r.value == Reviewed(old(applications)[id], req, now)
        && applications == old(applications)[id := r.value]
        && notifications == old(notifications) + ReviewNotice(old(applications)[id], req))
    {
      if id !in applications {
        return None;
      }
      var a := Reviewed(applications[id], req, now);
      applications := applications[id := a];
      notifications := notifications + ReviewNotice(a, req);
      r := Some(a);
    }

    /** `requestAdditionalInfo`: MISSING_INFO with the notes and the reviewer,
        and exactly one missing-info notice to the holder. */
    method RequestAdditionalInfo(id: int, reviewer: Option<string>, notes: Option<string>, now: int)
      returns (r: Option<PolicyApplication>)
      requires Valid()
      modifies this
      ensures Valid()
      ensures r.Some? <==> id in old(applications)
      ensures r.None? ==> applications == old(applications) && notifications == old(notifications)
      ensures (r.Some? ==>
        r.value == Reviewed(old(applications)[id], ReviewRequest(MissingInfo, notes, reviewer), now)
        && applications == old(applications)[id := r.value]
        && notifications == old(notifications) + [MissingInfoNotice(r.value.policyHolderId, notes)])
    {
      if id !in applications {
        return None;
      }
      var a := Reviewed(applications[id], ReviewRequest(MissingInfo, notes, reviewer), now);
      applications := applications[id := a];
      notifications := notifications + [MissingInfoNotice(a.policyHolderId, notes)];
      r := Some(a);
    }

    /** `approveApplication`: APPROVED with the reviewer, notes untouched, and
        one approval notice to the holder. */
    method ApproveApplication(id: int, reviewer: Option<string>, now: int) returns (r: Option<PolicyApplication>)
      requires Valid()
      modifies this
      ensures Valid()
      ensures r.Some? <==> id in old(applications)
      ensures r.None? ==> applications == old(applications) && notifications == old(notifications)
      ensures (r.Some? ==>
        r.value == ApprovedBy(old(applications)[id], reviewer, now)
        && applications == old(applications)[id := r.value]
        && notifications == old(notifications) + [ApprovalNotice(r.value.policyHolderId)])
    {
      if id !in applications {
        return None;
      }
      var a := ApprovedBy(applications[id], reviewer, now);
      applications := applications[id := a];
      notifications := notifications + [ApprovalNotice(a.policyHolderId)];
      r := Some(a);
    }

    /** `rejectApplication`: REJECTED with the notes and the reviewer, and one
        rejection notice carrying the notes. */
    method RejectApplication(id: int, reviewer: Option<string>, notes: Option<string>, now: int)
      returns (r: Option<PolicyApplication>)
      requires Valid()
      modifies this
      ensures Valid()
      ensures r.Some? <==> id in old(applications)
      ensures r.None? ==> applications == old(applications) && notifications == old(notifications)
      ensures (r.Some? ==>
        r.value == Reviewed(old(applications)[id], ReviewRequest(Rejected, notes, reviewer), now)
        && applications == old(applications)[id := r.value]
        && notifications == old(notifications) + [RejectionNotice(r.value.policyHolderId, notes)])
    {
      if id !in applications {
        return None;
      }
      var a := Reviewed(applications[id], ReviewRequest(Rejected, notes, reviewer), now);
      applications := applications[id := a];
      notifications := notifications + [RejectionNotice(a.policyHolderId, notes)];
      r := Some(a);
    }
  }
}
