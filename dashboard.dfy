/** The computations behind `DashboardController`'s pages: where `/dashboard`
    sends a signed-in user, the policy holder's claim figures, the agent's
    commission and the doctor's appointment actions. Page rendering, flash
    messages and the lookups of the signed-in account are not modelled. */
module Dashboard {
  import opened Common
  import Users
  import Policies
  import Enrollments
  import Claims
  import Appointments
  import AuditLogs

  // ---------------------------------------------------------------------
  // Routing

  datatype Route = LoginPage | AdminDashboard | PolicyHolderDashboard | DoctorDashboard | AgentDashboard

  /** `dashboard`: `None` is a missing authentication, otherwise the roles the
      user's authorities name. The first matching test wins: admin, then
      policy holder or plain user, then doctor, then sales officer, then the
      other staff roles, and the login page last. Among several staff roles the
      order is DOCTOR, SALES_OFFICER, then the rest; a signed-in account holds
      exactly one authority (`User.getAuthorities`), so only the one-role case
      of `SingleRoleGoesHome` arises. */
  function DashboardRoute(authorities: Option<set<Users.UserRole>>): (r: Route)
    ensures authorities.None? ==> r == LoginPage
    ensures authorities.Some? && Users.Admin in authorities.value ==> r == AdminDashboard
    ensures (authorities.Some? && Users.Admin !in authorities.value
             && (Users.PolicyHolder in authorities.value || Users.User in authorities.value))
            ==> r == PolicyHolderDashboard
    ensures r != LoginPage ==> authorities.Some? && exists role :: role in authorities.value && HomeOf(role) == r
  {
    if authorities.None? then LoginPage
    else
      var s := authorities.value;
      if Users.Admin in s then AdminDashboard
      else if Users.PolicyHolder in s || Users.User in s then PolicyHolderDashboard
      else if Users.Doctor in s then DoctorDashboard
      else if Users.SalesOfficer in s then AgentDashboard
      else if (Users.OperationManager in s || Users.PolicyManager in s || Users.ClaimsManager in s
               || Users.FinanceManager in s || Users.MedicalCoordinator in s
               || Users.CustomerSupportOfficer in s) then AdminDashboard
      else LoginPage
  }

  /** The dashboard each role belongs on, one role at a time. */
  function HomeOf(role: Users.UserRole): (r: Route)
    ensures r != LoginPage
    ensures r == PolicyHolderDashboard <==> !Users.IsEmployeeRole(Some(role))
    ensures r == AdminDashboard <==>
      Users.IsEmployeeRole(Some(role)) && role != Users.Doctor && role != Users.SalesOfficer
  {
    match role
    case Admin => AdminDashboard
    case PolicyHolder => PolicyHolderDashboard
    case User => PolicyHolderDashboard
    case Doctor => DoctorDashboard
    case SalesOfficer => AgentDashboard
    case OperationManager => AdminDashboard
    case MedicalCoordinator => AdminDashboard
    case PolicyManager => AdminDashboard
    case ClaimsManager => AdminDashboard
    case FinanceManager => AdminDashboard
    case CustomerSupportOfficer => AdminDashboard
  }

  /** A user holding one role lands on that role's own dashboard. */
  lemma {:induction false} SingleRoleGoesHome(role: Users.UserRole)
    ensures DashboardRoute(Some({role})) == HomeOf(role)
  {
    HeldRoleLeavesLogin({role}, role);
    var held :| held in {role} && HomeOf(held) == DashboardRoute(Some({role}));
    assert held == role;
  }

  /** Every role has a dashboard: the login page is only for a missing
      authentication or one that names no role. */
  lemma {:induction false} LoginOnlyWithoutRoles(authorities: Option<set<Users.UserRole>>)
    ensures DashboardRoute(authorities) == LoginPage <==> authorities.None? || authorities.value == {}
  {
    if authorities.Some? && authorities.value != {} {
      var role := Member(authorities.value);
      HeldRoleLeavesLogin(authorities.value, role);
    }
  }

  /** Holding any role at all routes away from the login page. */
  lemma {:induction false} HeldRoleLeavesLogin(s: set<Users.UserRole>, role: Users.UserRole)
    requires role in s
    ensures DashboardRoute(Some(s)) != LoginPage
  {
    assert (Users.Admin in s || Users.PolicyHolder in s || Users.User in s || Users.Doctor in s
            || Users.SalesOfficer in s || Users.OperationManager in s || Users.PolicyManager in s
            || Users.ClaimsManager in s || Users.FinanceManager in s || Users.MedicalCoordinator in s
            || Users.CustomerSupportOfficer in s);
  }

  /** `getEmployeeRoles`: the enum's constants in declaration order, without
      POLICY_HOLDER and USER. */
  function GetEmployeeRoles(): (r: seq<Users.UserRole>)
    ensures forall role :: role in r <==> Users.IsEmployeeRole(Some(role))
  {
    Users.AllRolesListed();
    Where(Users.AllRoles, (role: Users.UserRole) => role != Users.PolicyHolder && role != Users.User)
  }

  // ---------------------------------------------------------------------
  // Policy holder dashboard

  /** Whether the policy type lets its holder book appointments. */
  function CanBookAppointments(t: Policies.PolicyType): (r: bool)
    ensures r <==> t == Policies.Premium || t == Policies.Senior
    ensures !r <==> t == Policies.Basic || t == Policies.Family
  {
    match t
    case Premium => true
    case Senior => true
    case Basic => false
    case Family => false
  }

  /** `activeClaims`: how many of the holder's claims are still open. */
  function ActiveClaims(claims: seq<Claims.Claim>): (n: nat)
    ensures n <= |claims|
    ensures n == |claims| <==> forall i :: 0 <= i < |claims| ==> Claims.IsOpen(claims[i].status)
    ensures n == 0 <==> forall i :: 0 <= i < |claims| ==> !Claims.IsOpen(claims[i].status)
    ensures n == |Where(claims, OpenClaim)|
  {
    if claims == [] then 0
    else
      var rest := ActiveClaims(claims[1..]);
      assert forall i :: 1 <= i < |claims| ==> claims[i] == claims[1..][i - 1];
      (if Claims.IsOpen(claims[0].status) then 1 else 0) + rest
  }

  /** The filter of `activeClaims`: neither approved by finance nor rejected. */
  predicate OpenClaim(c: Claims.Claim)
  {
    Claims.IsOpen(c.status)
  }

  /** The sum of `amountClaimed` over the claims finance approved. */
  function ApprovedTotal(claims: seq<Claims.Claim>): (r: int)
    ensures (forall i :: 0 <= i < |claims| ==> claims[i].amountClaimed >= 0) ==> r >= 0
    ensures (forall i :: 0 <= i < |claims| ==> claims[i].status != Claims.ApprovedByFinance) ==> r == 0
  {
    if claims == [] then 0
    else (if claims[0].status == Claims.ApprovedByFinance then claims[0].amountClaimed else 0)
         + ApprovedTotal(claims[1..])
  }

  /** `BigDecimal.divide(d, scale, HALF_UP)` brought to whole units: `n / d`
      rounded to the nearest integer, halves away from zero. */
  function DivHalfUp(n: int, d: int): (q: int)
    requires d > 0
    ensures n >= 0 ==> q >= 0 && -d <= 2 * (n - q * d) < d
    ensures n < 0 ==> q <= 0 && -d < 2 * (n - q * d) <= d
  {
    if n >= 0 then
      var q := (2 * n + d) / (2 * d);
      NearestBelowHalf(n, d, q);
      q
    else
      var q := (2 * -n + d) / (2 * d);
      NearestBelowHalf(-n, d, q);
      -q
  }

  /** `q = (2n + d) / 2d` is the nearest integer to `n / d`, halves rounding up. */
  lemma {:induction false} NearestBelowHalf(n: int, d: int, q: int)
    requires n >= 0 && d > 0 && q == (2 * n + d) / (2 * d)
    ensures q >= 0 && -d <= 2 * (n - q * d) < d
  {
    var m := (2 * n + d) % (2 * d);
    assert 2 * n + d == (2 * d) * q + m && 0 <= m < 2 * d;
    assert (2 * d) * q == 2 * (q * d);
    assert 2 * (n - q * d) == m - d;
  }

  const FullCoverage: int := 10000

  /** `coverageUsedPercentage` in hundredths of a percent: the approved total
      over the coverage amount, rounded half up to four decimals, as a
      percentage capped at 100; 0 when the coverage amount is not positive. */
  function CoverageUsed(claims: seq<Claims.Claim>, coverageAmount: int): (r: int)
    ensures coverageAmount <= 0 ==> r == 0
    ensures r <= FullCoverage
    ensures coverageAmount > 0 && ApprovedTotal(claims) >= 0 ==> r >= 0
    ensures coverageAmount > 0 && ApprovedTotal(claims) >= coverageAmount ==> r == FullCoverage
    ensures (coverageAmount > 0 && ApprovedTotal(claims) >= 0 && r < FullCoverage ==>
               -coverageAmount <= 2 * (ApprovedTotal(claims) * FullCoverage - r * coverageAmount) < coverageAmount)
    ensures (coverageAmount > 0 && ApprovedTotal(claims) < 0 ==>
               r <= 0 && -coverageAmount < 2 * (ApprovedTotal(claims) * FullCoverage - r * coverageAmount) <= coverageAmount)
    ensures (coverageAmount > 0 ==>
               (r == FullCoverage <==> 2 * (ApprovedTotal(claims) * FullCoverage) >= (2 * FullCoverage - 1) * coverageAmount))
  {
    if coverageAmount <= 0 then 0
    else
      var total := ApprovedTotal(claims);
      var q := DivHalfUp(total * FullCoverage, coverageAmount);
      AtLeastWhole(total * FullCoverage, coverageAmount, q);
      RoundsToWhole(total * FullCoverage, coverageAmount, q);
      if q < FullCoverage then q else FullCoverage
  }

  /** The rounded ratio reaches `FullCoverage` exactly when the exact ratio
      is at least half a unit below it. */
  lemma {:induction false} RoundsToWhole(n: int, d: int, q: int)
    requires d > 0
    requires n >= 0 ==> q >= 0 && -d <= 2 * (n - q * d) < d
    requires n < 0 ==> q <= 0 && -d < 2 * (n - q * d) <= d
    ensures q >= FullCoverage <==> 2 * n >= (2 * FullCoverage - 1) * d
  {
    if q >= FullCoverage {
      MulMono(2 * FullCoverage - 1, 2 * q - 1, d);
      assert (2 * q - 1) * d == 2 * (q * d) - d;
    } else {
      MulMono(2 * q + 1, 2 * FullCoverage - 1, d);
      assert (2 * q + 1) * d == 2 * (q * d) + d;
    }
  }

  /** Rounding a ratio of at least `FullCoverage` does not fall below it. */
  lemma {:induction false} AtLeastWhole(n: int, d: int, q: int)
    requires d > 0 && (n >= 0 ==> q >= 0 && -d <= 2 * (n - q * d) < d)
    ensures n >= FullCoverage * d ==> q >= FullCoverage
  {
    if n >= FullCoverage * d && q < FullCoverage {
      MulMono(q, FullCoverage - 1, d);
    }
  }

  lemma {:induction false} MulMono(a: int, b: int, d: int)
    requires a <= b && d >= 0
    ensures a * d <= b * d
  {
    assert b * d - a * d == (b - a) * d;
  }

  /** Claims finance has not approved do not count toward coverage used. */
  lemma {:induction false} ApprovedTotalAppend(a: seq<Claims.Claim>, b: seq<Claims.Claim>)
    ensures ApprovedTotal(a + b) == ApprovedTotal(a) + ApprovedTotal(b)
  {
    if a != [] {
      assert (a + b)[0] == a[0] && (a + b)[1..] == a[1..] + b;
      ApprovedTotalAppend(a[1..], b);
    } else {
      assert a + b == b;
    }
  }

  /** A new claim moves coverage used only once finance approves it: a
      claim in any other status leaves the approved total as it was. */
  lemma {:induction false} OnlyApprovedClaimsCount(claims: seq<Claims.Claim>, c: Claims.Claim)
    ensures ApprovedTotal(claims + [c])
         == ApprovedTotal(claims) + (if c.status == Claims.ApprovedByFinance then c.amountClaimed else 0)
  {
    ApprovedTotalAppend(claims, [c]);
    assert [c][1..] == [];
  }

  // Recent claims

  /** Newest first by `createdAt`. */
  predicate NewestFirst(s: seq<Claims.Claim>)
  {
    forall i, j :: 0 <= i < j < |s| ==> s[i].createdAt >= s[j].createdAt
  }

  /** The sort key of `sorted((c1, c2) -> c2.createdAt.compareTo(c1.createdAt))`. */
  function Newest(c: Claims.Claim): int
  {
    -c.createdAt
  }

  const RecentLimit: nat := 5

  /** `recentClaims`: the five newest claims (fewer when there are fewer),
      newest first; every claim left out is no newer than any shown. */
  function RecentClaims(claims: seq<Claims.Claim>): (r: seq<Claims.Claim>)
    ensures |r| == if |claims| < RecentLimit then |claims| else RecentLimit
    ensures NewestFirst(r)
    ensures multiset(r) <= multiset(claims)
    ensures (forall c, i :: c in multiset(claims) - multiset(r) && 0 <= i < |r| ==>
               c.createdAt <= r[i].createdAt)
  {
    var k := if |claims| < RecentLimit then |claims| else RecentLimit;
    NewestPrefix(claims, k);
    SortBy(claims, Newest)[..k]
  }

  /** The first `k` claims newest first: ordered, drawn from the input, and
      no newer than any claim left out. */
  lemma {:induction false} NewestPrefix(claims: seq<Claims.Claim>, k: nat)
    requires k <= |claims|
    ensures var r := SortBy(claims, Newest)[..k];
      && NewestFirst(r)
      && multiset(r) <= multiset(claims)
      && forall c, i :: c in multiset(claims) - multiset(r) && 0 <= i < |r| ==> c.createdAt <= r[i].createdAt
  {
    var sorted := SortBy(claims, Newest);
    SortedPrefix(sorted, k, Newest);
    var r := sorted[..k];
    forall i, j | 0 <= i < j < |r| ensures r[i].createdAt >= r[j].createdAt {
      assert Newest(r[i]) <= Newest(r[j]);
    }
    LeftOutNoNewer(sorted, k);
  }

  lemma {:induction false} LeftOutNoNewer(sorted: seq<Claims.Claim>, k: nat)
    requires k <= |sorted|
    requires multiset(sorted) - multiset(sorted[..k]) == multiset(sorted[k..])
    requires forall x, i :: x in multiset(sorted[k..]) && 0 <= i < k ==> Newest(sorted[i]) <= Newest(x)
    ensures (forall c, i :: c in multiset(sorted) - multiset(sorted[..k]) && 0 <= i < k ==>
               c.createdAt <= sorted[..k][i].createdAt)
  {
    forall c, i | c in multiset(sorted) - multiset(sorted[..k]) && 0 <= i < k
      ensures c.createdAt <= sorted[..k][i].createdAt
    {
      assert Newest(sorted[i]) <= Newest(c);
    }
  }

  // ---------------------------------------------------------------------
  // Agent dashboard

  /** The premium of the policy an enrollment refers to; 0 for a dangling reference. */
  function PremiumOf(policies: map<int, Policies.Policy>, policyId: int): int
  {
    if policyId in policies then policies[policyId].premiumAmount else 0
  }

  /** The summed premiums of the ACTIVE enrollments among `rows`. */
  function ActivePremiums(rows: seq<Enrollments.Enrollment>, policies: map<int, Policies.Policy>): (r: int)
    ensures (forall k :: k in policies ==> policies[k].premiumAmount >= 0) ==> r >= 0
    ensures rows == [] ==> r == 0
  {
    if rows == [] then 0
    else (if rows[0].status == Enrollments.Active then PremiumOf(policies, rows[0].policyId) else 0)
         + ActivePremiums(rows[1..], policies)
  }

  /** `totalCommission`, 5% of the active premiums, in hundredths of a minor
      unit so that it is exact: twenty times it is the premiums in hundredths. */
  function Commission(rows: seq<Enrollments.Enrollment>, policies: map<int, Policies.Policy>): (r: int)
    ensures 20 * r == 100 * ActivePremiums(rows, policies)
  {
    5 * ActivePremiums(rows, policies)
  }

  /** The commission adds up over any split of the enrollments, and an
      enrollment that is not ACTIVE adds nothing. */
  lemma {:induction false} CommissionAdds(a: seq<Enrollments.Enrollment>, b: seq<Enrollments.Enrollment>,
                                          policies: map<int, Policies.Policy>)
    ensures Commission(a + b, policies) == Commission(a, policies) + Commission(b, policies)
    ensures (forall i :: 0 <= i < |b| ==> b[i].status != Enrollments.Active) ==>
              Commission(a + b, policies) == Commission(a, policies)
  {
    ActivePremiumsAppend(a, b, policies);
    if forall i :: 0 <= i < |b| ==> b[i].status != Enrollments.Active {
      InactivePremiumsZero(b, policies);
    }
  }

  lemma {:induction false} ActivePremiumsAppend(a: seq<Enrollments.Enrollment>, b: seq<Enrollments.Enrollment>,
                                                policies: map<int, Policies.Policy>)
    ensures ActivePremiums(a + b, policies) == ActivePremiums(a, policies) + ActivePremiums(b, policies)
  {
    if a != [] {
      assert (a + b)[0] == a[0] && (a + b)[1..] == a[1..] + b;
      ActivePremiumsAppend(a[1..], b, policies);
    } else {
      assert a + b == b;
    }
  }

  /** One more enrollment adds its policy's premium to the sum iff it is
      ACTIVE, so the sum is the premiums of exactly the ACTIVE rows. */
  lemma {:induction false} OnlyActivePremiumsCount(rows: seq<Enrollments.Enrollment>, e: Enrollments.Enrollment,
                                                   policies: map<int, Policies.Policy>)
    ensures ActivePremiums(rows + [e], policies)
         == ActivePremiums(rows, policies) + (if e.status == Enrollments.Active then PremiumOf(policies, e.policyId) else 0)
  {
    ActivePremiumsAppend(rows, [e], policies);
    assert [e][1..] == [];
  }

  /** The commission grows by 5% of a policy's premium (5 hundredths per
      minor unit) for each ACTIVE enrollment and by nothing for any other. */
  lemma {:induction false} CommissionPerEnrollment(rows: seq<Enrollments.Enrollment>, e: Enrollments.Enrollment,
                                                   policies: map<int, Policies.Policy>)
    ensures Commission([], policies) == 0
    ensures Commission(rows + [e], policies)
         == Commission(rows, policies) + (if e.status == Enrollments.Active then 5 * PremiumOf(policies, e.policyId) else 0)
  {
    OnlyActivePremiumsCount(rows, e, policies);
  }

  lemma {:induction false} InactivePremiumsZero(b: seq<Enrollments.Enrollment>, policies: map<int, Policies.Policy>)
    requires forall i :: 0 <= i < |b| ==> b[i].status != Enrollments.Active
    ensures ActivePremiums(b, policies) == 0
  {
    if b != [] {
      assert forall i :: 0 <= i < |b[1..]| ==> b[1..][i] == b[i + 1];
      InactivePremiumsZero(b[1..], policies);
    }
  }

  // ---------------------------------------------------------------------
  // Doctor's appointment actions

  const DefaultRejectionReason: string := "Doctor is unavailable at this time"

  /** The reason a doctor's reject action records: the given reason trimmed,
      or the default when none is given or it trims to nothing. Either way
      it is never empty and has no space or control character at either end. */
  function RejectionReason(raw: Option<string>): (r: string)
    ensures raw.Some? && Trim(raw.value) != [] ==> r == Trim(raw.value)
    ensures (raw.None? || Trim(raw.value) == []) ==> r == DefaultRejectionReason
    ensures r != [] && r[0] > ' ' && r[|r| - 1] > ' '
  {
    if raw.Some? && Trim(raw.value) != [] then
      TrimIsSlice(raw.value);
      Trim(raw.value)
    else DefaultRejectionReason
  }

  /** The "complete" action: the appointment is looked up, refused unless the
      signed-in doctor is its doctor, and then marked COMPLETED through
      `updateAppointmentStatus`. */
  method CompleteAppointment(svc: Appointments.AppointmentService, id: int, doctorId: int, now: int)
    returns (r: Result<Appointments.Appointment>)
    requires svc.Valid() && svc.audit.Valid()
    modifies svc, svc.audit
    ensures svc.Valid() && svc.audit.Valid() && svc.nextId == old(svc.nextId)
    ensures r.Ok? <==> id in old(svc.appointments) && old(svc.appointments)[id].doctorId == doctorId
    ensures id !in old(svc.appointments) ==> r == Err(AppointmentNotFound)
    ensures (id in old(svc.appointments) && old(svc.appointments)[id].doctorId != doctorId ==>
               r == Err(NotAppointmentDoctor))
    ensures (r.Err? ==> svc.appointments == old(svc.appointments)
                        && svc.audit.entries == old(svc.audit.entries))
    ensures (r.Ok? ==>
      r.value == old(svc.appointments)[id].(status := Appointments.Completed)
      && svc.appointments == old(svc.appointments)[id := r.value]
      && svc.audit.entries == old(svc.audit.entries)
           + [AuditLogs.AuditLog(|old(svc.audit.entries)| + 1, AuditLogs.AppointmentEntity, id, AuditLogs.Update,
                                 "DOCTOR", now,
                                 AuditLogs.AppointmentStatusUpdated(Appointments.StatusName(Appointments.Completed)))])
  {
    var found := svc.GetAppointmentById(id);
    if found.Err? {
      return Err(found.failure);
    }
    if found.value.doctorId != doctorId {
      return Err(NotAppointmentDoctor);
    }
    r := svc.UpdateAppointmentStatus(id, Appointments.Completed, now);
  }
}
