/** Shared vocabulary of the medisure service layer: optional values, the
    outcome of an operation that may throw, the failures the services raise,
    and the few `java.lang.String` operations the services rely on. */
module Common {

  datatype Option<T> = None | Some(value: T)

  /** The exceptions the services throw, one constructor per distinct message.
      The "Current status: ..." suffixes of the state-machine messages are not
      carried. `DuplicateKey` is the database refusing a save that would break
      a unique column; `NotUniqueResult` is Spring Data refusing a single-row
      finder that matches several rows. */
  datatype Failure =
    | UserNotFound | PolicyNotFound | PolicyNotAvailable | PaymentFailed
    | HolderNotFound | NotUniqueResult
    | NotActiveForDeactivation | NotActiveForSuspension | NotSuspendedForReactivation
    | ReactivationAfterEnd | NotPendingApproval
    | AlreadyApprovedByPolicyManager | AlreadyApprovedByFinanceOfficer
    | PolicyNotOwned | ClaimNotFound | FinanceRecordNotFound
    | DoctorNotFound | DoctorNotAvailable | SlotAlreadyBooked | AppointmentNotFound
    | NotAppointmentDoctor
    | EmailExists | PasswordsDoNotMatch | FullNameEmpty | EmailEmpty
    | PasswordTooShort | RoleNull | RoleNotEligible | NotEmployeeAccount
    | LastAdminMustRemain | LastAdminCannotBeDeleted
    | FullNameRequired | EmailRequired | PasswordRequired | RoleRequired
    | InvalidRole(roleValue: string)
    | RoleNotEligibleForCreation(roleName: string)
    | RoleNotEligibleForManagement(roleName: string)
    | CannotRemoveOwnAdmin | CannotDeleteOwnAccount
    | PhoneExists | EmployeeIdExists | TicketNotFound
    | PurchasePolicyNotFound | PurchaseHolderNotFound
    | DuplicateKey

  datatype Result<T> = Ok(value: T) | Err(failure: Failure)

  /** Spring Data `Optional` finder over a table keyed by id. */
  function Find<V>(table: map<int, V>, id: int): (r: Option<V>)
    ensures r.Some? <==> id in table
    ensures r.Some? ==> r.value == table[id]
  {
    if id in table then Some(table[id]) else None
  }

  /** The rows of a table that satisfy a derived-query condition. */
  function Select<V>(table: map<int, V>, p: V -> bool): (r: map<int, V>)
    ensures forall k :: k in r <==> k in table && p(table[k])
    ensures forall k :: k in r ==> r[k] == table[k]
  {
    map k | k in table && p(table[k]) :: table[k]
  }

  /** `stream().filter(p)`: keeps the elements satisfying `p`, in order. */
  function Where<T(!new)>(s: seq<T>, p: T -> bool): (r: seq<T>)
    ensures |r| <= |s|
    ensures forall x :: x in r <==> x in s && p(x)
    ensures forall i :: 0 <= i < |r| ==> p(r[i])
  {
    if s == [] then []
    else if p(s[0]) then [s[0]] + Where(s[1..], p)
    else Where(s[1..], p)
  }

  /** Filtering a list that grew by one element yields the old answer, plus the
      new element when it qualifies: earlier results are never rewritten. */
  lemma {:induction false} WhereAppend<T(!new)>(s: seq<T>, x: T, p: T -> bool)
    ensures Where(s + [x], p) == Where(s, p) + (if p(x) then [x] else [])
  {
    if s != [] {
      assert (s + [x])[1..] == s[1..] + [x];
      WhereAppend(s[1..], x, p);
    }
  }

  /** A non-empty set has a member to pick. */
  lemma {:induction false} Member<T>(s: set<T>) returns (x: T)
    requires s != {}
    ensures x in s
  {
    if forall y :: y !in s { }
    x :| x in s;
  }

  /** A set of one element has no two different members. */
  lemma {:induction false} SingletonMembersEqual<T>(s: set<T>)
    requires |s| == 1
    ensures forall a, b :: a in s && b in s ==> a == b
  {
    var x := Member(s);
    assert s == {x} + (s - {x});
    assert s - {x} == {};
  }

  // ---------------------------------------------------------------------
  // Stable sorting by an integer key, as `Stream.sorted(comparing(key))`

  predicate SortedBy<T>(s: seq<T>, key: T -> int)
  {
    forall i, j :: 0 <= i < j < |s| ==> key(s[i]) <= key(s[j])
  }

  /** Puts `x` before the first element whose key is not smaller. */
  function InsertBy<T(==)>(x: T, s: seq<T>, key: T -> int): (r: seq<T>)
    requires SortedBy(s, key)
    ensures SortedBy(r, key) && multiset(r) == multiset(s) + multiset{x} && |r| == |s| + 1
    ensures r[0] == x || (s != [] && r[0] == s[0])
  {
    if s == [] || key(x) <= key(s[0]) then [x] + s
    else
      var rest := InsertBy(x, s[1..], key);
      assert s == [s[0]] + s[1..];
      [s[0]] + rest
  }

  /** An insertion sort that keeps elements with equal keys in their order. */
  function SortBy<T(==)>(s: seq<T>, key: T -> int): (r: seq<T>)
    ensures SortedBy(r, key) && multiset(r) == multiset(s) && |r| == |s|
  {
    if s == [] then []
    else
      assert s == [s[0]] + s[1..];
      InsertBy(s[0], SortBy(s[1..], key), key)
  }

  /** Cutting a sorted list at `k`: the head is sorted, and every element of
      the tail has a key no smaller than any element of the head. */
  lemma {:induction false} SortedPrefix<T>(s: seq<T>, k: nat, key: T -> int)
    requires SortedBy(s, key) && k <= |s|
    ensures SortedBy(s[..k], key)
    ensures multiset(s[..k]) <= multiset(s)
    ensures multiset(s) - multiset(s[..k]) == multiset(s[k..])
    ensures forall x, i :: x in multiset(s[k..]) && 0 <= i < k ==> key(s[i]) <= key(x)
  {
    assert s == s[..k] + s[k..];
    assert multiset(s) == multiset(s[..k]) + multiset(s[k..]);
    forall x, i | x in multiset(s[k..]) && 0 <= i < k
      ensures key(s[i]) <= key(x)
    {
      var j :| 0 <= j < |s[k..]| && s[k..][j] == x;
      assert s[k + j] == x;
    }
  }

  // ---------------------------------------------------------------------
  // java.lang.String

  /** `Character.isWhitespace`, which `String.isBlank` uses: the Unicode space,
      line and paragraph separators other than the no-break spaces, and the
      ASCII controls TAB, LF, VT, FF, CR and FS, GS, RS, US. */
  predicate IsWhitespace(c: char)
  {
    ('\t' <= c <= '\r') || ('\U{1C}' <= c <= ' ')
    || c == '\U{1680}' || ('\U{2000}' <= c <= '\U{2006}') || ('\U{2008}' <= c <= '\U{200A}')
    || c == '\U{2028}' || c == '\U{2029}' || c == '\U{205F}' || c == '\U{3000}'
  }

  /** `s == null || s.isBlank()` with `None` for null. */
  predicate IsBlank(s: string)
  {
    forall i :: 0 <= i < |s| ==> IsWhitespace(s[i])
  }

  predicate NullOrBlank(s: Option<string>)
  {
    s.None? || IsBlank(s.value)
  }

  /** `String.trim` strips every leading character whose code is at most U+0020. */
  function TrimStart(s: string): (r: string)
    ensures |r| <= |s| && r == s[|s| - |r|..]
    ensures r == [] || r[0] > ' '
  {
    if s != [] && s[0] <= ' ' then TrimStart(s[1..]) else s
  }

  /** Every character `TrimStart` drops is at most U+0020. */
  lemma {:induction false} TrimStartDropsBlanks(s: string)
    ensures forall i :: 0 <= i < |s| - |TrimStart(s)| ==> s[i] <= ' '
  {
    if s != [] && s[0] <= ' ' {
      TrimStartDropsBlanks(s[1..]);
      assert forall i :: 1 <= i < |s| ==> s[i] == s[1..][i - 1];
    }
  }

  /** ... and every trailing one. */
  function TrimEnd(s: string): (r: string)
    ensures |r| <= |s| && r == s[..|r|]
    ensures r == [] || r[|r| - 1] > ' '
  {
    if s != [] && s[|s| - 1] <= ' ' then TrimEnd(s[..|s| - 1]) else s
  }

  /** Every character `TrimEnd` drops is at most U+0020. */
  lemma {:induction false} TrimEndDropsBlanks(s: string)
    ensures forall i :: |TrimEnd(s)| <= i < |s| ==> s[i] <= ' '
  {
    if s != [] && s[|s| - 1] <= ' ' {
      TrimEndDropsBlanks(s[..|s| - 1]);
      assert forall i :: 0 <= i < |s| - 1 ==> s[i] == s[..|s| - 1][i];
    }
  }

  function Trim(s: string): string
  {
    TrimEnd(TrimStart(s))
  }

  /** `s.trim().isEmpty()` holds exactly when no character of `s` is above U+0020. */
  lemma {:induction false} TrimEmptyIff(s: string)
    ensures Trim(s) == [] <==> forall i :: 0 <= i < |s| ==> s[i] <= ' '
  {
    var t := TrimStart(s);
    if Trim(s) != [] {
      var j :| 0 <= j < |Trim(s)| && Trim(s)[j] > ' ';
      assert s[|s| - |t| + j] == t[j];
    } else {
      TrimStartDropsBlanks(s);
      TrimEndDropsBlanks(t);
    }
  }

  /** The trimmed string keeps its inner characters: it is a slice of the input
      with no character at most U+0020 at either end. */
  lemma {:induction false} TrimIsSlice(s: string)
    ensures exists i, j :: 0 <= i <= j <= |s| && Trim(s) == s[i..j]
    ensures Trim(s) == [] || (Trim(s)[0] > ' ' && Trim(s)[|Trim(s)| - 1] > ' ')
  {
    var t := TrimStart(s);
    var r := TrimEnd(t);
    var i := |s| - |t|;
    SliceOfSuffix(s, i, |r|);
    assert r == s[i..i + |r|];
    if r != [] {
      assert r[0] == t[0];
    }
  }

  lemma {:induction false} SliceOfSuffix(s: string, i: nat, k: nat)
    requires i + k <= |s|
    ensures s[i..][..k] == s[i..i + k]
  {
  }

  /** `Character.toUpperCase`, on the ASCII letters. */
  function UpperChar(c: char): char
  {
    if 'a' <= c <= 'z' then (c as int - 32) as char else c
  }

  /** `Character.toLowerCase`, on the ASCII letters. */
  function LowerChar(c: char): char
  {
    if 'A' <= c <= 'Z' then (c as int + 32) as char else c
  }

  function Upper(s: string): (r: string)
    ensures |r| == |s| && forall i :: 0 <= i < |s| ==> r[i] == UpperChar(s[i])
  {
    seq(|s|, i requires 0 <= i < |s| => UpperChar(s[i]))
  }

  function Lower(s: string): (r: string)
    ensures |r| == |s| && forall i :: 0 <= i < |s| ==> r[i] == LowerChar(s[i])
  {
    seq(|s|, i requires 0 <= i < |s| => LowerChar(s[i]))
  }

  /** `String.replace(char, char)`. */
  function ReplaceChar(s: string, from: char, to: char): (r: string)
    ensures |r| == |s|
    ensures forall i :: 0 <= i < |s| ==> r[i] == (if s[i] == from then to else s[i])
  {
    seq(|s|, i requires 0 <= i < |s| => if s[i] == from then to else s[i])
  }

  /** `String.equalsIgnoreCase`: same length, and each pair of characters is
      equal once both are upper-cased or both are lower-cased. */
  predicate EqualsIgnoreCase(a: string, b: string)
  {
    |a| == |b|
    && forall i :: 0 <= i < |a| ==>
         a[i] == b[i] || UpperChar(a[i]) == UpperChar(b[i]) || LowerChar(a[i]) == LowerChar(b[i])
  }

  /** `String.contains`. */
  predicate Contains(s: string, part: string)
  {
    exists i :: 0 <= i <= |s| - |part| && OccursAt(s, part, i)
  }

  predicate OccursAt(s: string, part: string, i: int)
    requires 0 <= i <= |s| - |part|
  {
    s[i..i + |part|] == part
  }

  /** Decimal rendering of an integer, as `String.valueOf(long)` writes it. */
  function Show(n: int): (r: string)
    decreases if n < 0 then 1 - n else n
  {
    if n < 0 then "-" + Show(-n)
    else if n < 10 then [Digit(n)]
    else Show(n / 10) + [Digit(n % 10)]
  }

  function Digit(d: int): char
    requires 0 <= d < 10
  {
    ('0' as int + d) as char
  }

  /** "null" for an absent string, as string concatenation writes it. */
  function OrNull(s: Option<string>): string
  {
    if s.Some? then s.value else "null"
  }
}
