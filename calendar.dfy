/** `java.time.LocalDate` as far as the services use it: `plusMonths`,
    `isBefore` / `isAfter` and the ISO rendering used in audit details. */
module Calendar {
  import opened Common

  datatype Date = Date(year: int, month: int, day: int)

  /** ISO proleptic leap years. */
  predicate IsLeap(year: int)
  {
    year % 4 == 0 && (year % 100 != 0 || year % 400 == 0)
  }

  function MonthLength(year: int, month: int): (n: int)
    requires 1 <= month <= 12
    ensures 28 <= n <= 31
  {
    if month == 2 then (if IsLeap(year) then 29 else 28)
    else if month == 4 || month == 6 || month == 9 || month == 11 then 30
    else 31
  }

  predicate ValidDate(d: Date)
  {
    1 <= d.month <= 12 && 1 <= d.day <= MonthLength(d.year, d.month)
  }

  /** Months elapsed since January of year 0. */
  function MonthIndex(d: Date): int
  {
    d.year * 12 + (d.month - 1)
  }

  /** `LocalDate.plusMonths`: move the month count, then clamp the day of month
      to the length of the month reached (Jan 31 + 1 month = Feb 28 or 29). */
  function PlusMonths(d: Date, n: int): (r: Date)
    requires ValidDate(d)
    ensures ValidDate(r)
    ensures MonthIndex(r) == MonthIndex(d) + n
    ensures r.day <= d.day
    ensures r.day == d.day || r.day == MonthLength(r.year, r.month)
  {
    if n == 0 then d
    else
      var total := MonthIndex(d) + n;
      var year := total / 12;
      var month := total % 12 + 1;
      var last := MonthLength(year, month);
      Date(year, month, if d.day <= last then d.day else last)
  }

  /** `a.isBefore(b)`. */
  predicate Before(a: Date, b: Date)
  {
    a.year < b.year
    || (a.year == b.year && (a.month < b.month || (a.month == b.month && a.day < b.day)))
  }

  /** `!a.isAfter(b)`: on or before. */
  predicate NotAfter(a: Date, b: Date)
  {
    !Before(b, a)
  }

  lemma {:induction false} BeforeIsMonthIndexThenDay(a: Date, b: Date)
    requires ValidDate(a) && ValidDate(b)
    ensures Before(a, b) <==>
      MonthIndex(a) < MonthIndex(b) || (MonthIndex(a) == MonthIndex(b) && a.day < b.day)
  {
  }

  /** Adding a positive number of months always lands strictly later, and adding
      none is the identity: an enrollment never ends before it starts. */
  lemma {:induction false} PlusMonthsOrder(d: Date, n: int)
    requires ValidDate(d)
    ensures n == 0 ==> PlusMonths(d, n) == d
    ensures n > 0 ==> Before(d, PlusMonths(d, n))
    ensures n < 0 ==> Before(PlusMonths(d, n), d)
  {
    var r := PlusMonths(d, n);
    BeforeIsMonthIndexThenDay(d, r);
    BeforeIsMonthIndexThenDay(r, d);
  }

  // ---------------------------------------------------------------------
  // ISO-8601 rendering, `LocalDate.toString()`

  /** Left-pads with zeros to `width` characters. */
  function ZeroPad(s: string, width: nat): (r: string)
    ensures |r| >= width
    decreases width - |s|
  {
    if |s| >= width then s else ZeroPad("0" + s, width)
  }

  function Pad(n: nat, width: nat): string
  {
    ZeroPad(Show(n), width)
  }

  function ShowDate(d: Date): string
  {
    var y :=
      if 0 <= d.year <= 9999 then Pad(d.year, 4)
      else if d.year > 9999 then "+" + Show(d.year)
      else "-" + Pad(-d.year, 4);
    var m := if d.month >= 0 then Pad(d.month, 2) else Show(d.month);
    var dd := if d.day >= 0 then Pad(d.day, 2) else Show(d.day);
    y + "-" + m + "-" + dd
  }
}
