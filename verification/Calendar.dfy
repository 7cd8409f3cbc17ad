/** The hand-written Gregorian calendar: day numbers since 1970-01-01 to dates and back. */
module Calendar {
  import opened Basics

  const U64_MAX: int := 0xffff_ffff_ffff_ffff

  datatype Date = Date(year: nat, month: nat, day: nat)

  predicate IsLeap(year: nat) {
    (year % 4 == 0 && year % 100 != 0) || year % 400 == 0
  }

  function YearLength(year: nat): nat {
    if IsLeap(year) then 366 else 365
  }

  function MonthLengths(year: nat): (ms: seq<nat>)
    ensures |ms| == 12
  {
    [31, if IsLeap(year) then 29 else 28, 31, 30, 31, 30, 31, 31, 30, 31, 30, 31]
  }

  /** Days from 1970-01-01 to January 1st of `year`; years up to 1970 count as 1970. */
  function YearStart(year: nat): nat {
    if year <= 1970 then 0 else YearStart(year - 1) + YearLength(year - 1)
  }

  /** Days in the first `n` months. */
  function MonthStart(year: nat, n: nat): nat
    requires n <= 12
  {
    if n == 0 then 0 else MonthStart(year, n - 1) + MonthLengths(year)[n - 1]
  }

  /** `take(month - 1)` with the subtraction wrapping at zero. */
  function MonthsBefore(month: nat): (n: nat)
    ensures n <= 12
  {
    if month == 0 || month > 12 then 12 else month - 1
  }

  /** Day number of a date; month zero counts a whole year and day zero wraps, as the 64-bit arithmetic does. */
  function DaysFromYmd(year: nat, month: nat, day: nat): nat {
    var d := YearStart(year) + MonthStart(year, MonthsBefore(month));
    if d + day == 0 then U64_MAX else d + day - 1
  }

  method ComputeDaysFromYmd(year: nat, month: nat, day: nat) returns (n: nat)
    ensures n == DaysFromYmd(year, month, day)
  {
    var d := 0;
    var y := 1970;
    while y < year
      invariant y <= year || y == 1970
      invariant d == YearStart(y)
    {
      d := d + if IsLeap(y) then 366 else 365;
      y := y + 1;
    }
    var months := MonthLengths(year);
    var base := d;
    for i := 0 to MonthsBefore(month)
      invariant d == base + MonthStart(year, i)
    {
      d := d + months[i];
    }
    n := if d + day == 0 then U64_MAX else d + day - 1;
  }

  // ----- day number to date -----

  function YearOf(days: nat, year: nat): (nat, nat)
    decreases days
  {
    if days < YearLength(year) then (year, days) else YearOf(days - YearLength(year), year + 1)
  }

  /** Whole months, starting with month `m + 1`, that fit into `days`; the rest is left over. */
  function MonthOf(year: nat, days: nat, m: nat): (nat, nat)
    requires m <= 12
    decreases 12 - m
  {
    if m == 12 || days < MonthLengths(year)[m] then (m + 1, days)
    else MonthOf(year, days - MonthLengths(year)[m], m + 1)
  }

  function DaysToYmd(days: nat): Date
  {
    var (year, rest) := YearOf(days, 1970);
    var (month, left) := MonthOf(year, rest, 0);
    Date(year, month, left + 1)
  }

  method ComputeDaysToYmd(days: nat) returns (date: Date)
    ensures date == DaysToYmd(days)
  {
    var rest: nat, year: nat := days, 1970;
    while rest >= YearLength(year)
      invariant YearOf(rest, year) == YearOf(days, 1970)
      decreases rest
    {
      rest := rest - YearLength(year);
      year := year + 1;
    }
    var months := MonthLengths(year);
    var inYear := rest;
    var month := 1;
    for i := 0 to 12
      invariant month == i + 1
      invariant MonthOf(year, rest, i) == MonthOf(year, inYear, 0)
    {
      if rest < months[i] {
        break;
      }
      rest := rest - months[i];
      month := month + 1;
    }
    date := Date(year, month, rest + 1);
  }

  // ----- the calendar they agree on -----

  predicate ValidDate(d: Date) {
    1970 <= d.year && 1 <= d.month <= 12 && 1 <= d.day <= MonthLengths(d.year)[d.month - 1]
  }

  function DayNumber(d: Date): nat {
    DaysFromYmd(d.year, d.month, d.day)
  }

  /** Chronological order, field by field. */
  predicate Earlier(a: Date, b: Date) {
    || a.year < b.year
    || (a.year == b.year && (a.month < b.month || (a.month == b.month && a.day < b.day)))
  }

  lemma MonthStarts(year: nat)
    ensures MonthStart(year, 12) == YearLength(year)
    ensures forall i, j :: 0 <= i < j <= 12 ==> MonthStart(year, i) + MonthLengths(year)[i] <= MonthStart(year, j)
  {
    var ms := MonthLengths(year);
    forall i, j | 0 <= i < j <= 12 ensures MonthStart(year, i) + ms[i] <= MonthStart(year, j) {
      MonthStartsGrow(year, i, j);
    }
    var f := ms[1];
    assert MonthStart(year, 2) == 31 + f;
    assert MonthStart(year, 4) == 31 + f + 61;
    assert MonthStart(year, 6) == 31 + f + 122;
    assert MonthStart(year, 8) == 31 + f + 184;
    assert MonthStart(year, 10) == 31 + f + 245;
    assert MonthStart(year, 12) == 31 + f + 306;
  }

  lemma {:induction false} MonthStartsGrow(year: nat, i: nat, j: nat)
    requires i < j <= 12
    ensures MonthStart(year, i) + MonthLengths(year)[i] <= MonthStart(year, j)
    decreases j
  {
    if i + 1 < j {
      MonthStartsGrow(year, i, j - 1);
    }
  }

  lemma {:induction false} YearOfMeaning(days: nat, year: nat)
    requires 1970 <= year
    ensures var (y, rest) := YearOf(days, year);
            y >= year && rest < YearLength(y) && YearStart(year) + days == YearStart(y) + rest
    decreases days
  {
    if days >= YearLength(year) {
      YearOfMeaning(days - YearLength(year), year + 1);
    }
  }

  lemma {:induction false} MonthOfMeaning(year: nat, days: nat, m: nat)
    requires m <= 12 && days + MonthStart(year, m) < YearLength(year)
    ensures var (month, left) := MonthOf(year, days, m);
            && m < month <= 12 && left < MonthLengths(year)[month - 1]
            && MonthStart(year, m) + days == MonthStart(year, month - 1) + left
    decreases 12 - m
  {
    MonthStarts(year);
    if m < 12 && days >= MonthLengths(year)[m] {
      MonthOfMeaning(year, days - MonthLengths(year)[m], m + 1);
    }
  }

  lemma DayNumberSum(d: Date)
    requires ValidDate(d)
    ensures DayNumber(d) == YearStart(d.year) + MonthStart(d.year, d.month - 1) + (d.day - 1)
  {
  }

  /** Every day number has a valid date, and that date's day number is the one started from. */
  lemma DaysRoundTrip(n: nat)
    ensures ValidDate(DaysToYmd(n))
    ensures DayNumber(DaysToYmd(n)) == n
  {
    YearOfMeaning(n, 1970);
    var (year, rest) := YearOf(n, 1970);
    MonthOfMeaning(year, rest, 0);
    var (month, left) := MonthOf(year, rest, 0);
    var date := DaysToYmd(n);
    assert date == Date(year, month, left + 1) && ValidDate(date);
    DayNumberSum(date);
  }

  lemma {:induction false} YearStartsGrow(a: nat, b: nat)
    requires 1970 <= a < b
    ensures YearStart(a) + YearLength(a) <= YearStart(b)
    decreases b
  {
    if a + 1 < b {
      YearStartsGrow(a, b - 1);
    }
  }

  /** Day numbers order valid dates chronologically. */
  lemma DayNumberOrder(a: Date, b: Date)
    requires ValidDate(a) && ValidDate(b)
    ensures DayNumber(a) < DayNumber(b) <==> Earlier(a, b)
  {
    if Earlier(a, b) {
      EarlierCounts(a, b);
    } else if Earlier(b, a) {
      EarlierCounts(b, a);
    }
  }

  lemma EarlierCounts(a: Date, b: Date)
    requires ValidDate(a) && ValidDate(b) && Earlier(a, b)
    ensures DayNumber(a) < DayNumber(b)
  {
    DayNumberSum(a);
    DayNumberSum(b);
    MonthStarts(a.year);
    assert MonthStart(a.year, a.month - 1) + MonthLengths(a.year)[a.month - 1] <= MonthStart(a.year, 12);
    if a.year < b.year {
      YearStartsGrow(a.year, b.year);
    }
  }

  /** A valid date is recovered from its day number. */
  lemma DateRoundTrip(d: Date)
    requires ValidDate(d)
    ensures DaysToYmd(DayNumber(d)) == d
  {
    DaysRoundTrip(DayNumber(d));
    DayNumberOrder(d, DaysToYmd(DayNumber(d)));
    DayNumberOrder(DaysToYmd(DayNumber(d)), d);
  }

  // ----- against the Gregorian rule in closed form -----

  /** Leap years among the years 1 to `year`. */
  function LeapsThrough(year: nat): int {
    year / 4 - year / 100 + year / 400
  }

  lemma LeapsThroughStep(year: nat)
    requires year >= 1
    ensures LeapsThrough(year) == LeapsThrough(year - 1) + if IsLeap(year) then 1 else 0
  {
    QuotientStep(year, 4);
    QuotientStep(year, 100);
    QuotientStep(year, 400);
    CenturiesAreFourths(year);
  }

  lemma CenturiesAreFourths(year: nat)
    ensures year % 100 == 0 ==> year % 4 == 0
    ensures year % 400 == 0 ==> year % 100 == 0
  {
    if year % 400 == 0 {
      MultipleOf(year, 100, 4 * (year / 400));
    }
    if year % 100 == 0 {
      MultipleOf(year, 4, 25 * (year / 100));
    }
  }

  lemma MultipleOf(n: nat, k: nat, q: nat)
    requires k in {4, 100} && n == k * q
    ensures n % k == 0
  {
  }

  lemma QuotientStep(n: nat, k: nat)
    requires n >= 1 && k in {4, 100, 400}
    ensures n / k == (n - 1) / k + if n % k == 0 then 1 else 0
  {
  }

  /** The year loop counts 365 days a year plus one for each Gregorian leap year since 1970. */
  lemma {:induction false} YearStartClosedForm(year: nat)
    requires year >= 1970
    ensures YearStart(year) == 365 * (year - 1970) + LeapsThrough(year - 1) - LeapsThrough(1969)
    decreases year
  {
    if year > 1970 {
      YearStartClosedForm(year - 1);
      LeapsThroughStep(year - 1);
    }
  }

  /** Days before month `m` in closed form: the Gregorian month lengths without a table. */
  function MonthOffset(year: nat, m: nat): int {
    (367 * m - 362) / 12 - if m <= 2 then 0 else if IsLeap(year) then 1 else 2
  }

  lemma MonthStartClosedForm(year: nat, m: nat)
    requires 1 <= m <= 12
    ensures MonthStart(year, m - 1) == MonthOffset(year, m)
  {
    EarlyMonths(year);
    LateMonths(year);
  }

  lemma EarlyMonths(year: nat)
    ensures MonthStart(year, 0) == 0 && MonthStart(year, 1) == 31
    ensures var leap := if IsLeap(year) then 1 else 0;
            && MonthStart(year, 2) == 59 + leap && MonthStart(year, 3) == 90 + leap
            && MonthStart(year, 4) == 120 + leap && MonthStart(year, 5) == 151 + leap
  {
    assert MonthStart(year, 2) == MonthStart(year, 1) + MonthLengths(year)[1];
    assert MonthStart(year, 4) == MonthStart(year, 3) + MonthLengths(year)[3];
  }

  lemma LateMonths(year: nat)
    ensures var leap := if IsLeap(year) then 1 else 0;
            && MonthStart(year, 6) == 181 + leap && MonthStart(year, 7) == 212 + leap
            && MonthStart(year, 8) == 243 + leap && MonthStart(year, 9) == 273 + leap
            && MonthStart(year, 10) == 304 + leap && MonthStart(year, 11) == 334 + leap
  {
    EarlyMonths(year);
    assert MonthStart(year, 6) == MonthStart(year, 5) + MonthLengths(year)[5];
    assert MonthStart(year, 8) == MonthStart(year, 7) + MonthLengths(year)[7];
    assert MonthStart(year, 10) == MonthStart(year, 9) + MonthLengths(year)[9];
  }

  /** The day number of any date, without the month table and without a loop. */
  lemma DayNumberClosedForm(year: nat, m: nat, day: nat)
    requires year >= 1970 && 1 <= m <= 12 && day >= 1
    ensures DayNumber(Date(year, m, day))
            == 365 * (year - 1970) + LeapsThrough(year - 1) - LeapsThrough(1969) + MonthOffset(year, m) + day - 1
  {
    YearStartClosedForm(year);
    MonthStartClosedForm(year, m);
  }

  /** The first day of the month after `m`. */
  function NextFirst(year: nat, m: nat): Date {
    if m == 12 then Date(year + 1, 1, 1) else Date(year, m + 1, 1)
  }

  /** A date is valid exactly when its day falls before the first of the next month, by the closed form. */
  lemma ValidDateExactly(d: Date)
    requires d.year >= 1970 && 1 <= d.month <= 12
    ensures ValidDate(d)
            <==> 1 <= d.day <= DayNumber(NextFirst(d.year, d.month)) - DayNumber(Date(d.year, d.month, 1))
  {
    MonthLengthIsGap(d.year, d.month);
  }

  lemma MonthLengthIsGap(year: nat, m: nat)
    requires year >= 1970 && 1 <= m <= 12
    ensures DayNumber(NextFirst(year, m)) == DayNumber(Date(year, m, 1)) + MonthLengths(year)[m - 1]
  {
    assert MonthStart(year, m) == MonthStart(year, m - 1) + MonthLengths(year)[m - 1];
    if m == 12 {
      MonthStarts(year);
      assert YearStart(year + 1) == YearStart(year) + YearLength(year);
      assert MonthStart(year + 1, 0) == 0;
    }
  }
}
