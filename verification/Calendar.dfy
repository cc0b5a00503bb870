/** The proleptic Gregorian calendar as Go's `time` package uses it, at day resolution.
    As there, a point in time is a plain number (here the day number, 0001-01-01 being 1)
    and the civil year, month and day are decoded from it. */
module Calendar {

  type Day = int

  /** The zero time.Time, 0001-01-01, for which IsZero answers true. */
  const ZERO_DAY: Day := 1

  datatype RawDate = RawDate(y: int, m: int, d: int)

  type Date = r: RawDate | ValidDate(r) witness RawDate(1, 1, 1)

  predicate IsLeap(y: int) {
    y % 4 == 0 && (y % 100 != 0 || y % 400 == 0)
  }

  function MonthLength(y: int, m: int): int
    requires 1 <= m <= 12
  {
    if m == 2 then (if IsLeap(y) then 29 else 28)
    else if m == 4 || m == 6 || m == 9 || m == 11 then 30
    else 31
  }

  predicate ValidDate(r: RawDate) {
    1 <= r.m <= 12 && 1 <= r.d <= MonthLength(r.y, r.m)
  }

  function DaysBeforeYear(y: int): int {
    365 * (y - 1) + (y - 1) / 4 - (y - 1) / 100 + (y - 1) / 400
  }

  function DaysBeforeMonth(y: int, m: int): int
    requires 1 <= m <= 12
  {
    (if m > 2 && IsLeap(y) then 1 else 0)
    + [0, 31, 59, 90, 120, 151, 181, 212, 243, 273, 304, 334][m - 1]
  }

  function Ordinal(dt: Date): int {
    DaysBeforeYear(dt.y) + DaysBeforeMonth(dt.y, dt.m) + dt.d
  }

  /** Number of whole months since year 0. */
  function MonthIndex(dt: RawDate): int {
    12 * dt.y + dt.m - 1
  }

  lemma QuotientSteps(x: int)
    ensures x / 4 == (x - 1) / 4 + (if x % 4 == 0 then 1 else 0)
    ensures x / 100 == (x - 1) / 100 + (if x % 100 == 0 then 1 else 0)
    ensures x / 400 == (x - 1) / 400 + (if x % 400 == 0 then 1 else 0)
  {
    QuotientStep4(x); QuotientStep100(x); QuotientStep400(x);
  }

  lemma QuotientStep4(x: int)
    ensures x / 4 == (x - 1) / 4 + (if x % 4 == 0 then 1 else 0)
  {
  }

  lemma QuotientStep100(x: int)
    ensures x / 100 == (x - 1) / 100 + (if x % 100 == 0 then 1 else 0)
  {
  }

  lemma QuotientStep400(x: int)
    ensures x / 400 == (x - 1) / 400 + (if x % 400 == 0 then 1 else 0)
  {
  }

  lemma Multiple400(y: int)
    requires y % 400 == 0
    ensures y % 100 == 0
  {
    assert y == 100 * (4 * (y / 400));
  }

  lemma Multiple100(y: int)
    requires y % 100 == 0
    ensures y % 4 == 0
  {
    assert y == 4 * (25 * (y / 100));
  }

  lemma YearLength(y: int)
    ensures DaysBeforeYear(y + 1) == DaysBeforeYear(y) + (if IsLeap(y) then 366 else 365)
  {
    QuotientSteps(y);
    if y % 400 == 0 { Multiple400(y); }
    if y % 100 == 0 { Multiple100(y); }
  }

  /** Months of a year are laid out one after the other, and December ends it. */
  lemma MonthLayout(y: int, m: int)
    requires 1 <= m <= 12
    ensures DaysBeforeMonth(y, m) + MonthLength(y, m)
         == if m < 12 then DaysBeforeMonth(y, m + 1) else if IsLeap(y) then 366 else 365
  {
  }

  lemma {:induction false} YearsOrdered(y: int, z: int)
    requires y < z
    ensures DaysBeforeYear(y + 1) <= DaysBeforeYear(z)
    ensures DaysBeforeYear(z) - DaysBeforeYear(y) >= z - y
    decreases z - y
  {
    YearLength(z - 1);
    if y + 1 < z { YearsOrdered(y, z - 1); }
  }

  function Abs(n: int): nat {
    if n < 0 then -n else n
  }

  predicate InYear(n: Day, y: int) {
    DaysBeforeYear(y) < n <= DaysBeforeYear(y + 1)
  }

  /** Every day lies in some year, and only in one. */
  lemma {:induction false} YearExists(n: Day) returns (y: int)
    ensures InYear(n, y)
    decreases Abs(n - 1)
  {
    hide DaysBeforeYear, IsLeap;
    if n == 1 {
      y := 1;
      FirstYear();
    } else {
      y := YearExists(if n < 1 then n + 1 else n - 1);
      YearLength(y - 1); YearLength(y); YearLength(y + 1);
      if n <= DaysBeforeYear(y) { y := y - 1; } else if n > DaysBeforeYear(y + 1) { y := y + 1; }
    }
  }

  lemma FirstYear()
    ensures InYear(1, 1)
  {
  }

  lemma YearUnique(n: Day, y: int, z: int)
    requires InYear(n, y) && InYear(n, z)
    ensures y == z
  {
    if y < z { YearsOrdered(y, z); } else if z < y { YearsOrdered(z, y); }
  }

  lemma YearBounded(n: Day, y: int)
    requires InYear(n, y)
    ensures -2 - Abs(n) <= y <= 2 + Abs(n)
  {
    assert DaysBeforeYear(1) == 0;
    if y > 1 { YearsOrdered(1, y); }
    if y + 1 < 1 { YearsOrdered(y + 1, 1); }
  }

  function YearOf(n: Day): (y: int)
    ensures InYear(n, y)
  {
    assert exists y :: -2 - Abs(n) <= y <= 2 + Abs(n) && InYear(n, y) by {
      var y := YearExists(n);
      YearBounded(n, y);
    }
    assert forall y, z :: InYear(n, y) && InYear(n, z) ==> y == z by {
      forall y, z | InYear(n, y) && InYear(n, z) ensures y == z { YearUnique(n, y, z); }
    }
    var y :| -2 - Abs(n) <= y <= 2 + Abs(n) && InYear(n, y);
    y
  }

  /** The last month from m downwards that starts before the k-th day of the year. */
  function MonthOf(y: int, k: int, m: int): (r: int)
    requires 1 <= m <= 12 && k >= 1 && k <= DaysBeforeMonth(y, m) + MonthLength(y, m)
    ensures 1 <= r <= 12 && DaysBeforeMonth(y, r) < k <= DaysBeforeMonth(y, r) + MonthLength(y, r)
    decreases m
  {
    if k > DaysBeforeMonth(y, m) then m else MonthOf(y, k, m - 1)
  }

  /** The civil date of a day number. */
  function Civil(n: Day): (r: Date)
    ensures Ordinal(r) == n
  {
    var y := YearOf(n);
    var k := n - DaysBeforeYear(y);
    YearLength(y); MonthLayout(y, 12);
    var m := MonthOf(y, k, 12);
    RawDate(y, m, k - DaysBeforeMonth(y, m))
  }

  /** time.Date(y, m, d): month and day may be out of range and are normalised. */
  function GoDate(y: int, m: int, d: int): Day {
    var index := 12 * y + m - 1;
    Ordinal(RawDate(index / 12, index % 12 + 1, 1)) + d - 1
  }

  /** time.Time.AddDate. */
  function AddDate(n: Day, years: int, months: int, days: int): Day {
    var c := Civil(n);
    GoDate(c.y + years, c.m + months, c.d + days)
  }

  /** The day number of "day 0 of the next month". */
  function DaysInMonth(y: int, m: int): int {
    Civil(GoDate(y, m + 1, 0)).d
  }

  /** The ordinal orders dates exactly as year, then month, then day does. */
  lemma OrdinalIsChronological(a: Date, b: Date)
    ensures Ordinal(a) < Ordinal(b) <==>
            a.y < b.y || (a.y == b.y && (a.m < b.m || (a.m == b.m && a.d < b.d)))
  {
    if a.y < b.y || (a.y == b.y && (a.m < b.m || (a.m == b.m && a.d < b.d))) {
      ChronologicalImpliesAfter(a, b);
    } else if a != b {
      ChronologicalImpliesAfter(b, a);
    }
  }

  lemma ChronologicalImpliesAfter(a: Date, b: Date)
    requires a.y < b.y || (a.y == b.y && (a.m < b.m || (a.m == b.m && a.d < b.d)))
    ensures Ordinal(a) < Ordinal(b)
  {
    if a.y < b.y {
      YearsOrdered(a.y, b.y); YearLength(a.y);
      MonthLayout(a.y, a.m);
    }
  }

  lemma OrdinalInjective(a: Date, b: Date)
    requires Ordinal(a) == Ordinal(b)
    ensures a == b
  {
    OrdinalIsChronological(a, b);
    OrdinalIsChronological(b, a);
  }

  /** Civil and Ordinal are inverse to each other. */
  lemma CivilOfOrdinal(r: Date)
    ensures Civil(Ordinal(r)) == r
  {
    OrdinalInjective(Civil(Ordinal(r)), r);
  }

  /** An out-of-range month is carried into the year. */
  lemma GoDateNormalises(y: int, m: int, d: int, y': int, m': int)
    requires 12 * y + m == 12 * y' + m' && 1 <= m' <= 12
    ensures GoDate(y, m, d) == Ordinal(RawDate(y', m', 1)) + d - 1
  {
    var index := 12 * y + m - 1;
    assert index / 12 == y' && index % 12 == m' - 1;
  }

  /** time.Date keeps the fields of a date that needs no normalising. */
  lemma GoDateOfValid(y: int, m: int, d: int)
    requires ValidDate(RawDate(y, m, d))
    ensures Civil(GoDate(y, m, d)) == RawDate(y, m, d)
    ensures GoDate(y, m, d) == Ordinal(RawDate(y, m, d))
  {
    hide GoDate, Civil;
    GoDateNormalises(y, m, d, y, m);
    CivilOfOrdinal(RawDate(y, m, d));
  }

  /** The "day 0" trick gives the leap-year table, December included. */
  lemma DaysInMonthIsMonthLength(y: int, m: int)
    requires 1 <= m <= 12
    ensures DaysInMonth(y, m) == MonthLength(y, m)
  {
    DayZeroIsLastDay(y, m);
    CivilOfOrdinal(RawDate(y, m, MonthLength(y, m)));
  }

  lemma DayZeroIsLastDay(y: int, m: int)
    requires 1 <= m <= 12
    ensures GoDate(y, m + 1, 0) == Ordinal(RawDate(y, m, MonthLength(y, m)))
  {
    hide GoDate, Civil;
    MonthLayout(y, m);
    if m < 12 {
      GoDateNormalises(y, m + 1, 0, y, m + 1);
    } else {
      YearLength(y);
      GoDateNormalises(y, m + 1, 0, y + 1, 1);
    }
  }

  /** AddDate(0, 0, n) adds n days whatever the month and year boundaries crossed. */
  lemma AddDateDays(a: Day, n: int)
    ensures AddDate(a, 0, 0, n) == a + n
  {
    hide Civil, GoDate;
    var c := Civil(a);
    GoDateNormalises(c.y, c.m, c.d + n, c.y, c.m);
  }

  /** A later month is a later date, whatever the days. */
  lemma LaterMonthIsAfter(a: Day, b: Day)
    requires MonthIndex(Civil(a)) < MonthIndex(Civil(b))
    ensures a < b
  {
    ChronologicalImpliesAfter(Civil(a), Civil(b));
  }
}
