/** Recurring rules and their schedule. */
module Recurrence {
  import opened Calendar
  import opened Domain

  /** OtherFreq stands for any string that is none of the three known frequencies. */
  datatype Freq = Daily | Weekly | Monthly | OtherFreq

  datatype Rule = Rule(
    name: string,
    kind: Kind,
    amount: int,
    account: Id,
    toAccount: Option<Id>,
    category: Option<Id>,
    note: string,
    freq: Freq,
    interval: int,
    dayOfMonth: Option<int>,
    nextRunAt: Day,
    endAt: Option<Day>,
    active: bool)

  /** The CHECK constraints of recurring_rules that the schedule depends on. */
  predicate ScheduleOk(r: Rule) {
    && r.freq != OtherFreq
    && (r.dayOfMonth.Some? ==> 1 <= r.dayOfMonth.value <= 31)
  }

  function Step(r: Rule): int {
    if r.interval < 1 then 1 else r.interval
  }

  function WantedDay(r: Rule, from: Day): int {
    if r.dayOfMonth.Some? then r.dayOfMonth.value else Civil(from).d
  }

  function ClampedGoDate(y: int, m: int, day: int): Day {
    var last := DaysInMonth(y, m);
    GoDate(y, m, if day > last then last else day)
  }

  function Advance(r: Rule, from: Day): Day {
    match r.freq
    case Daily => AddDate(from, 0, 0, Step(r))
    case Weekly => AddDate(from, 0, 0, 7 * Step(r))
    case Monthly =>
      var months := Civil(from).m + Step(r);
      ClampedGoDate(Civil(from).y + (months - 1) / 12, (months - 1) % 12 + 1, WantedDay(r, from))
    case OtherFreq => from
  }

  /** The date in month number `index` (counted from year 0) closest to `day` without overflowing. */
  function ClampedDate(index: int, day: int): RawDate
    requires 1 <= day <= 31
  {
    RawDate(index / 12, index % 12 + 1, Min(day, MonthLength(index / 12, index % 12 + 1)))
  }

  /** A month number determines its year and month. */
  lemma ClampedParts(index: int, y: int, m: int, day: int)
    requires index == 12 * y + m - 1 && 1 <= m <= 12 && 1 <= day <= 31
    ensures ClampedDate(index, day) == RawDate(y, m, Min(day, MonthLength(y, m)))
  {
    assert index / 12 == y && index % 12 == m - 1;
  }

  lemma ClampedDateMonth(index: int, day: int)
    requires 1 <= day <= 31
    ensures MonthIndex(ClampedDate(index, day)) == index
  {
  }

  lemma MonthTarget(y: int, m: int, day: int)
    requires 1 <= m <= 12 && 1 <= day <= 31
    ensures Civil(ClampedGoDate(y, m, day)) == RawDate(y, m, Min(day, MonthLength(y, m)))
  {
    DaysInMonthIsMonthLength(y, m);
    GoDateOfValid(y, m, Min(day, MonthLength(y, m)));
  }

  lemma AdvanceParts(r: Rule, from: Day, years: int, rest: int)
    requires r.freq == Monthly
    requires Civil(from).m + Step(r) - 1 == 12 * years + rest && 0 <= rest < 12
    ensures Advance(r, from) == ClampedGoDate(Civil(from).y + years, rest + 1, WantedDay(r, from))
  {
    hide Civil, ClampedGoDate, WantedDay, ValidDate;
    assert (12 * years + rest) / 12 == years && (12 * years + rest) % 12 == rest;
  }

  lemma DivideByTwelve(k: int) returns (quotient: int, rest: int)
    ensures k == 12 * quotient + rest && 0 <= rest < 12
  {
    quotient, rest := k / 12, k % 12;
  }

  /** One monthly step: exactly Step months on, wanted day clamped to that month. */
  lemma MonthlyAdvance(r: Rule, from: Day)
    requires ScheduleOk(r) && r.freq == Monthly
    ensures Civil(Advance(r, from)) == ClampedDate(MonthIndex(Civil(from)) + Step(r), WantedDay(r, from))
  {
    hide Advance, Civil, ClampedGoDate, ClampedDate;
    var c := Civil(from);
    var years, rest := DivideByTwelve(c.m + Step(r) - 1);
    var y, m, day := c.y + years, rest + 1, WantedDay(r, from);
    AdvanceParts(r, from, years, rest);
    MonthTarget(y, m, day);
    ClampedParts(MonthIndex(c) + Step(r), y, m, day);
  }

  function MonthLengthAt(index: int): int {
    MonthLength(index / 12, index % 12 + 1)
  }

  lemma WantedDayInRange(r: Rule, from: Day)
    requires ScheduleOk(r)
    ensures 1 <= WantedDay(r, from) <= 31
  {
    hide Civil;
  }

  lemma MonthlyFields(r: Rule, from: Day)
    requires ScheduleOk(r) && r.freq == Monthly
    ensures MonthIndex(Civil(Advance(r, from))) == MonthIndex(Civil(from)) + Step(r)
    ensures Civil(Advance(r, from)).d == Min(WantedDay(r, from), MonthLengthAt(MonthIndex(Civil(from)) + Step(r)))
  {
    hide Advance, Civil, WantedDay;
    MonthlyAdvance(r, from);
    WantedDayInRange(r, from);
    ClampedDateMonth(MonthIndex(Civil(from)) + Step(r), WantedDay(r, from));
  }

  lemma AdvanceByDays(r: Rule, from: Day)
    requires r.freq == Daily || r.freq == Weekly
    ensures Advance(r, from) == from + (if r.freq == Daily then 1 else 7) * Step(r)
  {
    hide Civil, AddDate;
    AddDateDays(from, Step(r));
    AddDateDays(from, 7 * Step(r));
  }

  /** Every step of an accepted schedule goes strictly forward, by whole days,
      whole weeks or whole months. */
  lemma AdvanceIsLater(r: Rule, from: Day)
    requires ScheduleOk(r)
    ensures Advance(r, from) > from
    ensures r.freq == Daily ==> Advance(r, from) == from + Step(r)
    ensures r.freq == Weekly ==> Advance(r, from) == from + 7 * Step(r)
    ensures r.freq == Monthly ==> MonthIndex(Civil(Advance(r, from))) == MonthIndex(Civil(from)) + Step(r)
  {
    hide Advance, Civil;
    if r.freq == Monthly {
      MonthlyFields(r, from);
      LaterMonthIsAfter(from, Advance(r, from));
    } else {
      AdvanceByDays(r, from);
    }
  }

  /** A missing or negative interval counts as one. */
  lemma NonPositiveIntervalIsOne(r: Rule, from: Day)
    requires r.interval < 1
    ensures Advance(r, from) == Advance(r.(interval := 1), from)
  {
    hide Civil, AddDate, ClampedGoDate;
  }

  /** Without a known frequency the schedule stands still: progress is equivalent to a valid frequency. */
  lemma ProgressIffKnownFreq(r: Rule, from: Day)
    requires r.dayOfMonth.Some? ==> 1 <= r.dayOfMonth.value <= 31
    ensures Advance(r, from) > from <==> r.freq != OtherFreq
  {
    if r.freq != OtherFreq { AdvanceIsLater(r, from); }
  }

  /** The n-th element of the orbit next, Advance(next), Advance(Advance(next)), ... */
  function Iterate(r: Rule, from: Day, n: nat): Day {
    if n == 0 then from else Advance(r, Iterate(r, from, n - 1))
  }

  lemma {:induction false} IterateShift(r: Rule, from: Day, n: nat)
    ensures Iterate(r, Advance(r, from), n) == Iterate(r, from, n + 1)
  {
    hide Advance;
    if n == 0 {
    } else {
      IterateShift(r, from, n - 1);
    }
  }

  lemma {:induction false} IterateAdd(r: Rule, from: Day, m: nat, n: nat)
    ensures Iterate(r, Iterate(r, from, m), n) == Iterate(r, from, m + n)
  {
    hide Advance;
    if n == 0 {
    } else {
      IterateAdd(r, from, m, n - 1);
    }
  }

  lemma {:induction false} IterateIncreases(r: Rule, from: Day, m: nat, n: nat)
    requires ScheduleOk(r) && m < n
    ensures Iterate(r, from, m) < Iterate(r, from, n)
    decreases n
  {
    hide Advance, Civil, MonthIndex;
    AdvanceIsLater(r, Iterate(r, from, n - 1));
    if m < n - 1 { IterateIncreases(r, from, m, n - 1); }
  }

  /** n steps are n*step months, whatever the days. */
  lemma {:induction false} MonthlyIndex(r: Rule, from: Day, n: nat)
    requires ScheduleOk(r) && r.freq == Monthly
    ensures MonthIndex(Civil(Iterate(r, from, n))) == MonthIndex(Civil(from)) + n * Step(r)
  {
    hide Advance, Civil, MonthIndex, Step, MonthLengthAt, WantedDay;
    if n == 0 {
    } else {
      MonthlyIndex(r, from, n - 1);
      MonthlyFields(r, Iterate(r, from, n - 1));
      assert (n - 1) * Step(r) + Step(r) == n * Step(r);
    }
  }

  /** Closed form with a fixed day of month: n steps land exactly n*step months on,
      on the wanted day clamped only to the final month. Clamping never accumulates. */
  lemma MonthlyClosedForm(r: Rule, from: Day, n: nat)
    requires ScheduleOk(r) && r.freq == Monthly && r.dayOfMonth.Some? && n >= 1
    ensures Civil(Iterate(r, from, n)) == ClampedDate(MonthIndex(Civil(from)) + n * Step(r), r.dayOfMonth.value)
  {
    hide Advance, Civil, ClampedDate, MonthIndex, Step;
    MonthlyIndex(r, from, n - 1);
    MonthlyAdvance(r, Iterate(r, from, n - 1));
    assert (n - 1) * Step(r) + Step(r) == n * Step(r);
  }

  /** n steps of k months equal one step of n*k months. */
  lemma MonthlyStepsCollapse(r: Rule, from: Day, n: nat)
    requires ScheduleOk(r) && r.freq == Monthly && r.dayOfMonth.Some? && n >= 1
    ensures Iterate(r, from, n) == Advance(r.(interval := n * Step(r)), from)
  {
    hide Advance, Civil;
    MonthlyClosedForm(r, from, n);
    assert n * Step(r) >= 1;
    MonthlyAdvance(r.(interval := n * Step(r)), from);
  }

  /** Length of the month reached after i steps. */
  function VisitedLength(r: Rule, from: Day, i: nat): int {
    MonthLengthAt(MonthIndex(Civil(from)) + i * Step(r))
  }

  /** Without a fixed day, the day becomes the minimum of the start day and the length of every
      month visited, so one short month shortens all later dates. */
  lemma {:induction false} MonthlyDriftsDown(r: Rule, from: Day, n: nat)
    requires r.freq == Monthly && r.dayOfMonth.None?
    ensures var last := Civil(Iterate(r, from, n));
            && last.d <= Civil(from).d
            && (forall i :: 1 <= i <= n ==> last.d <= VisitedLength(r, from, i))
            && (last.d == Civil(from).d || exists i :: 1 <= i <= n && last.d == VisitedLength(r, from, i))
  {
    hide Advance, Civil, VisitedLength;
    if n == 0 {
    } else {
      MonthlyDriftsDown(r, from, n - 1);
      DriftStep(r, from, n);
    }
  }

  lemma DriftStep(r: Rule, from: Day, n: nat)
    requires n >= 1 && r.freq == Monthly && r.dayOfMonth.None?
    ensures Civil(Iterate(r, from, n)).d == Min(Civil(Iterate(r, from, n - 1)).d, VisitedLength(r, from, n))
  {
    hide Advance, Civil, MonthLengthAt, MonthIndex, Step;
    MonthlyIndex(r, from, n - 1);
    MonthlyFields(r, Iterate(r, from, n - 1));
    assert (n - 1) * Step(r) + Step(r) == n * Step(r);
  }

  /** A schedule and nothing else. */
  function Schedule(freq: Freq, interval: int, dayOfMonth: Option<int>): Rule {
    Rule("", Expense, 1, "", None, None, "", freq, interval, dayOfMonth, 0, None, true)
  }

  predicate AdvancesTo(freq: Freq, interval: int, dayOfMonth: Option<int>, from: RawDate, to: RawDate) {
    ValidDate(from) && Civil(Advance(Schedule(freq, interval, dayOfMonth), Ordinal(from))) == to
  }

  lemma MonthlyCase(interval: int, dayOfMonth: Option<int>, from: RawDate, to: RawDate)
    requires ValidDate(from) && interval >= 1 && (dayOfMonth.Some? ==> 1 <= dayOfMonth.value <= 31)
    requires var day := if dayOfMonth.Some? then dayOfMonth.value else from.d;
             1 <= day <= 31 && to == ClampedDate(MonthIndex(from) + interval, day)
    ensures AdvancesTo(Monthly, interval, dayOfMonth, from, to)
  {
    hide Advance, Civil, Ordinal, ClampedDate;
    CivilOfOrdinal(from);
    MonthlyAdvance(Schedule(Monthly, interval, dayOfMonth), Ordinal(from));
  }

  lemma DailyCase(freq: Freq, interval: int, from: RawDate, to: RawDate)
    requires ValidDate(from) && ValidDate(to) && interval >= 1 && (freq == Daily || freq == Weekly)
    requires Ordinal(to) == Ordinal(from) + (if freq == Daily then 1 else 7) * interval
    ensures AdvancesTo(freq, interval, None, from, to)
  {
    hide Advance, Civil, Ordinal;
    AdvanceByDays(Schedule(freq, interval, None), Ordinal(from));
    CivilOfOrdinal(to);
  }

  /** The dates that the schedule's tests list. */
  lemma AdvanceCases()
    ensures AdvancesTo(Daily, 3, None, RawDate(2026, 1, 1), RawDate(2026, 1, 4))
    ensures AdvancesTo(Weekly, 2, None, RawDate(2026, 1, 1), RawDate(2026, 1, 15))
    ensures AdvancesTo(Monthly, 1, None, RawDate(2026, 1, 15), RawDate(2026, 2, 15))
    ensures AdvancesTo(Monthly, 1, Some(31), RawDate(2026, 1, 31), RawDate(2026, 2, 28))
    ensures AdvancesTo(Monthly, 2, None, RawDate(2026, 11, 10), RawDate(2027, 1, 10))
  {
    hide AdvancesTo;
    DailyCase(Daily, 3, RawDate(2026, 1, 1), RawDate(2026, 1, 4));
    DailyCase(Weekly, 2, RawDate(2026, 1, 1), RawDate(2026, 1, 15));
    MonthlyCase(1, None, RawDate(2026, 1, 15), RawDate(2026, 2, 15));
    MonthlyCase(1, Some(31), RawDate(2026, 1, 31), RawDate(2026, 2, 28));
    MonthlyCase(2, None, RawDate(2026, 11, 10), RawDate(2027, 1, 10));
  }

  /** A rule at one occurrence, as RunDue inserts it. */
  function Instantiate(r: Rule, at: Day): Tx {
    Tx(r.kind, r.amount, r.account, r.toAccount, r.category, at, r.note)
  }

  /** The first n dates of the orbit. */
  function Orbit(r: Rule, from: Day, n: nat): (s: seq<Day>)
    ensures |s| == n
  {
    seq(n, i requires 0 <= i => Iterate(r, from, i))
  }

  lemma OrbitSplit(r: Rule, from: Day, m: nat, n: nat)
    ensures Orbit(r, from, m + n) == Orbit(r, from, m) + Orbit(r, Iterate(r, from, m), n)
  {
    hide Advance;
    forall i | 0 <= i < n ensures Iterate(r, Iterate(r, from, m), i) == Iterate(r, from, m + i) {
      IterateAdd(r, from, m, i);
    }
  }
}
