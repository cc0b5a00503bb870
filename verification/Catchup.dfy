/** What one run of the recurring runner does to one rule, and what any series of runs adds up to. */
module Catchup {
  import opened Calendar
  import opened Domain
  import opened Recurrence

  /** Most occurrences one run posts for one rule. */
  const CAP: nat := 120

  /** The catch-up loop of RunDue stops at this occurrence even below the cap. */
  predicate Stopped(r: Rule, next: Day, asOf: Day) {
    next > asOf || Expired(r, next)
  }

  predicate Expired(r: Rule, next: Day) {
    r.endAt.Some? && next > r.endAt.value
  }

  datatype Progress = Progress(dates: seq<Day>, next: Day)

  /** The catch-up loop: occurrences posted, and the schedule position it leaves. */
  function CatchUp(r: Rule, next: Day, asOf: Day, cap: nat): Progress
    decreases cap
  {
    if cap == 0 || Stopped(r, next, asOf) then Progress([], next)
    else
      var rest := CatchUp(r, Advance(r, next), asOf, cap - 1);
      Progress([next] + rest.dates, rest.next)
  }

  /** The same loop without a cap: every occurrence up to asOf and the end date. */
  function Uncapped(r: Rule, next: Day, asOf: Day): seq<Day>
    requires ScheduleOk(r)
    decreases asOf - next
  {
    if Stopped(r, next, asOf) then []
    else
      AdvanceIsLater(r, next);
      [next] + Uncapped(r, Advance(r, next), asOf)
  }

  /** Uncapped lists exactly the orbit elements that are not after asOf or the end date. */
  lemma {:induction false} UncappedIsOrbit(r: Rule, next: Day, asOf: Day)
    requires ScheduleOk(r)
    ensures var n := |Uncapped(r, next, asOf)|;
            && Uncapped(r, next, asOf) == Orbit(r, next, n)
            && Stopped(r, Iterate(r, next, n), asOf)
            && forall i :: 0 <= i < n ==> !Stopped(r, Iterate(r, next, i), asOf)
    decreases asOf - next
  {
    hide Advance, Stopped;
    if !Stopped(r, next, asOf) {
      assert next <= asOf by { StoppedLater(r, asOf, next); }
      AdvanceIsLater(r, next);
      UncappedIsOrbit(r, Advance(r, next), asOf);
      var n := |Uncapped(r, Advance(r, next), asOf)|;
      assert Iterate(r, next, 1) == Advance(r, next) by { assert Iterate(r, next, 0) == next; }
      OrbitSplit(r, next, 1, n);
      forall i: nat ensures Iterate(r, Advance(r, next), i) == Iterate(r, next, i + 1) { IterateShift(r, next, i); }
      forall i | 0 <= i < n + 1 ensures !Stopped(r, Iterate(r, next, i), asOf) {
        if i > 0 { assert Iterate(r, Advance(r, next), i - 1) == Iterate(r, next, i); }
      }
    }
  }

  lemma StoppedLater(r: Rule, asOf: Day, next: Day)
    requires !Stopped(r, next, asOf)
    ensures next <= asOf
  {
  }

  /** The only stopping point: n is determined by where the orbit first stops. */
  lemma UncappedLength(r: Rule, next: Day, asOf: Day, n: nat)
    requires ScheduleOk(r)
    requires Stopped(r, Iterate(r, next, n), asOf)
    requires forall i :: 0 <= i < n ==> !Stopped(r, Iterate(r, next, i), asOf)
    ensures Uncapped(r, next, asOf) == Orbit(r, next, n)
  {
    hide Advance, Stopped, Iterate;
    UncappedIsOrbit(r, next, asOf);
    var k := |Uncapped(r, next, asOf)|;
    assert Stopped(r, Iterate(r, next, k), asOf);
    assert k == n;
  }

  /** The capped loop posts the first cap occurrences of the uncapped enumeration. */
  lemma {:induction false} CappedIsPrefix(r: Rule, next: Day, asOf: Day, cap: nat)
    requires ScheduleOk(r)
    ensures var all := Uncapped(r, next, asOf);
            var k := Min(cap, |all|);
            CatchUp(r, next, asOf, cap) == Progress(all[..k], Iterate(r, next, k))
    decreases cap
  {
    hide Advance, Stopped;
    if cap > 0 && !Stopped(r, next, asOf) {
      CappedIsPrefix(r, Advance(r, next), asOf, cap - 1);
      IterateShift(r, next, Min(cap - 1, |Uncapped(r, Advance(r, next), asOf)|));
    }
  }

  /** Nothing is skipped by stopping: what is left after k occurrences is the rest of the enumeration. */
  lemma UncappedAfter(r: Rule, next: Day, asOf: Day, k: nat)
    requires ScheduleOk(r) && k <= |Uncapped(r, next, asOf)|
    ensures Uncapped(r, Iterate(r, next, k), asOf) == Uncapped(r, next, asOf)[k..]
  {
    hide Advance, Stopped, Iterate;
    UncappedIsOrbit(r, next, asOf);
    var n := |Uncapped(r, next, asOf)|;
    var from := Iterate(r, next, k);
    forall i: nat ensures Iterate(r, from, i) == Iterate(r, next, k + i) { IterateAdd(r, next, k, i); }
    UncappedLength(r, from, asOf, n - k);
    OrbitSplit(r, next, k, n - k);
  }

  predicate Due(r: Rule, asOf: Day) {
    r.active && r.nextRunAt <= asOf
  }

  /** One run on one rule: the occurrences it posts. */
  function RunDates(r: Rule, asOf: Day): seq<Day> {
    if Due(r, asOf) then CatchUp(r, r.nextRunAt, asOf, CAP).dates else []
  }

  /** One run on one rule: the row it leaves. */
  function AfterRun(r: Rule, asOf: Day): Rule {
    if Due(r, asOf) then
      var next := CatchUp(r, r.nextRunAt, asOf, CAP).next;
      r.(nextRunAt := next, active := if Expired(r, next) then false else r.active)
    else r
  }

  /** Occurrences a rule still owes at asOf. */
  function Outstanding(r: Rule, asOf: Day): seq<Day>
    requires ScheduleOk(r)
  {
    if r.active then Uncapped(r, r.nextRunAt, asOf) else []
  }

  /** Uncapped reads only the schedule fields. */
  lemma {:induction false} UncappedSame(r: Rule, q: Rule, next: Day, asOf: Day)
    requires ScheduleOk(r) && q == r.(nextRunAt := q.nextRunAt, active := q.active)
    ensures Uncapped(r, next, asOf) == Uncapped(q, next, asOf)
    decreases asOf - next
  {
    AdvanceSame(r, q, next);
    if !Stopped(r, next, asOf) {
      hide Advance;
      AdvanceIsLater(r, next);
      UncappedSame(r, q, Advance(r, next), asOf);
    }
  }

  lemma AdvanceSame(r: Rule, q: Rule, d: Day)
    requires q == r.(nextRunAt := q.nextRunAt, active := q.active)
    ensures Advance(r, d) == Advance(q, d)
  {
    hide Civil, AddDate, ClampedGoDate;
  }

  lemma {:induction false} IterateSame(r: Rule, q: Rule, d: Day, n: nat)
    requires q == r.(nextRunAt := q.nextRunAt, active := q.active)
    ensures Iterate(r, d, n) == Iterate(q, d, n)
  {
    hide Advance;
    if n == 0 {
    } else {
      IterateSame(r, q, d, n - 1);
      AdvanceSame(r, q, Iterate(r, d, n - 1));
    }
  }

  /** A run posts the first CAP occurrences owed and leaves exactly the others owed. */
  lemma RunPaysOff(r: Rule, asOf: Day)
    requires ScheduleOk(r)
    ensures ScheduleOk(AfterRun(r, asOf))
    ensures var owed := Outstanding(r, asOf);
            var k := Min(CAP, |owed|);
            && RunDates(r, asOf) == owed[..k]
            && Outstanding(AfterRun(r, asOf), asOf) == owed[k..]
  {
    hide Advance, CatchUp, Iterate;
    CappedIsPrefix(r, r.nextRunAt, asOf, CAP);
    var q := AfterRun(r, asOf);
    if Due(r, asOf) {
      var k := Min(CAP, |Uncapped(r, r.nextRunAt, asOf)|);
      UncappedAfter(r, r.nextRunAt, asOf, k);
      UncappedSame(r, q, q.nextRunAt, asOf);
    }
  }

  /** Which orbit dates are owed: exactly those up to asOf, and up to the end date if there is one. */
  lemma OwedExactly(r: Rule, asOf: Day, i: nat)
    requires ScheduleOk(r)
    ensures var d := Iterate(r, r.nextRunAt, i);
            && (d in Uncapped(r, r.nextRunAt, asOf) <==> d <= asOf && (r.endAt.Some? ==> d <= r.endAt.value))
            && (d in Uncapped(r, r.nextRunAt, asOf) ==>
                  i < |Uncapped(r, r.nextRunAt, asOf)| && Uncapped(r, r.nextRunAt, asOf)[i] == d)
  {
    hide Advance, Iterate, Uncapped;
    UncappedIsOrbit(r, r.nextRunAt, asOf);
    var n := |Uncapped(r, r.nextRunAt, asOf)|;
    forall j, k | 0 <= j < k ensures Iterate(r, r.nextRunAt, j) < Iterate(r, r.nextRunAt, k) {
      IterateIncreases(r, r.nextRunAt, j, k);
    }
    assert i < n ==> Uncapped(r, r.nextRunAt, asOf)[i] == Iterate(r, r.nextRunAt, i);
    if i > n { assert Iterate(r, r.nextRunAt, n) < Iterate(r, r.nextRunAt, i); }
  }

  /** One run posts everything a rule owes if that is at most 120 occurrences, and else the first 120. */
  lemma OneRunPosts120(r: Rule, asOf: Day)
    requires ScheduleOk(r)
    ensures ScheduleOk(AfterRun(r, asOf))
    ensures |Outstanding(r, asOf)| <= 120 ==>
              RunDates(r, asOf) == Outstanding(r, asOf) && Outstanding(AfterRun(r, asOf), asOf) == []
    ensures |Outstanding(r, asOf)| > 120 ==>
              && RunDates(r, asOf) == Outstanding(r, asOf)[..120]
              && Outstanding(AfterRun(r, asOf), asOf) == Outstanding(r, asOf)[120..]
  {
    hide Outstanding, RunDates, AfterRun;
    RunPaysOff(r, asOf);
  }

  /** n runs at one date. */
  function RunTimes(r: Rule, asOf: Day, n: nat): Rule
    decreases n
  {
    if n == 0 then r else RunTimes(AfterRun(r, asOf), asOf, n - 1)
  }

  function PostedTimes(r: Rule, asOf: Day, n: nat): seq<Day>
    decreases n
  {
    if n == 0 then [] else RunDates(r, asOf) + PostedTimes(AfterRun(r, asOf), asOf, n - 1)
  }

  /** n runs at one date post exactly the first 120 n occurrences owed, in order, once each. */
  lemma {:induction false} RepeatedRuns(r: Rule, asOf: Day, n: nat)
    requires ScheduleOk(r)
    ensures ScheduleOk(RunTimes(r, asOf, n))
    ensures var owed := Outstanding(r, asOf);
            var k := Min(120 * n, |owed|);
            && PostedTimes(r, asOf, n) == owed[..k]
            && Outstanding(RunTimes(r, asOf, n), asOf) == owed[k..]
    decreases n
  {
    hide Outstanding, AfterRun, RunDates;
    if n == 0 {
    } else {
      RunPaysOff(r, asOf);
      RepeatedRuns(AfterRun(r, asOf), asOf, n - 1);
    }
  }

  /** Each run that posts anything leaves strictly less owed; a run that posts nothing is the
      fixpoint, where the rule is finished for good or not yet due. */
  lemma RunProgressOrFixpoint(r: Rule, asOf: Day)
    requires ScheduleOk(r)
    ensures RunDates(r, asOf) != [] ==>
              ScheduleOk(AfterRun(r, asOf)) && |Outstanding(AfterRun(r, asOf), asOf)| < |Outstanding(r, asOf)|
    ensures RunDates(r, asOf) == [] <==> Outstanding(r, asOf) == []
    ensures RunDates(r, asOf) == [] && Due(r, asOf) ==>
              !AfterRun(r, asOf).active && Expired(r, AfterRun(r, asOf).nextRunAt)
    ensures RunDates(r, asOf) == [] && !Due(r, asOf) ==> !r.active || r.nextRunAt > asOf
  {
    hide Advance, CatchUp, Uncapped, Stopped, Expired;
    RunPaysOff(r, asOf);
    if Due(r, asOf) && Outstanding(r, asOf) == [] { IdleRun(r, asOf); }
  }

  /** A due rule that owes nothing is past its end, and the loop does not move it. */
  lemma IdleRun(r: Rule, asOf: Day)
    requires ScheduleOk(r) && Due(r, asOf) && Uncapped(r, r.nextRunAt, asOf) == []
    ensures Expired(r, r.nextRunAt) && CatchUp(r, r.nextRunAt, asOf, CAP) == Progress([], r.nextRunAt)
  {
    hide Advance;
  }

  /** A series of runs at arbitrary dates. */
  function RunSeries(r: Rule, asOfs: seq<Day>): Rule
    decreases |asOfs|
  {
    if asOfs == [] then r else RunSeries(AfterRun(r, asOfs[0]), asOfs[1..])
  }

  function PostedSeries(r: Rule, asOfs: seq<Day>): seq<Day>
    decreases |asOfs|
  {
    if asOfs == [] then [] else RunDates(r, asOfs[0]) + PostedSeries(AfterRun(r, asOfs[0]), asOfs[1..])
  }

  /** A run at an earlier date works off a prefix of what is owed at a later one. */
  lemma EarlierRun(r: Rule, t: Day, asOf: Day)
    requires ScheduleOk(r) && t <= asOf
    ensures ScheduleOk(AfterRun(r, t))
    ensures Outstanding(r, asOf) == RunDates(r, t) + Outstanding(AfterRun(r, t), asOf)
  {
    hide Advance, CatchUp, Iterate, Uncapped, Stopped, Expired;
    CappedIsPrefix(r, r.nextRunAt, t, CAP);
    var q := AfterRun(r, t);
    if Due(r, t) {
      UncappedMonotone(r, r.nextRunAt, t, asOf);
      var k := Min(CAP, |Uncapped(r, r.nextRunAt, t)|);
      UncappedAfter(r, r.nextRunAt, asOf, k);
      UncappedSame(r, q, q.nextRunAt, asOf);
      if Expired(r, q.nextRunAt) { ExpiredOwesNothing(r, q.nextRunAt, asOf); }
      PrefixParts(Uncapped(r, r.nextRunAt, t), Uncapped(r, r.nextRunAt, asOf), k);
    }
  }

  lemma ExpiredOwesNothing(r: Rule, next: Day, asOf: Day)
    requires ScheduleOk(r) && Expired(r, next)
    ensures Uncapped(r, next, asOf) == []
  {
    hide Advance;
  }

  lemma PrefixParts(part: seq<Day>, all: seq<Day>, k: nat)
    requires part <= all && k <= |part|
    ensures all == part[..k] + all[k..]
  {
  }

  lemma {:induction false} UncappedMonotone(r: Rule, next: Day, t: Day, asOf: Day)
    requires ScheduleOk(r) && t <= asOf
    ensures Uncapped(r, next, t) <= Uncapped(r, next, asOf)
    decreases t - next
  {
    if !Stopped(r, next, t) {
      hide Advance;
      AdvanceIsLater(r, next);
      UncappedMonotone(r, Advance(r, next), t, asOf);
    }
  }

  /** Whatever the dates of the runs up to T, they post a prefix of what one uncapped run at T
      would post; once nothing is owed at T they have posted exactly that. */
  lemma {:induction false} SeriesConverges(r: Rule, asOfs: seq<Day>, T: Day)
    requires ScheduleOk(r) && forall i :: 0 <= i < |asOfs| ==> asOfs[i] <= T
    ensures ScheduleOk(RunSeries(r, asOfs))
    ensures Outstanding(r, T) == PostedSeries(r, asOfs) + Outstanding(RunSeries(r, asOfs), T)
    ensures Outstanding(RunSeries(r, asOfs), T) == [] <==> PostedSeries(r, asOfs) == Outstanding(r, T)
    decreases |asOfs|
  {
    hide AfterRun, RunDates, Outstanding;
    if asOfs == [] {
    } else {
      EarlierRun(r, asOfs[0], T);
      SeriesConverges(AfterRun(r, asOfs[0]), asOfs[1..], T);
    }
  }
}
