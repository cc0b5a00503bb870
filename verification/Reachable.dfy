/** What holds in every state that runs can reach: rules stay insertable, dates stay in bounds, and
    runs that owe nothing have posted what one uncapped run would. */
module Reachable {
  import opened Calendar
  import opened Catchup
  import opened Domain
  import opened Epochs
  import opened Recurrence
  import opened RuleService
  import opened Runner
  import opened RunnerSteps

  // ---- rules from the form never abort a run ----

  /** A rule written by Create or Update has passed the form. */
  ghost predicate FromForm(rule: Rule) {
    exists input: RuleInput :: ToDomain(input) == Ok(rule)
  }

  ghost predicate WritesFromForm(step: Step) {
    && (step.CreateRule? ==> FromForm(step.rule))
    && (step.EditRule? ==> FromForm(step.rule))
  }

  ghost predicate Insertable(rule: Rule) {
    forall d :: ShapeOk(Instantiate(rule, d))
  }

  lemma FormRulesInsertable(rule: Rule)
    requires FromForm(rule)
    ensures Insertable(rule)
  {
    hide ToDomain, ShapeOk;
    var input: RuleInput :| ToDomain(input) == Ok(rule);
    AcceptedRulesNeverAbort(input);
  }

  /** Only position and active flag differ. */
  lemma SameScheduleInsertable(r: Rule, q: Rule)
    requires Insertable(r) && q == r.(nextRunAt := q.nextRunAt, active := q.active)
    ensures Insertable(q)
  {
    hide ShapeOk;
    forall d ensures ShapeOk(Instantiate(q, d)) {
      assert Instantiate(q, d) == Instantiate(r, d);
    }
  }

  lemma PublishedInsertable(rules: RuleTable, updates: map<Id, Update>)
    requires forall id :: id in rules ==> Insertable(rules[id].rule)
    ensures forall id :: id in Published(rules, updates) ==> Insertable(Published(rules, updates)[id].rule)
  {
    hide Insertable;
    var after := Published(rules, updates);
    forall id | id in after ensures Insertable(after[id].rule) {
      SameScheduleInsertable(rules[id].rule, after[id].rule);
    }
  }

  lemma StepKeepsInsertable(s: State, step: Step)
    requires Enabled(s, step) && WritesFromForm(step)
    requires forall id :: id in s.rules ==> Insertable(s.rules[id].rule)
    ensures forall id :: id in Do(s, step).rules ==> Insertable(Do(s, step).rules[id].rule)
  {
    hide Insertable, FromForm, Enabled, Do;
    StepRules(s, step);
    if step.CreateRule? || step.EditRule? { FormRulesInsertable(step.rule); }
    if step.Commit? && step.r in s.phases && s.phases[step.r].Running? {
      PublishedInsertable(s.rules, s.phases[step.r].updates);
    }
  }

  /** What a step does to the rules table. */
  lemma StepRules(s: State, step: Step)
    requires Enabled(s, step)
    ensures step.CreateRule? || step.EditRule? ==> Do(s, step).rules == s.rules[step.id := RuleRow(step.rule, false)]
    ensures step.DeleteRule? ==>
              step.id in s.rules && Do(s, step).rules == s.rules[step.id := s.rules[step.id].(deleted := true)]
    ensures step.Commit? ==>
              && step.r in s.phases && s.phases[step.r].Running?
              && Do(s, step).rules == Published(s.rules, s.phases[step.r].updates)
    ensures !(step.CreateRule? || step.EditRule? || step.DeleteRule? || step.Commit?) ==> Do(s, step).rules == s.rules
  {
    hide Advance, Selectable, LoopContinues, ShapeOk, ScheduleOk, RowLocked, Published;
  }

  /** If every rule written has passed the form, then in every state of the run every rule, deleted or not,
      can be inserted at every date: no check of the transactions table can abort a run. */
  lemma {:induction false} FormRunsStayInsertable(states: seq<State>, steps: seq<Step>, i: nat)
    requires IsRun(states, steps) && i < |states|
    requires forall k :: 0 <= k < |steps| ==> WritesFromForm(steps[k])
    ensures RowsInsertable(states[i].rules)
    decreases i
  {
    hide Enabled, Do, WritesFromForm, Insertable;
    if i == 0 {
    } else {
      FormRunsStayInsertable(states, steps, i - 1);
      RowsAreInsertable(states[i - 1].rules);
      StepKeepsInsertable(states[i - 1], steps[i - 1]);
      RowsAreInsertable(states[i].rules);
    }
  }

  lemma RowsAreInsertable(rules: RuleTable)
    ensures RowsInsertable(rules) <==> forall id :: id in rules ==> Insertable(rules[id].rule)
  {
    hide ShapeOk, Instantiate;
  }

  /** So a runner inside its transaction always has exactly one next statement: an insert, an update or the commit. */
  lemma FormRunnersNeverStuck(states: seq<State>, steps: seq<Step>, i: nat, r: Session)
    requires IsRun(states, steps) && i < |states|
    requires forall k :: 0 <= k < |steps| ==> WritesFromForm(steps[k])
    requires PhaseOf(states[i], r).Running?
    ensures OneNextStatement(states[i], r)
  {
    hide IsRun, Inv, Enabled, Do, ShapeOk, Instantiate, WritesFromForm, OneNextStatement;
    FormRunsStayInsertable(states, steps, i);
    EveryRunIsExactlyOnce(states, steps, i);
    RunnerIsNeverStuck(states[i], r);
  }

  // ---- bounds and convergence ----

  /** Every run reads the tables as of T or earlier. */
  predicate StartsBy(step: Step, T: Day) {
    step.Begin? ==> step.asOf <= T
  }

  ghost predicate RunnersBy(s: State, T: Day) {
    forall r :: r in s.phases && s.phases[r].Running? ==> s.phases[r].asOf <= T
  }

  /** What epoch e of a rule posted is neither after T nor after that epoch's end date. */
  ghost predicate EpochInBounds(s: State, id: Id, e: nat, T: Day)
    requires id in s.schedules && e < |s.schedules[id]|
  {
    forall j :: 0 <= j < |EntriesOf(s.log, id, e)| ==>
      !Stopped(s.schedules[id][e], EntriesOf(s.log, id, e)[j].occurredAt, T)
  }

  ghost predicate DatesInBounds(s: State, T: Day) {
    forall id, e: nat :: id in s.schedules && e < |s.schedules[id]| ==> EpochInBounds(s, id, e, T)
  }

  /** A rule written as active is deactivated only once its position has passed its end. */
  predicate ActiveOk(rule: Rule, history: seq<Rule>)
    requires |history| > 0
  {
    history[|history| - 1].active && !rule.active ==> Expired(rule, rule.nextRunAt)
  }

  ghost predicate DeactivatedRightly(s: State)
    requires SchedulesOk(s)
  {
    forall id :: id in s.rules ==> ActiveOk(s.rules[id].rule, s.schedules[id])
  }

  lemma StepKeepsRunnersBy(s: State, step: Step, T: Day)
    requires Enabled(s, step) && StartsBy(step, T) && RunnersBy(s, T)
    ensures RunnersBy(Do(s, step), T)
  {
    hide Advance, Selectable, LoopContinues, ShapeOk, ScheduleOk, RowLocked, Published;
  }

  lemma FullDatesInBounds(row: LockedRow, asOf: Day, T: Day)
    requires ScheduleOk(row.rule) && asOf <= T
    ensures forall d :: d in FullDates(row, asOf) ==> !Stopped(row.rule, d, T)
  {
    hide Advance, CatchUp, Iterate;
    CappedIsPrefix(row.rule, row.rule.nextRunAt, asOf, CAP);
    UncappedIsOrbit(row.rule, row.rule.nextRunAt, asOf);
  }

  lemma CommitKeepsEpochInBounds(s: State, r: Session, T: Day, id: Id, e: nat)
    requires Inv(s) && RunnersBy(s, T) && Enabled(s, Commit(r))
    requires id in s.schedules && e < |s.schedules[id]| && EpochInBounds(s, id, e, T)
    requires Do(s, Commit(r)).schedules == s.schedules
    ensures EpochInBounds(Do(s, Commit(r)), id, e, T)
  {
    hide Inv, Enabled, Do, RunnerOk, RowsHeld, Blocks, EntriesOf, Stopped, FullDates, Due, SchedulesOk,
         NextIsFirstUnposted, Iterate, ScheduleOk;
    CommitAppends(s, r);
    InvParts(s);
    var p := s.phases[r];
    EntriesConcat(s.log, Blocks(p.rows, p.asOf), id, e);
    RowsDistinct(s, p.rows, p.asOf);
    EntriesOfBlocks(p.rows, p.asOf, id, e);
    if j :| 0 <= j < |p.rows| && p.rows[j].id == id && p.rows[j].epoch == e {
      HeldRow(s, r, j);
      FullDatesInBounds(p.rows[j], p.asOf, T);
      SameEnd(p.rows[j].rule, s.schedules[id][e], T);
      assert forall k :: 0 <= k < |FullDates(p.rows[j], p.asOf)| ==>
        Instances(p.rows[j].rule, FullDates(p.rows[j], p.asOf))[k].occurredAt in FullDates(p.rows[j], p.asOf);
    }
  }

  lemma RowsDistinct(s: State, rows: seq<LockedRow>, asOf: Day)
    requires RowsHeld(s, rows, asOf)
    ensures forall i, j :: 0 <= i < j < |rows| ==> rows[i].id != rows[j].id
  {
    hide Due;
  }

  lemma SameEnd(r: Rule, q: Rule, T: Day)
    requires SameSchedule(r, q)
    ensures forall d :: Stopped(r, d, T) <==> Stopped(q, d, T)
  {
  }

  lemma StepKeepsBounds(s: State, step: Step, T: Day)
    requires Inv(s) && RunnersBy(s, T) && DatesInBounds(s, T) && Enabled(s, step)
    ensures DatesInBounds(Do(s, step), T)
  {
    hide Inv, Enabled, Do, SchedulesOk, NoStrays, EpochInBounds, RunnersBy;
    InvParts(s);
    var t := Do(s, step);
    match step
    case Commit(r) =>
      CommitAppends(s, r);
      forall id, e: nat | id in t.schedules && e < |t.schedules[id]| ensures EpochInBounds(t, id, e, T) {
        CommitKeepsEpochInBounds(s, r, T, id, e);
      }
    case CreateRule(id, rule) => RuleWritesStartEpochs(s, id, rule); NewEpochKeepsBounds(s, id, rule, T);
    case EditRule(id, rule) => RuleWritesStartEpochs(s, id, rule); NewEpochKeepsBounds(s, id, rule, T);
    case DeleteRule(id) => PlainSteps(s, step); SameBounds(s, t, T);
    case AddManual(tx) => PlainSteps(s, step); ManualKeepsBounds(s, tx, T);
    case _ => OnlyCommitPublishes(s, step); SameBounds(s, t, T);
  }

  lemma SameBounds(s: State, t: State, T: Day)
    requires DatesInBounds(s, T) && t.log == s.log && t.schedules == s.schedules
    ensures DatesInBounds(t, T)
  {
    hide EntriesOf, Stopped;
    forall id, e: nat | id in t.schedules && e < |t.schedules[id]| ensures EpochInBounds(t, id, e, T) {
      assert EpochInBounds(s, id, e, T);
    }
  }

  lemma NewEpochKeepsBounds(s: State, id: Id, rule: Rule, T: Day)
    requires DatesInBounds(s, T) && NoStrays(s)
    ensures DatesInBounds(NewEpoch(s, id, rule), T)
  {
    hide EntriesOf, Stopped;
    var t := NewEpoch(s, id, rule);
    NoEntries(s.log, id, |History(s, id)|);
    forall x, e: nat | x in t.schedules && e < |t.schedules[x]| ensures EpochInBounds(t, x, e, T) {
      if x != id || e < |History(s, id)| { assert EpochInBounds(s, x, e, T); }
    }
  }

  lemma ManualKeepsBounds(s: State, tx: Tx, T: Day)
    requires DatesInBounds(s, T)
    ensures DatesInBounds(s.(log := s.log + [Entry(Manual, tx)]), T)
  {
    hide Stopped;
    var t := s.(log := s.log + [Entry(Manual, tx)]);
    forall x, e: nat | x in t.schedules && e < |t.schedules[x]| ensures EpochInBounds(t, x, e, T) {
      assert EpochInBounds(s, x, e, T);
      assert t.log[..|s.log|] == s.log;
      assert EntriesOf(t.log, x, e) == EntriesOf(s.log, x, e) + [];
    }
  }

  lemma AfterRunActive(r: Rule, asOf: Day)
    ensures r.active && !AfterRun(r, asOf).active ==> Expired(AfterRun(r, asOf), AfterRun(r, asOf).nextRunAt)
  {
    hide Advance, CatchUp;
  }

  lemma StepKeepsActive(s: State, step: Step)
    requires Inv(s) && SchedulesOk(s) && DeactivatedRightly(s) && Enabled(s, step) && SchedulesOk(Do(s, step))
    ensures DeactivatedRightly(Do(s, step))
  {
    hide Inv, Enabled, Do, SchedulesOk, AfterRun, Due, Expired, RunnerOk;
    InvParts(s);
    ScheduleStartedAll(s);
    var t := Do(s, step);
    match step
    case Commit(r) => CommitKeepsActive(s, r);
    case CreateRule(id, rule) => RuleWritesStartEpochs(s, id, rule); NewEpochActive(s, id, rule);
    case EditRule(id, rule) => RuleWritesStartEpochs(s, id, rule); NewEpochActive(s, id, rule);
    case DeleteRule(id) => PlainSteps(s, step);
    case AddManual(tx) => PlainSteps(s, step);
    case _ => OnlyCommitPublishes(s, step);
  }

  lemma ScheduleStartedAll(s: State)
    requires SchedulesOk(s)
    ensures s.schedules.Keys == s.rules.Keys && forall id :: id in s.schedules ==> |s.schedules[id]| > 0
  {
    hide ScheduleOk;
    forall id | id in s.schedules ensures |s.schedules[id]| > 0 { ScheduleStarted(s, id); }
  }

  lemma NewEpochActive(s: State, id: Id, rule: Rule)
    requires SchedulesOk(s) && DeactivatedRightly(s) && SchedulesOk(NewEpoch(s, id, rule))
    ensures DeactivatedRightly(NewEpoch(s, id, rule))
  {
    hide Expired, SchedulesOk;
    ScheduleStartedAll(s);
    var t := NewEpoch(s, id, rule);
    forall x | x in t.rules ensures ActiveOk(t.rules[x].rule, t.schedules[x]) {
      if x != id { assert ActiveOk(s.rules[x].rule, s.schedules[x]); }
    }
  }

  lemma CommitKeepsActive(s: State, r: Session)
    requires Inv(s) && SchedulesOk(s) && DeactivatedRightly(s) && Enabled(s, Commit(r)) && SchedulesOk(Do(s, Commit(r)))
    ensures DeactivatedRightly(Do(s, Commit(r)))
  {
    hide Inv, Enabled, Do, SchedulesOk, AfterRun, Due, Expired, RunnerOk, RowsHeld, Blocks, ScheduleOk, FullDates,
         PostedFor, Iterate;
    CommitAppends(s, r);
    ScheduleStartedAll(s);
    var p, t := s.phases[r], Do(s, Commit(r));
    forall id | id in t.rules ensures ActiveOk(t.rules[id].rule, t.schedules[id]) {
      assert ActiveOk(s.rules[id].rule, s.schedules[id]);
      if j :| 0 <= j < |p.rows| && p.rows[j].id == id {
        CommittedBlock(s, r, j);
        DueIsActive(p.rows[j].rule, p.asOf);
        AfterRunActive(p.rows[j].rule, p.asOf);
      } else {
        CommitLeavesOthers(s, r, id);
      }
    }
  }

  lemma DueIsActive(r: Rule, asOf: Day)
    requires Due(r, asOf)
    ensures r.active
  {
  }

  lemma {:induction false} EveryRunInBounds(states: seq<State>, steps: seq<Step>, i: nat, T: Day)
    requires IsRun(states, steps) && i < |states|
    requires forall k :: 0 <= k < |steps| ==> StartsBy(steps[k], T)
    ensures Inv(states[i]) && SchedulesOk(states[i])
    ensures RunnersBy(states[i], T) && DatesInBounds(states[i], T) && DeactivatedRightly(states[i])
    decreases i
  {
    hide Inv, Enabled, Do, SchedulesOk, StartsBy;
    EveryRunIsExactlyOnce(states, steps, i);
    InvParts(states[i]);
    if i == 0 {
    } else {
      EveryRunInBounds(states, steps, i - 1, T);
      StepKeepsRunnersBy(states[i - 1], steps[i - 1], T);
      StepKeepsBounds(states[i - 1], steps[i - 1], T);
      StepKeepsActive(states[i - 1], steps[i - 1]);
    }
  }

  // ---- convergence ----

  /** A list of n orbit dates that all lie in bounds is no longer than the uncapped enumeration. */
  lemma InBoundsIsShort(r: Rule, n: nat, T: Day)
    requires ScheduleOk(r) && forall j :: 0 <= j < n ==> !Stopped(r, Iterate(r, r.nextRunAt, j), T)
    ensures n <= |Uncapped(r, r.nextRunAt, T)|
  {
    hide Advance, Stopped, Iterate;
    UncappedIsOrbit(r, r.nextRunAt, T);
  }

  /** An epoch that has posted n dates in bounds owes exactly the rest of the uncapped enumeration. */
  lemma EpochOwes(sched: Rule, rule: Rule, n: nat, T: Day)
    requires ScheduleOk(sched) && ScheduleOk(rule) && SameSchedule(rule, sched)
    requires rule.nextRunAt == Iterate(sched, sched.nextRunAt, n)
    requires forall j :: 0 <= j < n ==> !Stopped(sched, Iterate(sched, sched.nextRunAt, j), T)
    ensures n <= |Uncapped(sched, sched.nextRunAt, T)|
    ensures Uncapped(rule, rule.nextRunAt, T) == Uncapped(sched, sched.nextRunAt, T)[n..]
    ensures Expected(sched, n) == Instances(sched, Uncapped(sched, sched.nextRunAt, T)[..n])
  {
    hide Advance, Stopped, Iterate, Uncapped;
    InBoundsIsShort(sched, n, T);
    UncappedAfter(sched, sched.nextRunAt, T, n);
    UncappedSame(sched, rule, rule.nextRunAt, T);
    UncappedIsOrbit(sched, sched.nextRunAt, T);
  }

  lemma WholeOrPart<A>(all: seq<A>, n: nat)
    requires n <= |all|
    ensures all[n..] == [] <==> n == |all|
    ensures n == |all| ==> all[..n] == all
  {
  }

  lemma InstancesLength(r: Rule, dates: seq<Day>)
    ensures |Instances(r, dates)| == |dates|
  {
  }

  /** Over every interleaving of runs up to T, edits included: nothing was posted after T or after the end date
      of its epoch; and a rule that was written as active owes nothing at T if and only if its current epoch has
      posted exactly what one uncapped run at T would. */
  lemma EveryRunConverges(states: seq<State>, steps: seq<Step>, i: nat, id: Id, T: Day)
    requires IsRun(states, steps) && i < |states|
    requires forall k :: 0 <= k < |steps| ==> StartsBy(steps[k], T)
    requires id in states[i].rules
    ensures DatesInBounds(states[i], T)
    ensures id in states[i].schedules && |states[i].schedules[id]| > 0
    ensures var e := |states[i].schedules[id]| - 1;
            var sched, rule := states[i].schedules[id][e], states[i].rules[id].rule;
            && ScheduleOk(sched) && ScheduleOk(rule)
            && (sched.active ==>
                  (Outstanding(rule, T) == [] <==>
                   EntriesOf(states[i].log, id, e) == Instances(sched, Uncapped(sched, sched.nextRunAt, T))))
  {
    hide IsRun, Inv, SchedulesOk, StartsBy;
    EveryRunInBounds(states, steps, i, T);
    InvParts(states[i]);
    StateConverges(states[i], id, T);
  }

  lemma StateConverges(s: State, id: Id, T: Day)
    requires SchedulesOk(s) && ExactlyOnce(s) && NextIsFirstUnposted(s)
    requires DatesInBounds(s, T) && DeactivatedRightly(s) && id in s.rules
    ensures id in s.schedules && |s.schedules[id]| > 0
    ensures var e := |s.schedules[id]| - 1;
            var sched, rule := s.schedules[id][e], s.rules[id].rule;
            && ScheduleOk(sched) && ScheduleOk(rule)
            && (sched.active ==>
                  (Outstanding(rule, T) == [] <==>
                   EntriesOf(s.log, id, e) == Instances(sched, Uncapped(sched, sched.nextRunAt, T))))
  {
    hide SchedulesOk, EntriesOf, Uncapped, Stopped, Expired, Iterate;
    ScheduleStartedAll(s);
    ScheduleStarted(s, id);
    var e := |s.schedules[id]| - 1;
    var sched, rule := s.schedules[id][e], s.rules[id].rule;
    var n := |EntriesOf(s.log, id, e)|;
    assert EpochInBounds(s, id, e, T);
    assert StandsAt(rule, s.schedules[id], s.log, id);
    assert ActiveOk(rule, s.schedules[id]);
    EntryDates(s, id, e, T);
    EpochOwes(sched, rule, n, T);
    var all := Uncapped(sched, sched.nextRunAt, T);
    WholeOrPart(all, n);
    InstancesLength(sched, all);
    if !rule.active && sched.active { ExpiredOwesNothing(rule, rule.nextRunAt, T); }
  }

  lemma EntryDates(s: State, id: Id, e: nat, T: Day)
    requires id in s.schedules && e < |s.schedules[id]| && EpochInBounds(s, id, e, T)
    requires EntriesOf(s.log, id, e) == Expected(s.schedules[id][e], |EntriesOf(s.log, id, e)|)
    ensures var sched := s.schedules[id][e];
            forall j :: 0 <= j < |EntriesOf(s.log, id, e)| ==> !Stopped(sched, Iterate(sched, sched.nextRunAt, j), T)
  {
    hide EntriesOf, Stopped, Iterate;
    var sched := s.schedules[id][e];
    var n := |EntriesOf(s.log, id, e)|;
    forall j | 0 <= j < n ensures !Stopped(sched, Iterate(sched, sched.nextRunAt, j), T) {
      assert EntriesOf(s.log, id, e)[j].occurredAt == Iterate(sched, sched.nextRunAt, j);
    }
  }
}
