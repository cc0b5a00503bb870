/** What a rule's postings add up to across its edits, in every reachable state. */
module Epochs {
  import opened Calendar
  import opened Catchup
  import opened Domain
  import opened Recurrence
  import opened Runner
  import opened RunnerSteps

  /** Everything the runner ever posted for one rule, in insertion order. */
  function PostedFor(log: seq<Entry>, id: Id): seq<Tx> {
    if log == [] then []
    else
      var last := log[|log| - 1];
      PostedFor(log[..|log| - 1], id)
      + if last.source.FromRule? && last.source.id == id then [last.tx] else []
  }

  /** The postings of a rule's first n epochs, epoch after epoch. */
  function FirstEpochs(log: seq<Entry>, id: Id, n: nat): seq<Tx> {
    if n == 0 then [] else FirstEpochs(log, id, n - 1) + EntriesOf(log, id, n - 1)
  }

  /** No epoch's posting comes after a later epoch's. */
  ghost predicate InEpochOrder(s: State) {
    forall id :: id in s.schedules ==> PostedFor(s.log, id) == FirstEpochs(s.log, id, |s.schedules[id]|)
  }

  // ---- the log, rule by rule ----

  lemma {:induction false} PostedConcat(a: seq<Entry>, b: seq<Entry>, id: Id)
    ensures PostedFor(a + b, id) == PostedFor(a, id) + PostedFor(b, id)
    decreases |b|
  {
    if b == [] {
      assert a + b == a;
    } else {
      assert (a + b)[..|a + b| - 1] == a + b[..|b| - 1];
      PostedConcat(a, b[..|b| - 1], id);
    }
  }

  predicate OnlyEpoch(log: seq<Entry>, id: Id, e: nat) {
    forall j :: 0 <= j < |log| && log[j].source.FromRule? && log[j].source.id == id ==> log[j].source.epoch == e
  }

  lemma {:induction false} PostedOfOneEpoch(log: seq<Entry>, id: Id, e: nat)
    requires OnlyEpoch(log, id, e)
    ensures PostedFor(log, id) == EntriesOf(log, id, e)
    ensures forall x: nat :: x != e ==> EntriesOf(log, id, x) == []
    decreases |log|
  {
    if log == [] {
    } else {
      var n := |log| - 1;
      assert forall j :: 0 <= j < n ==> log[..n][j] == log[j];
      PostedOfOneEpoch(log[..n], id, e);
    }
  }

  /** Appending entries of one epoch extends that epoch and no earlier one. */
  lemma {:induction false} FirstEpochsKept(a: seq<Entry>, b: seq<Entry>, id: Id, n: nat)
    requires forall e: nat :: e < n ==> EntriesOf(b, id, e) == []
    ensures FirstEpochs(a + b, id, n) == FirstEpochs(a, id, n)
    decreases n
  {
    hide EntriesOf;
    if n == 0 {
    } else {
      FirstEpochsKept(a, b, id, n - 1);
      EntriesConcat(a, b, id, n - 1);
    }
  }

  lemma EpochExtended(a: seq<Entry>, b: seq<Entry>, id: Id, n: nat)
    requires n > 0 && OnlyEpoch(b, id, n - 1) && PostedFor(a, id) == FirstEpochs(a, id, n)
    ensures PostedFor(a + b, id) == FirstEpochs(a + b, id, n)
  {
    hide EntriesOf, PostedFor, OnlyEpoch;
    PostedOfOneEpoch(b, id, n - 1);
    PostedConcat(a, b, id);
    FirstEpochsKept(a, b, id, n - 1);
    EntriesConcat(a, b, id, n - 1);
  }

  // ---- every step keeps the epochs in order ----

  /** What a commit adds for a rule belongs to the rule's current epoch. */
  lemma BlocksAreCurrent(s: State, rows: seq<LockedRow>, asOf: Day, id: Id)
    requires RowsHeld(s, rows, asOf) && id in s.schedules && |s.schedules[id]| > 0
    ensures OnlyEpoch(Blocks(rows, asOf), id, |s.schedules[id]| - 1)
  {
    hide Blocks, Due;
    BlocksSources(rows, asOf);
    var b := Blocks(rows, asOf);
    forall j | 0 <= j < |b| && b[j].source.FromRule? && b[j].source.id == id
      ensures b[j].source.epoch == |s.schedules[id]| - 1
    {
      assert SourceIn(rows, b[j].source);
    }
  }

  lemma ScheduleStarted(s: State, id: Id)
    requires SchedulesOk(s) && id in s.schedules
    ensures id in s.rules && |s.schedules[id]| > 0
    ensures forall e :: 0 <= e < |s.schedules[id]| ==> ScheduleOk(s.schedules[id][e])
    ensures SameSchedule(s.rules[id].rule, s.schedules[id][|s.schedules[id]| - 1])
  {
    hide ScheduleOk;
    assert ScheduledBy(s.rules[id].rule, s.schedules[id]);
  }

  /** A commit, taken apart once: what it appends, and that rows and schedules stand as selected. */
  lemma CommitAppends(s: State, r: Session)
    requires Inv(s) && Enabled(s, Commit(r))
    ensures r in s.phases && s.phases[r].Running?
    ensures var p, t := s.phases[r], Do(s, Commit(r));
            && RunnerOk(s, p) && RowsHeld(s, p.rows, p.asOf)
            && t.log == s.log + Blocks(p.rows, p.asOf) && t.schedules == s.schedules && t.rules.Keys == s.rules.Keys
  {
    hide Tables, Blocks, Partial, AtRow, UpdatesUpTo, RowsHeld;
    CommitIsRunning(s, r);
    CommitStages(s, r);
  }

  lemma CommitKeepsEpochOrder(s: State, r: Session)
    requires Inv(s) && InEpochOrder(s) && Enabled(s, Commit(r))
    ensures InEpochOrder(Do(s, Commit(r)))
  {
    hide Do, Enabled, RunnerOk, RowsHeld, Blocks, PostedFor, FirstEpochs, OnlyEpoch, SchedulesOk, Mutex;
    CommitAppends(s, r);
    var p, t := s.phases[r], Do(s, Commit(r));
    forall id | id in t.schedules ensures PostedFor(t.log, id) == FirstEpochs(t.log, id, |t.schedules[id]|) {
      ScheduleStarted(s, id);
      BlocksAreCurrent(s, p.rows, p.asOf, id);
      EpochExtended(s.log, Blocks(p.rows, p.asOf), id, |s.schedules[id]|);
    }
  }

  lemma {:induction false} NothingPostedYet(log: seq<Entry>, id: Id)
    requires forall j :: 0 <= j < |log| ==> !(log[j].source.FromRule? && log[j].source.id == id)
    ensures PostedFor(log, id) == []
    decreases |log|
  {
    if log == [] {
    } else {
      NothingPostedYet(log[..|log| - 1], id);
    }
  }

  lemma NewEpochKeepsEpochOrder(s: State, id: Id, rule: Rule)
    requires SchedulesOk(s) && NoStrays(s) && InEpochOrder(s)
    ensures InEpochOrder(NewEpoch(s, id, rule))
  {
    hide PostedFor, EntriesOf, SchedulesOk;
    var t := NewEpoch(s, id, rule);
    NoEntries(s.log, id, |History(s, id)|);
    if id !in s.schedules { NothingPostedYet(s.log, id); }
    forall x | x in t.schedules ensures PostedFor(t.log, x) == FirstEpochs(t.log, x, |t.schedules[x]|) {
      if x != id { assert x in s.schedules; }
    }
  }

  lemma ManualKeepsEpochOrder(s: State, tx: Tx)
    requires SchedulesOk(s) && InEpochOrder(s)
    ensures InEpochOrder(s.(log := s.log + [Entry(Manual, tx)]))
  {
    hide PostedFor, FirstEpochs, SchedulesOk;
    forall id | id in s.schedules
      ensures PostedFor(s.log + [Entry(Manual, tx)], id)
           == FirstEpochs(s.log + [Entry(Manual, tx)], id, |s.schedules[id]|)
    {
      ScheduleStarted(s, id);
      EpochExtended(s.log, [Entry(Manual, tx)], id, |s.schedules[id]|);
    }
  }

  lemma InvParts(s: State)
    requires Inv(s)
    ensures SchedulesOk(s) && NoStrays(s) && ExactlyOnce(s) && NextIsFirstUnposted(s)
  {
    hide *;
    InvTables(s);
    TablesParts(s);
  }

  lemma InvTables(s: State)
    requires Inv(s)
    ensures Tables(s)
  {
    hide Tables, RunnerOk, Mutex;
  }

  lemma TablesParts(s: State)
    requires Tables(s)
    ensures SchedulesOk(s) && NoStrays(s) && ExactlyOnce(s) && NextIsFirstUnposted(s)
  {
    hide SchedulesOk, NoStrays, ExactlyOnce, NextIsFirstUnposted;
  }

  lemma StepKeepsEpochOrder(s: State, step: Step)
    requires Inv(s) && InEpochOrder(s) && Enabled(s, step)
    ensures InEpochOrder(Do(s, step))
  {
    hide Inv, InEpochOrder, Enabled, Do, SchedulesOk, NoStrays;
    InvParts(s);
    match step
    case Commit(r) => CommitKeepsEpochOrder(s, r);
    case CreateRule(id, rule) => RuleWritesStartEpochs(s, id, rule); NewEpochKeepsEpochOrder(s, id, rule);
    case EditRule(id, rule) => RuleWritesStartEpochs(s, id, rule); NewEpochKeepsEpochOrder(s, id, rule);
    case DeleteRule(id) => PlainSteps(s, step); SameEpochOrder(s, Do(s, step));
    case AddManual(tx) => PlainSteps(s, step); ManualKeepsEpochOrder(s, tx);
    case _ => OnlyCommitPublishes(s, step); SameEpochOrder(s, Do(s, step));
  }

  lemma PlainSteps(s: State, step: Step)
    requires Enabled(s, step)
    ensures step.DeleteRule? ==> Do(s, step) == s.(rules := s.rules[step.id := s.rules[step.id].(deleted := true)])
    ensures step.DeleteRule? ==> step.id in s.rules
    ensures step.AddManual? ==> Do(s, step) == s.(log := s.log + [Entry(Manual, step.tx)])
  {
    hide ShapeOk, RowLocked;
  }

  lemma SameEpochOrder(s: State, t: State)
    requires InEpochOrder(s) && t.log == s.log && t.schedules == s.schedules
    ensures InEpochOrder(t)
  {
    hide PostedFor, FirstEpochs;
  }

  lemma {:induction false} EveryRunInEpochOrder(states: seq<State>, steps: seq<Step>, i: nat)
    requires IsRun(states, steps) && i < |states|
    ensures InEpochOrder(states[i])
    decreases i
  {
    hide Inv, Enabled, Do;
    if i == 0 {
    } else {
      EveryRunInEpochOrder(states, steps, i - 1);
      EveryRunIsExactlyOnce(states, steps, i - 1);
      StepKeepsEpochOrder(states[i - 1], steps[i - 1]);
    }
  }

  // ---- exactly once across edits ----

  predicate Increasing(txs: seq<Tx>) {
    forall j, k :: 0 <= j < k < |txs| ==> txs[j].occurredAt < txs[k].occurredAt
  }

  lemma IncreasingConcat(a: seq<Tx>, b: seq<Tx>)
    ensures Increasing(a + b) <==>
            && Increasing(a) && Increasing(b)
            && (a != [] && b != [] ==> a[|a| - 1].occurredAt < b[0].occurredAt)
  {
    var c := a + b;
    assert forall j :: 0 <= j < |a| ==> c[j] == a[j];
    assert forall j :: 0 <= j < |b| ==> c[|a| + j] == b[j];
    if Increasing(c) && a != [] && b != [] {
      assert c[|a| - 1] == a[|a| - 1] && c[|a|] == b[0];
    }
  }

  /** If epoch e posted anything, its schedule starts after the last date posted before it. */
  predicate StartsAfterPosted(s: State, id: Id, e: nat)
    requires id in s.schedules && e < |s.schedules[id]|
  {
    var before := FirstEpochs(s.log, id, e);
    EntriesOf(s.log, id, e) != [] && before != [] ==>
      before[|before| - 1].occurredAt < s.schedules[id][e].nextRunAt
  }

  /** Within one epoch dates increase, and the first one is where its schedule starts. */
  lemma EpochDates(s: State, id: Id, e: nat)
    requires Inv(s) && id in s.schedules && e < |s.schedules[id]|
    ensures Increasing(EntriesOf(s.log, id, e))
    ensures EntriesOf(s.log, id, e) != [] ==>
              && EntriesOf(s.log, id, e)[0].occurredAt == s.schedules[id][e].nextRunAt
              && EntriesOf(s.log, id, e)[0] == Instantiate(s.schedules[id][e], s.schedules[id][e].nextRunAt)
  {
    hide Inv, SchedulesOk, EntriesOf, Iterate;
    InvParts(s);
    ScheduleStarted(s, id);
    ExpectedDates(s.schedules[id][e], |EntriesOf(s.log, id, e)|);
  }

  lemma ExpectedDates(sched: Rule, n: nat)
    requires ScheduleOk(sched)
    ensures Increasing(Expected(sched, n))
    ensures n > 0 ==> Expected(sched, n) != [] && Expected(sched, n)[0] == Instantiate(sched, sched.nextRunAt)
  {
    hide Iterate, ScheduleOk;
    forall j, k | 0 <= j < k < n ensures Iterate(sched, sched.nextRunAt, j) < Iterate(sched, sched.nextRunAt, k) {
      IterateIncreases(sched, sched.nextRunAt, j, k);
    }
    NothingExpectedYet(sched);
  }

  lemma {:induction false} FirstEpochsIncreaseIff(s: State, id: Id, n: nat)
    requires Inv(s) && id in s.schedules && n <= |s.schedules[id]|
    ensures Increasing(FirstEpochs(s.log, id, n)) <==> forall e: nat :: e < n ==> StartsAfterPosted(s, id, e)
    decreases n
  {
    hide Inv, EntriesOf, Increasing;
    if n == 0 {
      NothingIncreases();
    } else {
      FirstEpochsIncreaseIff(s, id, n - 1);
      EpochDates(s, id, n - 1);
      IncreasingConcat(FirstEpochs(s.log, id, n - 1), EntriesOf(s.log, id, n - 1));
      assert StartsAfterPosted(s, id, n - 1) || !StartsAfterPosted(s, id, n - 1);
    }
  }

  lemma NothingIncreases()
    ensures Increasing([])
  {
  }

  /** Over every run, edits included: a rule's posted dates strictly increase if and only if every epoch
      that posted anything starts after the last date posted before it. */
  lemma ExactlyOnceAcrossEditsIff(states: seq<State>, steps: seq<Step>, i: nat, id: Id)
    requires IsRun(states, steps) && i < |states| && id in states[i].schedules
    ensures Increasing(PostedFor(states[i].log, id)) <==>
            forall e: nat :: e < |states[i].schedules[id]| ==> StartsAfterPosted(states[i], id, e)
  {
    hide IsRun, Inv, Increasing, StartsAfterPosted, PostedFor, FirstEpochs;
    EveryRunIsExactlyOnce(states, steps, i);
    EveryRunInEpochOrder(states, steps, i);
    FirstEpochsIncreaseIff(states[i], id, |states[i].schedules[id]|);
  }

  // ---- the guard of an edit ----

  /** Every date posted for the rule lies before a given one. */
  predicate PostedBefore(log: seq<Entry>, id: Id, day: Day) {
    forall k :: 0 <= k < |PostedFor(log, id)| ==> PostedFor(log, id)[k].occurredAt < day
  }

  /** Each rule's dates increase and its stored position is after all of them. */
  ghost predicate Forward(s: State) {
    forall id :: id in s.rules ==>
      Increasing(PostedFor(s.log, id)) && PostedBefore(s.log, id, s.rules[id].rule.nextRunAt)
  }

  /** An edit keeps the law if and only if it puts the position after everything posted. */
  lemma EditKeepsForwardIff(s: State, id: Id, rule: Rule)
    requires Inv(s) && Forward(s) && Enabled(s, EditRule(id, rule))
    ensures Forward(Do(s, EditRule(id, rule))) <==> PostedBefore(s.log, id, rule.nextRunAt)
  {
    hide Inv, Enabled, Do, Increasing, PostedBefore, SchedulesOk;
    InvParts(s);
    RuleWritesStartEpochs(s, id, rule);
    EditedRule(s, id, rule);
  }

  lemma EditedRule(s: State, id: Id, rule: Rule)
    requires Enabled(s, EditRule(id, rule))
    ensures id in s.rules
  {
    hide ScheduleOk, RowLocked;
  }

  /** The guard a form handler can test: the new position is not before the stored one. */
  predicate NotRewound(s: State, step: Step) {
    step.EditRule? && step.id in s.rules ==> s.rules[step.id].rule.nextRunAt <= step.rule.nextRunAt
  }

  lemma CommittedBlock(s: State, r: Session, j: nat)
    requires Inv(s) && Enabled(s, Commit(r)) && r in s.phases && s.phases[r].Running? && j < |s.phases[r].rows|
    ensures var p := s.phases[r];
            var row := p.rows[j];
            var n := |FullDates(row, p.asOf)|;
            && row.id in s.rules && s.rules[row.id].rule == row.rule && ScheduleOk(row.rule)
            && Due(row.rule, p.asOf)
            && FullDates(row, p.asOf) == Orbit(row.rule, row.rule.nextRunAt, n)
            && PostedFor(Blocks(p.rows, p.asOf), row.id) == Instances(row.rule, FullDates(row, p.asOf))
            && row.id in Do(s, Commit(r)).rules
            && Do(s, Commit(r)).rules[row.id].rule == AfterRun(row.rule, p.asOf)
            && AfterRun(row.rule, p.asOf).nextRunAt == Iterate(row.rule, row.rule.nextRunAt, n)
  {
    hide *;
    CommitAppends(s, r);
    InvParts(s);
    HeldRow(s, r, j);
    HeldPlainly(s, s.phases[r].rows, s.phases[r].asOf, j);
    var p := s.phases[r];
    var row := p.rows[j];
    FullDatesAreOrbit(row, p.asOf);
    BlocksAreCurrent(s, p.rows, p.asOf, row.id);
    PostedOfOneEpoch(Blocks(p.rows, p.asOf), row.id, row.epoch);
    EntriesOfBlocks(p.rows, p.asOf, row.id, row.epoch);
    CommitRule(s, r, row.id);
  }

  lemma HeldPlainly(s: State, rows: seq<LockedRow>, asOf: Day, j: nat)
    requires RowsHeld(s, rows, asOf) && j < |rows|
    ensures rows[j].id in s.rules && s.rules[rows[j].id].rule == rows[j].rule
    ensures forall i, k :: 0 <= i < k < |rows| ==> rows[i].id != rows[k].id
  {
    hide Due;
  }

  /** A rule without a locked row is not touched by the commit. */
  lemma CommitLeavesOthers(s: State, r: Session, id: Id)
    requires Inv(s) && Enabled(s, Commit(r)) && r in s.phases && s.phases[r].Running? && id in s.rules
    requires forall j :: 0 <= j < |s.phases[r].rows| ==> s.phases[r].rows[j].id != id
    ensures PostedFor(Blocks(s.phases[r].rows, s.phases[r].asOf), id) == []
    ensures id in Do(s, Commit(r)).rules && Do(s, Commit(r)).rules[id] == s.rules[id]
  {
    hide Inv, Enabled, Do, RunnerOk, RowsHeld, Blocks, AfterRun, PostedFor;
    CommitAppends(s, r);
    CommitRule(s, r, id);
    var p := s.phases[r];
    var b := Blocks(p.rows, p.asOf);
    BlocksSources(p.rows, p.asOf);
    forall j | 0 <= j < |b| ensures !(b[j].source.FromRule? && b[j].source.id == id) {
      assert SourceIn(p.rows, b[j].source);
    }
    NothingPostedYet(b, id);
  }

  lemma OrbitForward(r: Rule, n: nat)
    requires ScheduleOk(r)
    ensures Increasing(Instances(r, Orbit(r, r.nextRunAt, n)))
    ensures forall k :: 0 <= k < n ==>
              r.nextRunAt <= Instances(r, Orbit(r, r.nextRunAt, n))[k].occurredAt < Iterate(r, r.nextRunAt, n)
  {
    hide Iterate, ScheduleOk;
    NothingExpectedYet(r);
    forall j, k | 0 <= j < k <= n ensures Iterate(r, r.nextRunAt, j) < Iterate(r, r.nextRunAt, k) {
      IterateIncreases(r, r.nextRunAt, j, k);
    }
  }

  lemma ForwardConcat(a: seq<Tx>, b: seq<Tx>, next: Day, later: Day)
    requires Increasing(a) && Increasing(b) && next <= later
    requires forall k :: 0 <= k < |a| ==> a[k].occurredAt < next
    requires forall k :: 0 <= k < |b| ==> next <= b[k].occurredAt < later
    ensures Increasing(a + b) && forall k :: 0 <= k < |a + b| ==> (a + b)[k].occurredAt < later
  {
    hide Increasing;
    IncreasingConcat(a, b);
  }

  lemma IterateNotBefore(r: Rule, n: nat)
    requires ScheduleOk(r)
    ensures r.nextRunAt <= Iterate(r, r.nextRunAt, n)
  {
    hide Iterate, ScheduleOk;
    NothingExpectedYet(r);
    if n > 0 { IterateIncreases(r, r.nextRunAt, 0, n); }
  }

  lemma CommitKeepsForward(s: State, r: Session)
    requires Inv(s) && Forward(s) && Enabled(s, Commit(r))
    ensures Forward(Do(s, Commit(r)))
  {
    hide Inv, Enabled, Do, RunnerOk, RowsHeld, Blocks, Increasing, PostedFor, AfterRun, Due, ScheduleOk, FullDates,
         Iterate;
    CommitAppends(s, r);
    var p, t := s.phases[r], Do(s, Commit(r));
    forall id | id in t.rules
      ensures Increasing(PostedFor(t.log, id)) && PostedBefore(t.log, id, t.rules[id].rule.nextRunAt)
    {
      PostedConcat(s.log, Blocks(p.rows, p.asOf), id);
      if j :| 0 <= j < |p.rows| && p.rows[j].id == id {
        CommittedBlock(s, r, j);
        var n := |FullDates(p.rows[j], p.asOf)|;
        OrbitForward(p.rows[j].rule, n);
        IterateNotBefore(p.rows[j].rule, n);
        ForwardConcat(PostedFor(s.log, id), PostedFor(Blocks(p.rows, p.asOf), id),
                      s.rules[id].rule.nextRunAt, t.rules[id].rule.nextRunAt);
      } else {
        CommitLeavesOthers(s, r, id);
        assert PostedFor(s.log, id) + [] == PostedFor(s.log, id);
      }
    }
  }

  lemma CreateKeepsForward(s: State, id: Id, rule: Rule)
    requires SchedulesOk(s) && NoStrays(s) && Forward(s) && id !in s.rules
    ensures Forward(NewEpoch(s, id, rule))
  {
    hide PostedFor, SchedulesOk;
    assert id !in s.schedules by { SameKeys(s); }
    NothingPostedYet(s.log, id);
  }

  lemma SameKeys(s: State)
    requires SchedulesOk(s)
    ensures s.schedules.Keys == s.rules.Keys
  {
    hide ScheduledBy;
  }

  lemma ManualKeepsForward(s: State, tx: Tx)
    requires Forward(s)
    ensures Forward(s.(log := s.log + [Entry(Manual, tx)]))
  {
    hide Increasing;
    forall id ensures PostedFor(s.log + [Entry(Manual, tx)], id) == PostedFor(s.log, id) {
      assert (s.log + [Entry(Manual, tx)])[..|s.log|] == s.log;
    }
  }

  lemma SameForward(s: State, t: State)
    requires Forward(s) && t.log == s.log
    requires t.rules.Keys == s.rules.Keys && forall id :: id in s.rules ==> t.rules[id].rule == s.rules[id].rule
    ensures Forward(t)
  {
    hide Increasing, PostedFor;
  }

  lemma StepKeepsForward(s: State, step: Step)
    requires Inv(s) && Forward(s) && Enabled(s, step) && NotRewound(s, step)
    ensures Forward(Do(s, step))
  {
    hide Inv, Forward, Enabled, Do, SchedulesOk, NoStrays;
    InvParts(s);
    match step
    case Commit(r) => CommitKeepsForward(s, r);
    case CreateRule(id, rule) =>
      RuleWritesStartEpochs(s, id, rule);
      CreatedRule(s, id, rule);
      CreateKeepsForward(s, id, rule);
    case EditRule(id, rule) =>
      EditedRule(s, id, rule);
      NotRewoundSuffices(s, id, rule);
      EditKeepsForwardIff(s, id, rule);
    case DeleteRule(id) => PlainSteps(s, step); SameForward(s, Do(s, step));
    case AddManual(tx) => PlainSteps(s, step); ManualKeepsForward(s, tx);
    case _ => OnlyCommitPublishes(s, step); SameForward(s, Do(s, step));
  }

  lemma CreatedRule(s: State, id: Id, rule: Rule)
    requires Enabled(s, CreateRule(id, rule))
    ensures id !in s.rules
  {
    hide ScheduleOk;
  }

  lemma NotRewoundSuffices(s: State, id: Id, rule: Rule)
    requires Forward(s) && id in s.rules && NotRewound(s, EditRule(id, rule))
    ensures PostedBefore(s.log, id, rule.nextRunAt)
  {
    hide Increasing, PostedFor;
  }

  /** If no edit puts a rule's position before the stored one, then in every state of the run every rule has
      posted strictly increasing dates over its whole life, all before its stored position. */
  lemma {:induction false} ForwardEditsKeepExactlyOnce(states: seq<State>, steps: seq<Step>, i: nat)
    requires IsRun(states, steps) && i < |states|
    requires forall k :: 0 <= k < |steps| ==> NotRewound(states[k], steps[k])
    ensures Forward(states[i])
    decreases i
  {
    hide Inv, Enabled, Do, NotRewound;
    if i == 0 {
    } else {
      ForwardEditsKeepExactlyOnce(states, steps, i - 1);
      EveryRunIsExactlyOnce(states, steps, i - 1);
      StepKeepsForward(states[i - 1], steps[i - 1]);
    }
  }
}
