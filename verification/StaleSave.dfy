/** Saving a rule's edit form: a form loaded before a run and saved after it makes the rule post the same
    dates again, and any save lets it post past the end date its user set. */
module StaleSave {
  import opened Calendar
  import opened Catchup
  import opened Domain
  import opened Epochs
  import opened MoneyLaws
  import opened Reachable
  import opened Recurrence
  import opened RuleForm
  import opened RuleService
  import opened Runner
  import opened RunnerSteps
  import opened Text

  // ---- what runs keep of a rule's history ----

  lemma StepExtendsSchedules(s: State, step: Step, id: Id)
    requires SchedulesOk(s) && Enabled(s, step) && id in s.schedules
    ensures id in Do(s, step).schedules && s.schedules[id] <= Do(s, step).schedules[id]
  {
    hide Advance, Selectable, LoopContinues, ShapeOk, ScheduleOk, RowLocked, Published, ScheduledBy;
  }

  lemma RunExtendsSchedules(states: seq<State>, steps: seq<Step>, a: nat, b: nat, id: Id)
    requires IsRun(states, steps) && a <= b < |states| && id in states[a].schedules
    ensures id in states[b].schedules && states[a].schedules[id] <= states[b].schedules[id]
    decreases b
  {
    hide Inv, Enabled, Do, SchedulesOk;
    if a == b {
    } else {
      RunExtendsSchedules(states, steps, a, b - 1, id);
      EveryRunIsExactlyOnce(states, steps, b - 1);
      InvParts(states[b - 1]);
      StepExtendsSchedules(states[b - 1], steps[b - 1], id);
    }
  }

  /** The row as it reads at some time is the epoch's schedule at the first date not posted by then. */
  lemma RowAt(s: State, id: Id)
    requires Inv(s) && id in s.rules
    ensures id in s.schedules && |s.schedules[id]| > 0
    ensures var e := |s.schedules[id]| - 1;
            var sched, n := s.schedules[id][e], |EntriesOf(s.log, id, e)|;
            && ScheduleOk(sched) && SameSchedule(s.rules[id].rule, sched)
            && s.rules[id].rule.nextRunAt == Iterate(sched, sched.nextRunAt, n)
            && EntriesOf(s.log, id, e) == Expected(sched, n)
  {
    hide Inv, SchedulesOk, EntriesOf, Iterate, ScheduleOk;
    InvParts(s);
    assert id in s.schedules by { SameKeys(s); }
    ScheduleStarted(s, id);
    assert StandsAt(s.rules[id].rule, s.schedules[id], s.log, id);
  }

  lemma ExpectedAt(sched: Rule, r: Rule, n: nat, m: nat)
    requires ScheduleOk(sched) && SameSchedule(r, sched) && n < m
    requires r.nextRunAt == Iterate(sched, sched.nextRunAt, n)
    ensures Expected(sched, m)[n] == Instantiate(r, r.nextRunAt)
    ensures r.nextRunAt < Iterate(sched, sched.nextRunAt, m)
  {
    hide Iterate;
    IterateIncreases(sched, sched.nextRunAt, n, m);
  }

  lemma EditAllowed(s: State, id: Id, rule: Rule)
    requires id in s.rules && !s.rules[id].deleted && !RowLocked(s, id) && ScheduleOk(rule)
    ensures Enabled(s, EditRule(id, rule))
  {
    hide RowLocked, ScheduleOk;
  }

  /** The next transaction after a save is the one that was due when the form was loaded, if and only if the rule
      has no note and no sen, the page offers its accounts and category, and they have the shape of its kind. */
  lemma SavedInstance(r: Rule, name: string, o: Options, saved: Rule)
    requires Stored(r, o) && SaveAs(r, name, o) == Ok(saved)
    ensures ScheduleOk(saved) && saved.nextRunAt == r.nextRunAt && saved.active == r.active
    ensures Instantiate(saved, saved.nextRunAt) == Instantiate(r, r.nextRunAt) <==>
            r.note == "" && r.amount % 100 == 0 && Offers(r, o) && Shaped(r)
  {
    hide SaveAs, TrimSpace, WholeUnits;
    SaveAcceptedIff(r, name, o);
    WholeUnitsPositive(r.amount);
  }

  /** In every run: a form loaded in state a and saved in state b, under whatever name, after the rule has posted
      and before anyone else has written it. If it is accepted, it can always be stored, and it rewinds the rule:
      the next date is the first one posted since loading, and so is the whole transaction if and only if nothing
      that the form drops or cannot offer went into it. */
  lemma StaleSaveRewinds(states: seq<State>, steps: seq<Step>, a: nat, b: nat, id: Id, e: nat, n: nat, loaded: Rule,
                         name: string, o: Options, saved: Rule)
    requires IsRun(states, steps) && a <= b < |states|
    requires id in states[a].rules && loaded == states[a].rules[id].rule
    requires id in states[a].schedules && |states[a].schedules[id]| == e + 1 && n == |EntriesOf(states[a].log, id, e)|
    requires id in states[b].schedules && |states[b].schedules[id]| == e + 1 && n < |EntriesOf(states[b].log, id, e)|
    requires id in states[b].rules && !states[b].rules[id].deleted && !RowLocked(states[b], id)
    requires Stored(loaded, o) && SaveAs(loaded, name, o) == Ok(saved)
    ensures Enabled(states[b], EditRule(id, saved))
    ensures Do(states[b], EditRule(id, saved)) == NewEpoch(states[b], id, saved)
    ensures saved.nextRunAt == EntriesOf(states[b].log, id, e)[n].occurredAt
    ensures saved.nextRunAt < states[b].rules[id].rule.nextRunAt
    ensures Instantiate(saved, saved.nextRunAt) == EntriesOf(states[b].log, id, e)[n] <==>
            loaded.note == "" && loaded.amount % 100 == 0 && Offers(loaded, o) && Shaped(loaded)
  {
    hide *;
    EveryRunIsExactlyOnce(states, steps, a);
    EveryRunIsExactlyOnce(states, steps, b);
    RowAt(states[a], id);
    RowAt(states[b], id);
    RunExtendsSchedules(states, steps, a, b, id);
    var sched := states[b].schedules[id][e];
    assert states[a].schedules[id][e] == sched;
    ExpectedAt(sched, loaded, n, |EntriesOf(states[b].log, id, e)|);
    SavedInstance(loaded, name, o, saved);
    InstanceDate(loaded);
    EditAllowed(states[b], id, saved);
    InvParts(states[b]);
    RuleWritesStartEpochs(states[b], id, saved);
  }

  lemma InstanceDate(r: Rule)
    ensures Instantiate(r, r.nextRunAt).occurredAt == r.nextRunAt
  {
  }

  /** Two epochs that start alike and both post begin with the same transaction. */
  lemma SameStartPostsTwice(s: State, id: Id, d: nat, e: nat)
    requires Inv(s) && id in s.schedules && d < |s.schedules[id]| && e < |s.schedules[id]|
    requires s.schedules[id][d] == s.schedules[id][e]
    requires EntriesOf(s.log, id, d) != [] && EntriesOf(s.log, id, e) != []
    ensures EntriesOf(s.log, id, d)[0] == EntriesOf(s.log, id, e)[0]
  {
    hide Inv, EntriesOf;
    EpochDates(s, id, d);
    EpochDates(s, id, e);
  }

  // ---- concrete runs ----

  const DAY: Day := 10
  const RULE_ID: Id := "rent"
  const RENT := Rule("rent", Expense, 100, "cash", None, None, "", Daily, 1, None, DAY, None, true)

  /** The same rule with an end date: DAY is its last. */
  const FENCED := RENT.(endAt := Some(DAY))

  const OPTIONS := Options(["cash"], [])

  /** What saving either rule's page under a new name stores. */
  const RENAMED := RENT.(name := "home")

  lemma RenamedIsSaved()
    ensures SaveAs(RENT, "home", OPTIONS) == Ok(RENAMED) && SaveAs(FENCED, "home", OPTIONS) == Ok(RENAMED)
    ensures FromForm(RENAMED)
  {
    hide SaveAs, TrimSpace, WholeUnits;
    TrimmedUnchanged("home");
    SaveAcceptedIff(RENT, "home", OPTIONS);
    SaveAcceptedIff(FENCED, "home", OPTIONS);
    WholeUnitsPositive(100);
    SavedIsFromForm(RENT, "home", OPTIONS);
  }

  lemma SavedIsFromForm(r: Rule, name: string, o: Options)
    requires MIN_INT64 <= r.amount <= MAX_INT64 && SaveAs(r, name, o).Ok?
    ensures FromForm(SaveAs(r, name, o).value)
  {
    hide ParseForm, Shown, ToDomain;
    assert ToDomain(ParseForm(Shown(r, o).(name := name)).value) == SaveAs(r, name, o);
  }

  lemma CreatedFromForm()
    ensures FromForm(RENT) && FromForm(FENCED)
  {
    hide TrimSpace;
    TrimmedUnchanged("rent");
    TrimmedUnchanged("");
    var input := RuleInput("rent", "expense", 100, "cash", "", "", "", "daily", 1, 0, DAY, None, true);
    assert ToDomain(input) == Ok(RENT);
    assert ToDomain(input.(endAt := Some(DAY))) == Ok(FENCED);
  }

  ghost predicate Path(states: seq<State>, steps: seq<Step>) {
    && |states| == |steps| + 1
    && forall i :: 0 <= i < |steps| ==> Enabled(states[i], steps[i]) && states[i + 1] == Do(states[i], steps[i])
  }

  lemma PathConcat(a: seq<State>, p: seq<Step>, b: seq<State>, q: seq<Step>)
    requires Path(a, p) && Path(b, q) && a[|a| - 1] == b[0]
    ensures Path(a + b[1..], p + q)
    ensures (a + b[1..])[0] == a[0] && (a + b[1..])[|a + b[1..]| - 1] == b[|b| - 1]
  {
    hide Enabled, Do;
    var c, r := a + b[1..], p + q;
    forall i | 0 <= i < |r| ensures Enabled(c[i], r[i]) && c[i + 1] == Do(c[i], r[i]) {
      if i >= |p| { assert r[i] == q[i - |p|] && c[i] == b[i - |p|]; }
    }
  }

  lemma OneStep(s: State, step: Step) returns (states: seq<State>, steps: seq<Step>)
    requires Enabled(s, step)
    ensures Path(states, steps) && states[0] == s && steps == [step] && states == [s, Do(s, step)]
  {
    hide Enabled, Do;
    states, steps := [s, Do(s, step)], [step];
  }

  /** Nobody is running, and there is one rule. */
  predicate AtRest(s: State, rule: Rule, e: nat) {
    && s.lock == None && (forall r :: r in s.phases ==> s.phases[r].Idle?)
    && s.rules == map[RULE_ID := RuleRow(rule, false)]
    && s.schedules.Keys == {RULE_ID} && |s.schedules[RULE_ID]| == e + 1
  }

  /** A daily rule without an end, at its position. */
  predicate Everyday(rule: Rule) {
    rule == RENT.(nextRunAt := rule.nextRunAt) || rule == RENAMED.(nextRunAt := rule.nextRunAt)
  }

  function RunnerPhase(rule: Rule, e: nat, k: nat, i: nat, next: Day, staged: seq<Entry>,
                       updates: map<Id, Update>): Phase {
    Running(rule.nextRunAt, [LockedRow(RULE_ID, e, rule)], k, i, next, staged, updates)
  }

  lemma RuleSelected(s: State, rule: Rule, e: nat)
    requires AtRest(s, rule, e) && Everyday(rule)
    ensures Selectable(s.(lock := Some(0), phases := s.phases[0 := Holding]), [LockedRow(RULE_ID, e, rule)],
                       rule.nextRunAt)
  {
    var t := s.(lock := Some(0), phases := s.phases[0 := Holding]);
    var rows := [LockedRow(RULE_ID, e, rule)];
    assert DueIds(t.rules, rule.nextRunAt) == {RULE_ID};
    assert Plain(rows)[0].id == RULE_ID;
    assert Includes(Plain(rows), RULE_ID);
    assert !RowLocked(t, RULE_ID);
  }

  lemma OnceOnly(rule: Rule)
    requires Everyday(rule)
    ensures var day := rule.nextRunAt;
            && ScheduleOk(rule) && Advance(rule, day) == day + 1
            && !Stopped(rule, day, day) && Stopped(rule, day + 1, day) && !Expired(rule, day + 1)
            && ShapeOk(Instantiate(rule, day))
  {
    hide Advance;
    AdvanceByDays(rule, rule.nextRunAt);
  }

  function AfterOneRun(s: State, rule: Rule, e: nat): State {
    s.(phases := s.phases[0 := Idle],
       rules := map[RULE_ID := RuleRow(rule.(nextRunAt := rule.nextRunAt + 1), false)],
       log := s.log + [Entry(FromRule(RULE_ID, e), Instantiate(rule, rule.nextRunAt))])
  }

  /** The states of one run, from lock to unlock. */
  function RunState(s: State, rule: Rule, e: nat, k: nat): State {
    var day := rule.nextRunAt;
    var entry := Entry(FromRule(RULE_ID, e), Instantiate(rule, day));
    var update := map[RULE_ID := Update(day + 1, true)];
    var after := AfterOneRun(s, rule, e);
    match k
    case 0 => s
    case 1 => s.(lock := Some(0), phases := s.phases[0 := Holding])
    case 2 => s.(lock := Some(0), phases := s.phases[0 := RunnerPhase(rule, e, 0, 0, day, [], map[])])
    case 3 => s.(lock := Some(0), phases := s.phases[0 := RunnerPhase(rule, e, 0, 1, day + 1, [entry], map[])])
    case 4 => s.(lock := Some(0), phases := s.phases[0 := RunnerPhase(rule, e, 1, 0, day, [entry], update)])
    case 5 => after.(lock := Some(0), phases := s.phases[0 := Finished])
    case _ => after
  }

  /** Lock, select, one insert, advance, commit, unlock. */
  function RunStep(rule: Rule, e: nat, k: nat): Step {
    match k
    case 0 => TryLock(0)
    case 1 => Begin(0, rule.nextRunAt, [LockedRow(RULE_ID, e, rule)])
    case 2 => Insert(0)
    case 3 => UpdateRow(0)
    case 4 => Commit(0)
    case _ => Unlock(0)
  }

  ghost predicate Follows(s: State, rule: Rule, e: nat, k: nat) {
    && Enabled(RunState(s, rule, e, k), RunStep(rule, e, k))
    && Do(RunState(s, rule, e, k), RunStep(rule, e, k)) == RunState(s, rule, e, k + 1)
  }

  lemma RunStarts(s: State, rule: Rule, e: nat)
    requires AtRest(s, rule, e) && Everyday(rule)
    ensures Follows(s, rule, e, 0) && Follows(s, rule, e, 1)
  {
    hide Advance, Selectable;
    RuleSelected(s, rule, e);
  }

  lemma RunPosts(s: State, rule: Rule, e: nat)
    requires AtRest(s, rule, e) && Everyday(rule)
    ensures Follows(s, rule, e, 2)
  {
    hide Advance, Stopped, ShapeOk, ScheduleOk;
    OnceOnly(rule);
    var entry := Entry(FromRule(RULE_ID, e), Instantiate(rule, rule.nextRunAt));
    assert [] + [entry] == [entry];
  }

  lemma RunAdvances(s: State, rule: Rule, e: nat)
    requires AtRest(s, rule, e) && Everyday(rule)
    ensures Follows(s, rule, e, 3)
  {
    hide Advance, Stopped, ShapeOk, ScheduleOk;
    OnceOnly(rule);
  }

  lemma RunPublishes(s: State, rule: Rule, e: nat)
    requires AtRest(s, rule, e) && Everyday(rule)
    ensures Follows(s, rule, e, 4)
  {
    hide Advance, Instantiate;
  }

  lemma RunUnlocks(s: State, rule: Rule, e: nat)
    requires AtRest(s, rule, e) && Everyday(rule)
    ensures Follows(s, rule, e, 5)
  {
    hide Advance, Instantiate;
  }

  lemma OneRun(s: State, rule: Rule, e: nat) returns (states: seq<State>, steps: seq<Step>)
    requires AtRest(s, rule, e) && Everyday(rule)
    ensures Path(states, steps) && states[0] == s && states[|states| - 1] == AfterOneRun(s, rule, e)
    ensures forall k :: 0 <= k < |steps| ==> !steps[k].CreateRule? && !steps[k].EditRule?
  {
    hide Enabled, Do, AtRest;
    RunStarts(s, rule, e);
    RunPosts(s, rule, e);
    RunAdvances(s, rule, e);
    RunPublishes(s, rule, e);
    RunUnlocks(s, rule, e);
    states := seq(7, k requires 0 <= k < 7 => RunState(s, rule, e, k));
    steps := seq(6, k requires 0 <= k < 6 => RunStep(rule, e, k));
    assert forall k :: 0 <= k < 6 ==> Follows(s, rule, e, k);
    SixStepsPath(s, rule, e, states, steps);
  }

  lemma SixStepsPath(s: State, rule: Rule, e: nat, states: seq<State>, steps: seq<Step>)
    requires |states| == 7 && (forall k :: 0 <= k < 7 ==> states[k] == RunState(s, rule, e, k))
    requires |steps| == 6 && (forall k :: 0 <= k < 6 ==> steps[k] == RunStep(rule, e, k))
    requires forall k :: 0 <= k < 6 ==> Follows(s, rule, e, k)
    ensures Path(states, steps)
  {
    hide Enabled, Do, RunState, RunStep;
    forall i | 0 <= i < |steps| ensures Enabled(states[i], steps[i]) && states[i + 1] == Do(states[i], steps[i]) {
      assert Follows(s, rule, e, i);
    }
  }

  /** A path whose edits all come from the form and never put a position before the stored one. */
  ghost predicate ForwardForms(states: seq<State>, steps: seq<Step>)
    requires |states| == |steps| + 1
  {
    forall k :: 0 <= k < |steps| ==> NotRewound(states[k], steps[k]) && WritesFromForm(steps[k])
  }

  lemma RunsAreForward(states: seq<State>, steps: seq<Step>)
    requires |states| == |steps| + 1
    requires forall k :: 0 <= k < |steps| ==> !steps[k].CreateRule? && !steps[k].EditRule?
    ensures ForwardForms(states, steps)
  {
    hide FromForm;
  }

  lemma ForwardConcats(a: seq<State>, p: seq<Step>, b: seq<State>, q: seq<Step>)
    requires |a| == |p| + 1 && |b| == |q| + 1 && a[|a| - 1] == b[0]
    requires ForwardForms(a, p) && ForwardForms(b, q)
    ensures |a + b[1..]| == |p + q| + 1 && ForwardForms(a + b[1..], p + q)
  {
    hide NotRewound, WritesFromForm;
    var c, r := a + b[1..], p + q;
    forall k | 0 <= k < |r| ensures NotRewound(c[k], r[k]) && WritesFromForm(r[k]) {
      if k >= |p| { assert r[k] == q[k - |p|] && c[k] == b[k - |p|]; }
    }
  }

  function Empty(): State {
    State(None, map[], map[], [], map[])
  }

  function Created(rule: Rule): State {
    Empty().(rules := map[RULE_ID := RuleRow(rule, false)], schedules := map[RULE_ID := [rule]])
  }

  /** The rule, wherever its position is, overwritten by the renamed one. */
  function Renamed(s: State, first: Rule): State {
    s.(rules := map[RULE_ID := RuleRow(RENAMED, false)], schedules := map[RULE_ID := [first, RENAMED]])
  }

  lemma CreateStep(rule: Rule)
    requires ScheduleOk(rule) && FromForm(rule)
    ensures Enabled(Empty(), CreateRule(RULE_ID, rule)) && Do(Empty(), CreateRule(RULE_ID, rule)) == Created(rule)
    ensures AtRest(Created(rule), rule, 0) && WritesFromForm(CreateRule(RULE_ID, rule))
  {
    hide FromForm, ScheduleOk;
  }

  lemma SaveStep(s: State, first: Rule, current: Rule)
    requires AtRest(s, current, 0) && s.schedules == map[RULE_ID := [first]]
    ensures Enabled(s, EditRule(RULE_ID, RENAMED)) && Do(s, EditRule(RULE_ID, RENAMED)) == Renamed(s, first)
    ensures AtRest(Renamed(s, first), RENAMED, 1) && WritesFromForm(EditRule(RULE_ID, RENAMED))
  {
    hide FromForm, SaveAs, RowLocked, ScheduleOk;
    RenamedIsSaved();
    NothingLocked(s);
    RenamedScheduled();
    assert [first] + [RENAMED] == [first, RENAMED];
  }

  lemma NothingLocked(s: State)
    requires forall r :: r in s.phases ==> s.phases[r].Idle?
    ensures !RowLocked(s, RULE_ID)
  {
  }

  lemma RenamedScheduled()
    ensures ScheduleOk(RENAMED)
  {
  }

  /** From empty tables: create the rule, run, save the form loaded before the run under a new name, run. The
      rule has posted the same transaction twice, though no user moved a date. */
  lemma StaleSavePostsTwice() returns (states: seq<State>, steps: seq<Step>)
    ensures IsRun(states, steps) && forall k :: 0 <= k < |steps| ==> WritesFromForm(steps[k])
    ensures EditRule(RULE_ID, RENAMED) in steps && SaveAs(RENT, "home", OPTIONS) == Ok(RENAMED)
    ensures var rent := Instantiate(RENT, DAY);
            PostedFor(states[|states| - 1].log, RULE_ID) == [rent, rent]
  {
    hide Advance, Enabled, Do, AtRest, FromForm, SaveAs;
    RenamedIsSaved();
    CreatedFromForm();
    CreateStep(RENT);
    states, steps := OneStep(Empty(), CreateRule(RULE_ID, RENT));
    var s1 := Created(RENT);
    var more, next := OneRun(s1, RENT, 0);
    PathConcat(states, steps, more, next);
    states, steps := states + more[1..], steps + next;
    var s2 := AfterOneRun(s1, RENT, 0);
    RestAfterRun(s1, RENT, 0);
    SaveStep(s2, RENT, RENT.(nextRunAt := DAY + 1));
    more, next := OneStep(s2, EditRule(RULE_ID, RENAMED));
    PathConcat(states, steps, more, next);
    states, steps := states + more[1..], steps + next;
    assert EditRule(RULE_ID, RENAMED) in next;
    more, next := OneRun(Renamed(s2, RENT), RENAMED, 1);
    PathConcat(states, steps, more, next);
    states, steps := states + more[1..], steps + next;
    TwoPostings(0, Instantiate(RENT, DAY), 1, Instantiate(RENAMED, DAY));
    assert states[|states| - 1].log
        == [Entry(FromRule(RULE_ID, 0), Instantiate(RENT, DAY)),
            Entry(FromRule(RULE_ID, 1), Instantiate(RENAMED, DAY))];
  }

  lemma RestAfterRun(s: State, rule: Rule, e: nat)
    requires AtRest(s, rule, e)
    ensures AtRest(AfterOneRun(s, rule, e), rule.(nextRunAt := rule.nextRunAt + 1), e)
    ensures AfterOneRun(s, rule, e).schedules == s.schedules
  {
    hide Instantiate;
  }

  /** From empty tables: create a rule whose user ends it on DAY, rename it before its first run, run on DAY and
      on the day after. No date was moved and no save was stale, and the rule has posted past its user's end
      date, where the rule as created owes DAY alone. */
  lemma RenamePostsPastEnd() returns (states: seq<State>, steps: seq<Step>)
    ensures IsRun(states, steps) && ForwardForms(states, steps)
    ensures CreateRule(RULE_ID, FENCED) in steps && FENCED.endAt == Some(DAY)
    ensures EditRule(RULE_ID, RENAMED) in steps && SaveAs(FENCED, "home", OPTIONS) == Ok(RENAMED)
    ensures ScheduleOk(FENCED) && Uncapped(FENCED, DAY, DAY + 1) == [DAY]
    ensures PostedFor(states[|states| - 1].log, RULE_ID) == [Instantiate(FENCED, DAY), Instantiate(FENCED, DAY + 1)]
  {
    hide Advance, Enabled, Do, AtRest, FromForm, SaveAs, ForwardForms;
    RenamedIsSaved();
    CreatedFromForm();
    FencedOwesOne();
    CreateStep(FENCED);
    states, steps := OneStep(Empty(), CreateRule(RULE_ID, FENCED));
    CreateIsForward(states, steps);
    var s1 := Created(FENCED);
    SaveStep(s1, FENCED, FENCED);
    var more, next := OneStep(s1, EditRule(RULE_ID, RENAMED));
    SaveIsForward(more, next);
    assert CreateRule(RULE_ID, FENCED) in steps && EditRule(RULE_ID, RENAMED) in next;
    PathConcat(states, steps, more, next);
    ForwardConcats(states, steps, more, next);
    states, steps := states + more[1..], steps + next;
    var s2, moved := Renamed(s1, FENCED), RENAMED.(nextRunAt := DAY + 1);
    more, next := OneRun(s2, RENAMED, 1);
    RunsAreForward(more, next);
    PathConcat(states, steps, more, next);
    ForwardConcats(states, steps, more, next);
    states, steps := states + more[1..], steps + next;
    RestAfterRun(s2, RENAMED, 1);
    more, next := OneRun(AfterOneRun(s2, RENAMED, 1), moved, 1);
    RunsAreForward(more, next);
    PathConcat(states, steps, more, next);
    ForwardConcats(states, steps, more, next);
    states, steps := states + more[1..], steps + next;
    TwoPostings(1, Instantiate(RENAMED, DAY), 1, Instantiate(moved, DAY + 1));
    assert states[|states| - 1].log
        == [Entry(FromRule(RULE_ID, 1), Instantiate(RENAMED, DAY)),
            Entry(FromRule(RULE_ID, 1), Instantiate(moved, DAY + 1))];
  }

  lemma CreateIsForward(states: seq<State>, steps: seq<Step>)
    requires |states| == 2 && steps == [CreateRule(RULE_ID, FENCED)] && FromForm(FENCED)
    ensures ForwardForms(states, steps)
  {
    hide FromForm;
  }

  lemma SaveIsForward(states: seq<State>, steps: seq<Step>)
    requires |states| == 2 && states[0] == Created(FENCED) && steps == [EditRule(RULE_ID, RENAMED)] && FromForm(RENAMED)
    ensures ForwardForms(states, steps)
  {
    hide FromForm;
  }

  lemma FencedOwesOne()
    ensures ScheduleOk(FENCED) && Uncapped(FENCED, DAY, DAY + 1) == [DAY]
  {
    hide Advance;
    AdvanceByDays(FENCED, DAY);
    assert Uncapped(FENCED, DAY + 1, DAY + 1) == [];
  }

  lemma TwoPostings(d: nat, t: Tx, e: nat, u: Tx)
    ensures PostedFor([Entry(FromRule(RULE_ID, d), t), Entry(FromRule(RULE_ID, e), u)], RULE_ID) == [t, u]
  {
    var log := [Entry(FromRule(RULE_ID, d), t), Entry(FromRule(RULE_ID, e), u)];
    assert log[..1] == [log[0]] && log[..1][..0] == [];
    assert PostedFor(log[..1], RULE_ID) == [t];
    assert [t] + [u] == [t, u];
  }
}
