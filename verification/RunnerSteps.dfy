/** Any number of runners and users sharing one database, one statement at a time.
    The advisory lock, the row locks and atomic commit are step rules. */
module RunnerSteps {
  import opened Calendar
  import opened Domain
  import opened Recurrence
  import opened Catchup
  import opened Runner

  type Session = nat

  /** Where an inserted transaction came from. An edit of a rule starts its next epoch. */
  datatype Source = Manual | FromRule(id: Id, epoch: nat)

  datatype Entry = Entry(source: Source, tx: Tx)

  /** A due row held FOR UPDATE, with the epoch it was read in. */
  datatype LockedRow = LockedRow(id: Id, epoch: nat, rule: Rule)

  datatype Update = Update(next: Day, active: bool)

  /** What a session is doing. A Running session works on row k, has been round the catch-up loop
      i times for it and stands at `next`; `staged` and `updates` are its uncommitted writes. */
  datatype Phase =
    | Idle
    | Holding
    | Running(asOf: Day, rows: seq<LockedRow>, k: nat, i: nat, next: Day,
              staged: seq<Entry>, updates: map<Id, Update>)
    | Finished

  /** `log` is the insert history of the transactions table and `schedules` the schedule each
      epoch of a rule started from; both are bookkeeping that no step reads for a decision. */
  datatype State = State(
    lock: Option<Session>,
    phases: map<Session, Phase>,
    rules: RuleTable,
    log: seq<Entry>,
    schedules: map<Id, seq<Rule>>)

  datatype Step =
    | TryLock(r: Session)
    | Begin(r: Session, asOf: Day, rows: seq<LockedRow>)
    | Insert(r: Session)
    | UpdateRow(r: Session)
    | Commit(r: Session)
    | Abort(r: Session)
    | Unlock(r: Session)
    | Crash(r: Session)
    | CreateRule(id: Id, rule: Rule)
    | EditRule(id: Id, rule: Rule)
    | DeleteRule(id: Id)
    | AddManual(tx: Tx)

  function PhaseOf(s: State, r: Session): Phase {
    if r in s.phases then s.phases[r] else Idle
  }

  predicate RowLocked(s: State, id: Id) {
    exists r :: r in s.phases && s.phases[r].Running?
      && exists j :: 0 <= j < |s.phases[r].rows| && s.phases[r].rows[j].id == id
  }

  /** What SELECT ... FOR UPDATE may return. */
  ghost predicate Selectable(s: State, rows: seq<LockedRow>, asOf: Day) {
    && (forall j :: 0 <= j < |rows| ==> rows[j].id in s.rules && rows[j].id in s.schedules)
    && Selection(s.rules, Plain(rows), asOf)
    && (forall j :: 0 <= j < |rows| ==>
          rows[j].epoch + 1 == |s.schedules[rows[j].id]| && !RowLocked(s, rows[j].id))
  }

  function Plain(rows: seq<LockedRow>): (due: seq<DueRow>)
    ensures |due| == |rows|
    ensures forall j :: 0 <= j < |rows| ==> due[j] == DueRow(rows[j].id, rows[j].rule)
  {
    seq(|rows|, j requires 0 <= j < |rows| => DueRow(rows[j].id, rows[j].rule))
  }

  /** The guard of the catch-up loop for the row at hand. */
  predicate LoopContinues(p: Phase)
    requires p.Running? && p.k < |p.rows|
  {
    p.i < CAP && !Stopped(p.rows[p.k].rule, p.next, p.asOf)
  }

  ghost predicate Enabled(s: State, step: Step) {
    match step
    case TryLock(r) => PhaseOf(s, r).Idle?
    case Begin(r, asOf, rows) => PhaseOf(s, r).Holding? && Selectable(s, rows, asOf)
    case Insert(r) =>
      var p := PhaseOf(s, r);
      p.Running? && p.k < |p.rows| && LoopContinues(p) && ShapeOk(Instantiate(p.rows[p.k].rule, p.next))
    case UpdateRow(r) =>
      var p := PhaseOf(s, r);
      p.Running? && p.k < |p.rows| && !LoopContinues(p)
    case Commit(r) => var p := PhaseOf(s, r); p.Running? && p.k == |p.rows|
    case Abort(r) => var p := PhaseOf(s, r); p.Holding? || p.Running?
    case Unlock(r) => PhaseOf(s, r).Finished?
    case Crash(r) => !PhaseOf(s, r).Idle?
    case CreateRule(id, rule) => id !in s.rules && ScheduleOk(rule)
    case EditRule(id, rule) => id in s.rules && !s.rules[id].deleted && !RowLocked(s, id) && ScheduleOk(rule)
    case DeleteRule(id) => id in s.rules && !s.rules[id].deleted && !RowLocked(s, id)
    case AddManual(tx) => ShapeOk(tx)
  }

  function StartAt(rows: seq<LockedRow>, k: nat, asOf: Day): Day {
    if k < |rows| then rows[k].rule.nextRunAt else asOf
  }

  function Published(rules: RuleTable, updates: map<Id, Update>): RuleTable {
    map id | id in rules ::
      if id in updates
      then RuleRow(rules[id].rule.(nextRunAt := updates[id].next, active := updates[id].active), rules[id].deleted)
      else rules[id]
  }

  ghost function Do(s: State, step: Step): State
    requires Enabled(s, step)
  {
    match step
    case TryLock(r) =>
      if s.lock.None? then s.(lock := Some(r), phases := s.phases[r := Holding]) else s
    case Begin(r, asOf, rows) =>
      s.(phases := s.phases[r := Running(asOf, rows, 0, 0, StartAt(rows, 0, asOf), [], map[])])
    case Insert(r) =>
      var p := s.phases[r];
      var row := p.rows[p.k];
      s.(phases := s.phases[r := p.(
        i := p.i + 1,
        next := Advance(row.rule, p.next),
        staged := p.staged + [Entry(FromRule(row.id, row.epoch), Instantiate(row.rule, p.next))])])
    case UpdateRow(r) =>
      var p := s.phases[r];
      var rule := p.rows[p.k].rule;
      s.(phases := s.phases[r := p.(
        k := p.k + 1,
        i := 0,
        next := StartAt(p.rows, p.k + 1, p.asOf),
        updates := p.updates[p.rows[p.k].id := Update(p.next, if Expired(rule, p.next) then false else rule.active)])])
    case Commit(r) =>
      var p := s.phases[r];
      s.(phases := s.phases[r := Finished], log := s.log + p.staged, rules := Published(s.rules, p.updates))
    case Abort(r) => s.(phases := s.phases[r := Finished])
    case Unlock(r) => s.(phases := s.phases[r := Idle], lock := None)
    case Crash(r) => s.(phases := s.phases[r := Idle], lock := if s.lock == Some(r) then None else s.lock)
    case CreateRule(id, rule) =>
      s.(rules := s.rules[id := RuleRow(rule, false)], schedules := s.schedules[id := [rule]])
    case EditRule(id, rule) =>
      s.(rules := s.rules[id := RuleRow(rule, false)],
         schedules := if id in s.schedules then s.schedules[id := s.schedules[id] + [rule]] else s.schedules)
    case DeleteRule(id) => s.(rules := s.rules[id := s.rules[id].(deleted := true)])
    case AddManual(tx) => s.(log := s.log + [Entry(Manual, tx)])
  }

  predicate Init(s: State) {
    s == State(None, map[], map[], [], map[])
  }

  /** The transactions of one epoch of one rule, in insertion order. */
  function EntriesOf(log: seq<Entry>, id: Id, epoch: nat): seq<Tx> {
    if log == [] then []
    else
      var last := log[|log| - 1];
      EntriesOf(log[..|log| - 1], id, epoch) + if last.source == FromRule(id, epoch) then [last.tx] else []
  }

  /** The first n occurrences of a schedule. */
  function Expected(schedule: Rule, n: nat): seq<Tx> {
    Instances(schedule, Orbit(schedule, schedule.nextRunAt, n))
  }

  predicate SameSchedule(r: Rule, q: Rule) {
    r == q.(nextRunAt := r.nextRunAt, active := r.active)
  }

  // ---- the invariant ----

  ghost predicate ExactlyOnce(s: State) {
    forall id, e :: id in s.schedules && 0 <= e < |s.schedules[id]| ==>
      EntriesOf(s.log, id, e) == Expected(s.schedules[id][e], |EntriesOf(s.log, id, e)|)
  }

  /** A rule's row still follows the schedule its current epoch started from. */
  ghost predicate ScheduledBy(rule: Rule, history: seq<Rule>) {
    && |history| > 0
    && (forall e :: 0 <= e < |history| ==> ScheduleOk(history[e]))
    && SameSchedule(rule, history[|history| - 1])
  }

  ghost predicate SchedulesOk(s: State) {
    && s.schedules.Keys == s.rules.Keys
    && forall id :: id in s.schedules ==> ScheduledBy(s.rules[id].rule, s.schedules[id])
  }

  /** The stored position is the first date of the current epoch that the log does not have. */
  predicate StandsAt(rule: Rule, history: seq<Rule>, log: seq<Entry>, id: Id)
    requires |history| > 0
  {
    var start := history[|history| - 1];
    rule.nextRunAt == Iterate(start, start.nextRunAt, |EntriesOf(log, id, |history| - 1)|)
  }

  ghost predicate NextIsFirstUnposted(s: State)
    requires SchedulesOk(s)
  {
    forall id :: id in s.rules ==> StandsAt(s.rules[id].rule, s.schedules[id], s.log, id)
  }

  ghost predicate NoStrays(s: State) {
    forall j :: 0 <= j < |s.log| ==>
      match s.log[j].source
      case Manual => true
      case FromRule(id, e) => id in s.schedules && e < |s.schedules[id]|
  }

  ghost predicate Mutex(s: State) {
    forall r: Session :: !PhaseOf(s, r).Idle? ==> s.lock == Some(r)
  }

  /** What one locked row contributes, complete or so far. */
  function Block(row: LockedRow, dates: seq<Day>): (b: seq<Entry>)
    ensures |b| == |dates|
  {
    seq(|dates|, j requires 0 <= j < |dates| => Entry(FromRule(row.id, row.epoch), Instantiate(row.rule, dates[j])))
  }

  function FullDates(row: LockedRow, asOf: Day): seq<Day> {
    CatchUp(row.rule, row.rule.nextRunAt, asOf, CAP).dates
  }

  function Blocks(rows: seq<LockedRow>, asOf: Day): seq<Entry> {
    if rows == [] then []
    else Blocks(rows[..|rows| - 1], asOf) + Block(rows[|rows| - 1], FullDates(rows[|rows| - 1], asOf))
  }

  /** Locked rows still read as they were selected. */
  ghost predicate RowsHeld(s: State, rows: seq<LockedRow>, asOf: Day) {
    && (forall j :: 0 <= j < |rows| ==>
          && rows[j].id in s.rules && rows[j].id in s.schedules
          && s.rules[rows[j].id] == RuleRow(rows[j].rule, false)
          && Due(rows[j].rule, asOf)
          && rows[j].epoch + 1 == |s.schedules[rows[j].id]|)
    && (forall i, j :: 0 <= i < j < |rows| ==> rows[i].id != rows[j].id)
  }

  function Partial(p: Phase): seq<Entry>
    requires p.Running?
  {
    if p.k < |p.rows|
    then Block(p.rows[p.k], Orbit(p.rows[p.k].rule, p.rows[p.k].rule.nextRunAt, p.i))
    else []
  }

  /** The row at hand: i occurrences staged, the rest of the loop still to come. */
  ghost predicate AtRow(p: Phase)
    requires p.Running? && p.k < |p.rows|
  {
    var r := p.rows[p.k].rule;
    && p.i <= CAP
    && p.next == Iterate(r, r.nextRunAt, p.i)
    && FullDates(p.rows[p.k], p.asOf)
       == Orbit(r, r.nextRunAt, p.i) + CatchUp(r, p.next, p.asOf, CAP - p.i).dates
    && CatchUp(r, r.nextRunAt, p.asOf, CAP).next == CatchUp(r, p.next, p.asOf, CAP - p.i).next
  }

  ghost predicate UpdatesUpTo(p: Phase)
    requires p.Running? && p.k <= |p.rows|
  {
    && (forall id :: id in p.updates <==> exists j :: 0 <= j < p.k && p.rows[j].id == id)
    && (forall j :: 0 <= j < p.k ==>
          && p.rows[j].id in p.updates
          && var after := AfterRun(p.rows[j].rule, p.asOf);
             p.updates[p.rows[j].id] == Update(after.nextRunAt, after.active))
  }

  ghost predicate RunnerOk(s: State, p: Phase)
    requires p.Running?
  {
    && RowsHeld(s, p.rows, p.asOf)
    && p.k <= |p.rows|
    && p.staged == Blocks(p.rows[..p.k], p.asOf) + Partial(p)
    && (p.k < |p.rows| ==> AtRow(p))
    && UpdatesUpTo(p)
  }

  ghost predicate Tables(s: State) {
    SchedulesOk(s) && ExactlyOnce(s) && NextIsFirstUnposted(s) && NoStrays(s)
  }

  ghost predicate Inv(s: State) {
    && Tables(s)
    && Mutex(s)
    && forall r :: r in s.phases && s.phases[r].Running? ==> RunnerOk(s, s.phases[r])
  }

  // ---- log lemmas ----

  lemma {:induction false} EntriesConcat(a: seq<Entry>, b: seq<Entry>, id: Id, e: nat)
    ensures EntriesOf(a + b, id, e) == EntriesOf(a, id, e) + EntriesOf(b, id, e)
    decreases |b|
  {
    if b == [] {
      assert a + b == a;
    } else {
      assert (a + b)[..|a + b| - 1] == a + b[..|b| - 1];
      EntriesConcat(a, b[..|b| - 1], id, e);
    }
  }

  lemma {:induction false} EntriesOfBlock(row: LockedRow, dates: seq<Day>, id: Id, e: nat)
    ensures EntriesOf(Block(row, dates), id, e)
         == if row.id == id && row.epoch == e then Instances(row.rule, dates) else []
    decreases |dates|
  {
    if dates == [] {
    } else {
      var n := |dates| - 1;
      assert Block(row, dates)[..n] == Block(row, dates[..n]);
      EntriesOfBlock(row, dates[..n], id, e);
      assert Instances(row.rule, dates) == Instances(row.rule, dates[..n]) + [Instantiate(row.rule, dates[n])];
    }
  }

  /** With distinct rows, a row's entries in the whole batch are exactly its own block. */
  lemma {:induction false} EntriesOfBlocks(rows: seq<LockedRow>, asOf: Day, id: Id, e: nat)
    requires forall i, j :: 0 <= i < j < |rows| ==> rows[i].id != rows[j].id
    ensures (forall j :: 0 <= j < |rows| ==> rows[j].id != id || rows[j].epoch != e) ==>
              EntriesOf(Blocks(rows, asOf), id, e) == []
    ensures forall j :: 0 <= j < |rows| && rows[j].id == id && rows[j].epoch == e ==>
              EntriesOf(Blocks(rows, asOf), id, e) == Instances(rows[j].rule, FullDates(rows[j], asOf))
    decreases |rows|
  {
    hide FullDates, Instances, Block, EntriesOf, Blocks;
    if rows == [] {
      NoBlocks(asOf, id, e);
    } else {
      var n := |rows| - 1;
      assert forall j :: 0 <= j < n ==> rows[..n][j] == rows[j];
      EntriesOfBlocks(rows[..n], asOf, id, e);
      BlocksStep(rows, asOf, id, e);
      EntriesOfBlock(rows[n], FullDates(rows[n], asOf), id, e);
      if j :| 0 <= j < n && rows[j].id == id && rows[j].epoch == e {
        assert rows[..n][j].id == id;
      }
    }
  }

  lemma NoBlocks(asOf: Day, id: Id, e: nat)
    ensures EntriesOf(Blocks([], asOf), id, e) == []
  {
    hide FullDates, Block;
  }

  lemma BlocksStep(rows: seq<LockedRow>, asOf: Day, id: Id, e: nat)
    requires rows != []
    ensures var n := |rows| - 1;
            EntriesOf(Blocks(rows, asOf), id, e)
            == EntriesOf(Blocks(rows[..n], asOf), id, e)
             + EntriesOf(Block(rows[n], FullDates(rows[n], asOf)), id, e)
  {
    hide FullDates, Block, EntriesOf;
    var n := |rows| - 1;
    EntriesConcat(Blocks(rows[..n], asOf), Block(rows[n], FullDates(rows[n], asOf)), id, e);
  }

  /** A complete row posts a stretch of its orbit and leaves the schedule at the stretch's end. */
  lemma FullDatesAreOrbit(row: LockedRow, asOf: Day)
    requires ScheduleOk(row.rule) && Due(row.rule, asOf)
    ensures var n := |FullDates(row, asOf)|;
            && FullDates(row, asOf) == Orbit(row.rule, row.rule.nextRunAt, n)
            && AfterRun(row.rule, asOf).nextRunAt == Iterate(row.rule, row.rule.nextRunAt, n)
  {
    hide Advance, CatchUp, Iterate;
    CappedIsPrefix(row.rule, row.rule.nextRunAt, asOf, CAP);
    UncappedIsOrbit(row.rule, row.rule.nextRunAt, asOf);
  }

  // ---- steps of a runner inside its transaction ----

  lemma AtRowStart(p: Phase)
    requires p.Running? && p.k < |p.rows| && p.i == 0 && p.next == p.rows[p.k].rule.nextRunAt
    ensures AtRow(p) && Partial(p) == []
  {
    hide Advance, CatchUp;
  }

  lemma BeginKeepsRunner(s: State, r: Session, asOf: Day, rows: seq<LockedRow>)
    requires Enabled(s, Begin(r, asOf, rows))
    ensures RunnerOk(Do(s, Begin(r, asOf, rows)), Do(s, Begin(r, asOf, rows)).phases[r])
  {
    hide Advance, CatchUp, Due, AtRow, Partial;
    var t := Do(s, Begin(r, asOf, rows));
    var p := t.phases[r];
    forall j | 0 <= j < |rows| ensures t.rules[rows[j].id] == RuleRow(rows[j].rule, false) && Due(rows[j].rule, asOf) {
      assert Plain(rows)[j].id in DueIds(s.rules, asOf);
    }
    assert forall i, j :: 0 <= i < j < |rows| ==> Plain(rows)[i].id != Plain(rows)[j].id;
    PartialAtStart(p);
  }

  lemma PartialAtStart(p: Phase)
    requires p.Running? && p.i == 0 && (p.k < |p.rows| ==> p.next == p.rows[p.k].rule.nextRunAt)
    ensures Partial(p) == [] && (p.k < |p.rows| ==> AtRow(p))
  {
    if p.k < |p.rows| { AtRowStart(p); }
  }

  lemma InsertKeepsRunner(s: State, r: Session)
    requires r in s.phases && s.phases[r].Running? && RunnerOk(s, s.phases[r]) && Enabled(s, Insert(r))
    ensures RunnerOk(Do(s, Insert(r)), Do(s, Insert(r)).phases[r])
  {
    hide Advance, Due, Stopped, ShapeOk, AtRow, Partial, Instantiate, Blocks;
    InsertAdvances(s.phases[r], Do(s, Insert(r)).phases[r]);
  }

  lemma InsertAdvances(p: Phase, q: Phase)
    requires p.Running? && p.k < |p.rows| && AtRow(p) && LoopContinues(p)
    requires var row := p.rows[p.k];
             q == p.(i := p.i + 1, next := Advance(row.rule, p.next),
                     staged := p.staged + [Entry(FromRule(row.id, row.epoch), Instantiate(row.rule, p.next))])
    ensures AtRow(q)
    ensures Partial(q) == Partial(p)
                          + [Entry(FromRule(p.rows[p.k].id, p.rows[p.k].epoch), Instantiate(p.rows[p.k].rule, p.next))]
  {
    hide Advance, CatchUp, Stopped, Iterate;
    var rule := p.rows[p.k].rule;
    OrbitAppend(rule, rule.nextRunAt, p.i);
    CatchUpRound(rule, p.next, p.asOf, CAP - p.i);
  }

  lemma OrbitAppend(r: Rule, from: Day, n: nat)
    ensures Orbit(r, from, n + 1) == Orbit(r, from, n) + [Iterate(r, from, n)]
    ensures Iterate(r, from, n + 1) == Advance(r, Iterate(r, from, n))
  {
    hide Advance;
  }

  lemma UpdateRowKeepsRunner(s: State, r: Session)
    requires r in s.phases && s.phases[r].Running? && RunnerOk(s, s.phases[r]) && Enabled(s, UpdateRow(r))
    ensures RunnerOk(Do(s, UpdateRow(r)), Do(s, UpdateRow(r)).phases[r])
  {
    hide Advance, CatchUp, Due, AfterRun, AtRow, Partial, UpdatesUpTo, FullDates;
    var p := s.phases[r];
    var q := Do(s, UpdateRow(r)).phases[r];
    RowFinished(p);
    assert p.rows[..p.k + 1][..p.k] == p.rows[..p.k];
    PartialAtStart(q);
    UpdatesGrow(p, q);
  }

  lemma RowFinished(p: Phase)
    requires p.Running? && p.k < |p.rows| && AtRow(p) && !LoopContinues(p)
    ensures Partial(p) == Block(p.rows[p.k], FullDates(p.rows[p.k], p.asOf))
    ensures p.next == CatchUp(p.rows[p.k].rule, p.rows[p.k].rule.nextRunAt, p.asOf, CAP).next
  {
    hide Advance, CatchUp, Iterate;
    CatchUpStops(p.rows[p.k].rule, p.next, p.asOf, CAP - p.i);
  }

  lemma UpdatesGrow(p: Phase, q: Phase)
    requires p.Running? && p.k < |p.rows| && UpdatesUpTo(p)
    requires Due(p.rows[p.k].rule, p.asOf)
    requires p.next == CatchUp(p.rows[p.k].rule, p.rows[p.k].rule.nextRunAt, p.asOf, CAP).next
    requires forall i, j :: 0 <= i < j < |p.rows| ==> p.rows[i].id != p.rows[j].id
    requires q.Running? && q.rows == p.rows && q.asOf == p.asOf && q.k == p.k + 1
    requires var rule := p.rows[p.k].rule;
             var active := if Expired(rule, p.next) then false else rule.active;
             q.updates == p.updates[p.rows[p.k].id := Update(p.next, active)]
    ensures UpdatesUpTo(q)
  {
    hide Advance, CatchUp, Due, AfterRun;
    AfterRunFields(p.rows[p.k].rule, p.asOf, p.next);
  }

  // ---- commit ----

  lemma CommitKeepsTables(s: State, r: Session)
    requires r in s.phases && Tables(s) && s.phases[r].Running? && RunnerOk(s, s.phases[r]) && Enabled(s, Commit(r))
    ensures Tables(Do(s, Commit(r)))
  {
    hide ExactlyOnce, NextIsFirstUnposted, NoStrays, RunnerOk, Do;
    CommitKeepsSchedules(s, r);
    CommitKeepsExactlyOnce(s, r);
    CommitKeepsNext(s, r);
    CommitKeepsNoStrays(s, r);
  }

  lemma CommitStages(s: State, r: Session)
    requires r in s.phases && s.phases[r].Running? && RunnerOk(s, s.phases[r]) && Enabled(s, Commit(r))
    ensures var p := s.phases[r]; p.staged == Blocks(p.rows, p.asOf)
    ensures Do(s, Commit(r)).log == s.log + Blocks(s.phases[r].rows, s.phases[r].asOf)
  {
    hide Advance, CatchUp, Due, UpdatesUpTo, RowsHeld;
    var p := s.phases[r];
    assert p.rows[..p.k] == p.rows;
  }

  lemma CommitRule(s: State, r: Session, id: Id)
    requires r in s.phases && s.phases[r].Running? && RunnerOk(s, s.phases[r]) && Enabled(s, Commit(r))
    requires id in s.rules
    ensures var p := s.phases[r];
            var after := Do(s, Commit(r)).rules;
            && after.Keys == s.rules.Keys
            && (forall j :: 0 <= j < |p.rows| && p.rows[j].id == id ==>
                  after[id] == RuleRow(AfterRun(p.rows[j].rule, p.asOf), false))
            && ((forall j :: 0 <= j < |p.rows| ==> p.rows[j].id != id) ==> after[id] == s.rules[id])
  {
    hide Advance, CatchUp, Due, AfterRun, Blocks, Partial, AtRow;
    var p := s.phases[r];
    forall j | 0 <= j < |p.rows| ensures AfterRunIsUpdate(p.rows[j].rule, p.asOf) {
      AfterRunOnlyMoves(p.rows[j].rule, p.asOf);
    }
  }

  ghost predicate AfterRunIsUpdate(r: Rule, asOf: Day) {
    AfterRun(r, asOf) == r.(nextRunAt := AfterRun(r, asOf).nextRunAt, active := AfterRun(r, asOf).active)
  }

  lemma AfterRunOnlyMoves(r: Rule, asOf: Day)
    ensures AfterRunIsUpdate(r, asOf)
  {
    hide Advance, CatchUp;
  }

  lemma CommitKeepsSchedules(s: State, r: Session)
    requires SchedulesOk(s)
    requires r in s.phases && s.phases[r].Running? && RunnerOk(s, s.phases[r]) && Enabled(s, Commit(r))
    ensures SchedulesOk(Do(s, Commit(r)))
  {
    hide RunnerOk, AfterRun, ScheduleOk;
    var t := Do(s, Commit(r));
    assert t.rules.Keys == s.rules.Keys;
  }

  /** Where schedule `sched` stood after n occurrences, a run of its rule adds the next m. */
  lemma ExpectedExtends(sched: Rule, r: Rule, n: nat, m: nat)
    requires SameSchedule(r, sched) && r.nextRunAt == Iterate(sched, sched.nextRunAt, n)
    ensures Expected(sched, n) + Instances(r, Orbit(r, r.nextRunAt, m)) == Expected(sched, n + m)
    ensures Iterate(r, r.nextRunAt, m) == Iterate(sched, sched.nextRunAt, n + m)
  {
    hide Advance, Iterate;
    forall i: nat ensures Iterate(r, r.nextRunAt, i) == Iterate(sched, r.nextRunAt, i) {
      IterateSame(sched, r, r.nextRunAt, i);
    }
    OrbitSplit(sched, sched.nextRunAt, n, m);
    IterateAdd(sched, sched.nextRunAt, n, m);
  }

  /** What a commit adds to one epoch of one rule. */
  lemma CommitEntries(s: State, r: Session, id: Id, e: nat)
    requires r in s.phases && SchedulesOk(s) && NextIsFirstUnposted(s)
    requires s.phases[r].Running? && RunnerOk(s, s.phases[r]) && Enabled(s, Commit(r))
    requires id in s.rules && id in s.schedules && e < |s.schedules[id]|
    requires EntriesOf(s.log, id, e) == Expected(s.schedules[id][e], |EntriesOf(s.log, id, e)|)
    ensures var t := Do(s, Commit(r));
            var n := |EntriesOf(t.log, id, e)|;
            && EntriesOf(t.log, id, e) == Expected(s.schedules[id][e], n)
            && (e + 1 == |s.schedules[id]| ==>
                  && id in t.rules
                  && t.rules[id].rule.nextRunAt == Iterate(s.schedules[id][e], s.schedules[id][e].nextRunAt, n))
  {
    hide *;
    CommitStages(s, r);
    CommitRule(s, r, id);
    CommitFrame(s, r);
    var p := s.phases[r];
    EntriesConcat(s.log, Blocks(p.rows, p.asOf), id, e);
    EntriesOfBlocks(p.rows, p.asOf, id, e);
    if j :| 0 <= j < |p.rows| && p.rows[j].id == id && p.rows[j].epoch == e {
      HeldRow(s, r, j);
      FullDatesAreOrbit(p.rows[j], p.asOf);
      ExpectedExtends(s.schedules[id][e], p.rows[j].rule, |EntriesOf(s.log, id, e)|, |FullDates(p.rows[j], p.asOf)|);
      ExpectedLength(s.schedules[id][e], |EntriesOf(s.log, id, e)| + |FullDates(p.rows[j], p.asOf)|);
    } else {
      assert EntriesOf(Blocks(p.rows, p.asOf), id, e) == [];
      if e + 1 == |s.schedules[id]| { NotHeld(s, r, id, e); }
    }
  }

  lemma ExpectedLength(sched: Rule, n: nat)
    ensures |Expected(sched, n)| == n
  {
    hide Iterate;
  }

  lemma CommitFrame(s: State, r: Session)
    requires Enabled(s, Commit(r))
    ensures Do(s, Commit(r)).schedules == s.schedules
    ensures r in s.phases && s.phases[r].Running? && RunnerOk(s, s.phases[r]) ==>
              forall i, j :: 0 <= i < j < |s.phases[r].rows| ==> s.phases[r].rows[i].id != s.phases[r].rows[j].id
  {
    hide Partial, AtRow, UpdatesUpTo, Blocks;
  }

  lemma HeldRow(s: State, r: Session, j: nat)
    requires r in s.phases && SchedulesOk(s) && NextIsFirstUnposted(s)
    requires s.phases[r].Running? && RunnerOk(s, s.phases[r]) && j < |s.phases[r].rows|
    ensures var row := s.phases[r].rows[j];
            && row.id in s.schedules && row.epoch + 1 == |s.schedules[row.id]|
            && Due(row.rule, s.phases[r].asOf)
            && ScheduleOk(row.rule) && SameSchedule(row.rule, s.schedules[row.id][row.epoch])
            && row.rule.nextRunAt == Iterate(s.schedules[row.id][row.epoch], s.schedules[row.id][row.epoch].nextRunAt,
                                             |EntriesOf(s.log, row.id, row.epoch)|)
  {
    hide Partial, AtRow, UpdatesUpTo, Blocks, Iterate, EntriesOf, Due;
  }

  /** An epoch with no locked row is either past or its rule's row is untouched. */
  lemma NotHeld(s: State, r: Session, id: Id, e: nat)
    requires r in s.phases && SchedulesOk(s) && NextIsFirstUnposted(s) && Enabled(s, Commit(r))
    requires s.phases[r].Running? && RunnerOk(s, s.phases[r])
    requires id in s.schedules && e + 1 == |s.schedules[id]|
    requires forall j :: 0 <= j < |s.phases[r].rows| ==> s.phases[r].rows[j].id != id || s.phases[r].rows[j].epoch != e
    ensures id in s.rules && forall j :: 0 <= j < |s.phases[r].rows| ==> s.phases[r].rows[j].id != id
    ensures var sched := s.schedules[id][e];
            s.rules[id].rule.nextRunAt == Iterate(sched, sched.nextRunAt, |EntriesOf(s.log, id, e)|)
  {
    hide Partial, AtRow, UpdatesUpTo, Blocks, Iterate, EntriesOf, Due, ScheduleOk;
  }

  lemma CommitKeepsExactlyOnce(s: State, r: Session)
    requires r in s.phases && Tables(s) && s.phases[r].Running? && RunnerOk(s, s.phases[r]) && Enabled(s, Commit(r))
    ensures ExactlyOnce(Do(s, Commit(r)))
  {
    hide RunnerOk, EntriesOf, Expected;
    var t := Do(s, Commit(r));
    forall id, e | id in t.schedules && 0 <= e < |t.schedules[id]|
      ensures EntriesOf(t.log, id, e) == Expected(t.schedules[id][e], |EntriesOf(t.log, id, e)|)
    {
      CommitEntries(s, r, id, e);
    }
  }

  lemma CommitKeepsNext(s: State, r: Session)
    requires r in s.phases && Tables(s) && s.phases[r].Running? && RunnerOk(s, s.phases[r]) && Enabled(s, Commit(r))
    requires SchedulesOk(Do(s, Commit(r)))
    ensures NextIsFirstUnposted(Do(s, Commit(r)))
  {
    hide RunnerOk, EntriesOf, Expected, Iterate;
    var t := Do(s, Commit(r));
    forall id | id in t.rules
      ensures StandsAt(t.rules[id].rule, t.schedules[id], t.log, id)
    {
      CommitEntries(s, r, id, |s.schedules[id]| - 1);
    }
  }

  ghost predicate SourceIn(rows: seq<LockedRow>, source: Source) {
    exists k :: 0 <= k < |rows| && source == FromRule(rows[k].id, rows[k].epoch)
  }

  lemma {:induction false} BlocksSources(rows: seq<LockedRow>, asOf: Day)
    ensures forall j :: 0 <= j < |Blocks(rows, asOf)| ==> SourceIn(rows, Blocks(rows, asOf)[j].source)
    decreases |rows|
  {
    hide FullDates;
    if rows == [] {
    } else {
      var n := |rows| - 1;
      BlocksSources(rows[..n], asOf);
      var front := Blocks(rows[..n], asOf);
      forall j | 0 <= j < |Blocks(rows, asOf)| ensures SourceIn(rows, Blocks(rows, asOf)[j].source) {
        if j < |front| {
          var k :| 0 <= k < n && front[j].source == FromRule(rows[..n][k].id, rows[..n][k].epoch);
          assert Blocks(rows, asOf)[j] == front[j] && rows[k] == rows[..n][k];
        } else {
          assert Blocks(rows, asOf)[j].source == FromRule(rows[n].id, rows[n].epoch);
        }
      }
    }
  }

  lemma CommitKeepsNoStrays(s: State, r: Session)
    requires r in s.phases && NoStrays(s) && s.phases[r].Running? && RunnerOk(s, s.phases[r]) && Enabled(s, Commit(r))
    ensures NoStrays(Do(s, Commit(r)))
  {
    hide Advance, CatchUp, Due, Partial, AtRow, UpdatesUpTo, Blocks, Published;
    CommitStages(s, r);
    BlocksSources(s.phases[r].rows, s.phases[r].asOf);
  }

  // ---- users editing rules and transactions beside the runners ----

  lemma {:induction false} NoEntries(log: seq<Entry>, id: Id, e: nat)
    requires forall j :: 0 <= j < |log| ==> log[j].source != FromRule(id, e)
    ensures EntriesOf(log, id, e) == []
    decreases |log|
  {
    if log == [] {
    } else {
      NoEntries(log[..|log| - 1], id, e);
    }
  }

  predicate IsEnvironment(step: Step) {
    step.CreateRule? || step.EditRule? || step.DeleteRule? || step.AddManual?
  }

  lemma ManualKeepsTables(s: State, tx: Tx)
    requires Tables(s) && ShapeOk(tx)
    ensures Tables(Do(s, AddManual(tx)))
  {
    hide Expected, Iterate, ScheduledBy, ShapeOk;
    var t := Do(s, AddManual(tx));
    forall id, e: nat ensures EntriesOf(t.log, id, e) == EntriesOf(s.log, id, e) {
      assert t.log[..|s.log|] == s.log;
    }
  }

  lemma NothingExpectedYet(rule: Rule)
    ensures Expected(rule, 0) == [] && Iterate(rule, rule.nextRunAt, 0) == rule.nextRunAt
  {
  }

  function History(s: State, id: Id): seq<Rule> {
    if id in s.schedules then s.schedules[id] else []
  }

  /** Creating a rule and editing one both start the rule's next epoch. */
  function NewEpoch(s: State, id: Id, rule: Rule): State {
    s.(rules := s.rules[id := RuleRow(rule, false)], schedules := s.schedules[id := History(s, id) + [rule]])
  }

  lemma NewEpochKeepsSchedules(s: State, id: Id, rule: Rule)
    requires SchedulesOk(s) && ScheduleOk(rule)
    ensures SchedulesOk(NewEpoch(s, id, rule))
  {
    hide ScheduleOk;
  }

  lemma NewEpochKeepsExactlyOnce(s: State, id: Id, rule: Rule)
    requires ExactlyOnce(s) && NoStrays(s)
    ensures ExactlyOnce(NewEpoch(s, id, rule))
  {
    hide EntriesOf, Expected;
    NoEntries(s.log, id, |History(s, id)|);
    NothingExpectedYet(rule);
    var t := NewEpoch(s, id, rule);
    forall x, e | x in t.schedules && 0 <= e < |t.schedules[x]|
      ensures EntriesOf(t.log, x, e) == Expected(t.schedules[x][e], |EntriesOf(t.log, x, e)|)
    {
      if x == id && e < |History(s, id)| { assert t.schedules[x][e] == s.schedules[x][e]; }
    }
  }

  lemma NewEpochKeepsNext(s: State, id: Id, rule: Rule)
    requires SchedulesOk(s) && NextIsFirstUnposted(s) && NoStrays(s) && SchedulesOk(NewEpoch(s, id, rule))
    ensures NextIsFirstUnposted(NewEpoch(s, id, rule))
  {
    hide EntriesOf, Iterate, ScheduledBy, ScheduleOk;
    NoEntries(s.log, id, |History(s, id)|);
    NothingExpectedYet(rule);
    assert StandsAt(rule, History(s, id) + [rule], s.log, id);
  }

  lemma NewEpochKeepsTables(s: State, id: Id, rule: Rule)
    requires Tables(s) && ScheduleOk(rule)
    ensures Tables(NewEpoch(s, id, rule))
  {
    hide ExactlyOnce, NextIsFirstUnposted, SchedulesOk, ScheduleOk;
    NewEpochKeepsSchedules(s, id, rule);
    NewEpochKeepsExactlyOnce(s, id, rule);
    NewEpochKeepsNext(s, id, rule);
  }

  lemma RuleWritesStartEpochs(s: State, id: Id, rule: Rule)
    requires SchedulesOk(s)
    ensures Enabled(s, CreateRule(id, rule)) ==> Do(s, CreateRule(id, rule)) == NewEpoch(s, id, rule)
    ensures Enabled(s, EditRule(id, rule)) ==> Do(s, EditRule(id, rule)) == NewEpoch(s, id, rule)
  {
    hide ScheduleOk, RowLocked;
    assert [] + [rule] == [rule];
  }

  lemma DeleteKeepsTables(s: State, id: Id)
    requires Tables(s) && Enabled(s, DeleteRule(id))
    ensures Tables(Do(s, DeleteRule(id)))
  {
    hide ScheduledBy, StandsAt, ScheduleOk, EntriesOf, Expected, RowLocked;
  }

  // ---- all steps, all runs ----

  lemma SameTables(s: State, t: State)
    requires Tables(s) && t.rules == s.rules && t.log == s.log && t.schedules == s.schedules
    ensures Tables(t)
  {
    hide ScheduleOk, EntriesOf, Expected, Iterate;
  }

  /** Only a commit and the users' own steps change what anyone can read. A run that ends in an
      abort or a crash, after however many inserts, leaves no trace. */
  lemma OnlyCommitPublishes(s: State, step: Step)
    requires Enabled(s, step) && !step.Commit? && !IsEnvironment(step)
    ensures var t := Do(s, step); t.rules == s.rules && t.log == s.log && t.schedules == s.schedules
  {
    hide Advance, Selectable, LoopContinues, ShapeOk;
  }

  lemma StepKeepsTables(s: State, step: Step)
    requires Inv(s) && Enabled(s, step)
    ensures Tables(Do(s, step))
  {
    hide Tables, RunnerOk, Do, Mutex;
    match step
    case Commit(r) => CommitIsRunning(s, r); CommitKeepsTables(s, r);
    case CreateRule(id, rule) => TablesOk(s); RuleWritesStartEpochs(s, id, rule); NewEpochKeepsTables(s, id, rule);
    case EditRule(id, rule) => TablesOk(s); RuleWritesStartEpochs(s, id, rule); NewEpochKeepsTables(s, id, rule);
    case DeleteRule(id) => DeleteKeepsTables(s, id);
    case AddManual(tx) => ManualKeepsTables(s, tx);
    case _ => OnlyCommitPublishes(s, step); SameTables(s, Do(s, step));
  }

  lemma TablesOk(s: State)
    requires Tables(s)
    ensures SchedulesOk(s)
  {
  }

  lemma CommitIsRunning(s: State, r: Session)
    requires Enabled(s, Commit(r))
    ensures r in s.phases && s.phases[r].Running?
  {
  }

  /** At most one session is ever between lock and unlock. */
  lemma StepKeepsMutex(s: State, step: Step)
    requires Mutex(s) && Enabled(s, step)
    ensures Mutex(Do(s, step))
  {
    hide Advance, Selectable, LoopContinues, ShapeOk, ScheduleOk, RowLocked;
  }

  /** A user's step never disturbs the rows a runner holds. */
  lemma EnvironmentKeepsRunner(s: State, step: Step, r: Session)
    requires Enabled(s, step) && IsEnvironment(step) && SchedulesOk(s)
    requires r in s.phases && s.phases[r].Running? && RunnerOk(s, s.phases[r])
    ensures Do(s, step).phases == s.phases && RunnerOk(Do(s, step), s.phases[r])
  {
    hide Blocks, Partial, AtRow, UpdatesUpTo, Due, ScheduledBy, ShapeOk, RowLocked, ScheduleOk;
    forall j | 0 <= j < |s.phases[r].rows| ensures RowLocked(s, s.phases[r].rows[j].id) {
      RunningLocksRow(s, r, j);
    }
  }

  lemma RunningLocksRow(s: State, r: Session, j: nat)
    requires r in s.phases && s.phases[r].Running? && j < |s.phases[r].rows|
    ensures RowLocked(s, s.phases[r].rows[j].id)
  {
  }

  lemma StepKeepsRunners(s: State, step: Step, r: Session)
    requires Inv(s) && Enabled(s, step)
    requires r in Do(s, step).phases && Do(s, step).phases[r].Running?
    ensures RunnerOk(Do(s, step), Do(s, step).phases[r])
  {
    hide Tables, RunnerOk, Selectable, LoopContinues, ShapeOk, Advance;
    if IsEnvironment(step) {
      TablesOk(s);
      EnvironmentStep(s, step);
      EnvironmentKeepsRunner(s, step, r);
    } else if step.Begin? {
      BeginKeepsRunner(s, step.r, step.asOf, step.rows);
      OnlyRunner(s, step.r, r);
    } else if step.Insert? {
      InsertKeepsRunner(s, step.r);
      OnlyRunner(s, step.r, r);
    } else if step.UpdateRow? {
      UpdateRowKeepsRunner(s, step.r);
      OnlyRunner(s, step.r, r);
    } else if step.Commit? {
      OnlyRunner(s, step.r, r);
    } else {
      OnlyCommitPublishes(s, step);
      RunnerReadsTables(s, Do(s, step), s.phases[r]);
    }
  }

  lemma EnvironmentStep(s: State, step: Step)
    requires Enabled(s, step) && IsEnvironment(step)
    ensures Do(s, step).phases == s.phases
  {
    hide ShapeOk, ScheduleOk, RowLocked;
  }

  lemma OnlyRunner(s: State, q: Session, r: Session)
    requires Mutex(s) && !PhaseOf(s, q).Idle? && !PhaseOf(s, r).Idle?
    ensures q == r
  {
  }

  lemma RunnerReadsTables(s: State, t: State, p: Phase)
    requires p.Running? && RunnerOk(s, p) && t.rules == s.rules && t.schedules == s.schedules
    ensures RunnerOk(t, p)
  {
    hide Blocks, Partial, AtRow, UpdatesUpTo, Due;
  }

  lemma StepKeepsInv(s: State, step: Step)
    requires Inv(s) && Enabled(s, step)
    ensures Inv(Do(s, step))
  {
    hide Tables, RunnerOk, Do, Enabled, Mutex;
    StepKeepsTables(s, step);
    StepKeepsMutex(s, step);
    forall r | r in Do(s, step).phases && Do(s, step).phases[r].Running?
      ensures RunnerOk(Do(s, step), Do(s, step).phases[r])
    {
      StepKeepsRunners(s, step, r);
    }
  }

  ghost predicate IsRun(states: seq<State>, steps: seq<Step>) {
    && |states| == |steps| + 1
    && Init(states[0])
    && forall i :: 0 <= i < |steps| ==> Enabled(states[i], steps[i]) && states[i + 1] == Do(states[i], steps[i])
  }

  /** Over every interleaving of any number of runners and users, starting from an empty database:
      each epoch of each rule has posted exactly a prefix of its orbit, every date once and none
      skipped, and the stored next_run_at is the first date not yet posted. */
  lemma {:induction false} EveryRunIsExactlyOnce(states: seq<State>, steps: seq<Step>, i: nat)
    requires IsRun(states, steps) && i < |states|
    ensures Inv(states[i])
    decreases i
  {
    hide Enabled, Do, RunnerOk;
    if i == 0 {
    } else {
      EveryRunIsExactlyOnce(states, steps, i - 1);
      StepKeepsInv(states[i - 1], steps[i - 1]);
    }
  }

  /** The orbit never repeats: no run posts one occurrence of an epoch twice. */
  lemma NothingPostedTwice(states: seq<State>, steps: seq<Step>, i: nat, id: Id, e: nat)
    requires IsRun(states, steps) && i < |states|
    requires id in states[i].schedules && e < |states[i].schedules[id]|
    ensures var posted := EntriesOf(states[i].log, id, e);
            forall j, k :: 0 <= j < k < |posted| ==> posted[j].occurredAt < posted[k].occurredAt
  {
    hide Enabled, Do, RunnerOk, Iterate, EntriesOf;
    EveryRunIsExactlyOnce(states, steps, i);
    var sched := states[i].schedules[id][e];
    var posted := EntriesOf(states[i].log, id, e);
    assert ScheduledBy(states[i].rules[id].rule, states[i].schedules[id]);
    forall j, k | 0 <= j < k < |posted| ensures posted[j].occurredAt < posted[k].occurredAt {
      IterateIncreases(sched, sched.nextRunAt, j, k);
    }
  }

  /** What has been posted stays posted, and past epochs keep their schedules. */
  lemma {:induction false} LogOnlyGrows(states: seq<State>, steps: seq<Step>, i: nat, j: nat)
    requires IsRun(states, steps) && i <= j < |states|
    ensures states[i].log <= states[j].log
    decreases j
  {
    hide Inv;
    if i < j {
      LogOnlyGrows(states, steps, i, j - 1);
      StepExtendsLog(states[j - 1], steps[j - 1]);
    }
  }

  lemma StepExtendsLog(s: State, step: Step)
    requires Enabled(s, step)
    ensures s.log <= Do(s, step).log
  {
    hide Advance, Selectable, LoopContinues, ShapeOk, ScheduleOk, RowLocked, Published;
  }

  function TxsOf(log: seq<Entry>): (t: seq<Tx>)
    ensures |t| == |log|
  {
    seq(|log|, i requires 0 <= i < |log| => log[i].tx)
  }

  lemma {:induction false} BlocksAreInserted(rows: seq<LockedRow>, asOf: Day)
    ensures TxsOf(Blocks(rows, asOf)) == Inserted(Plain(rows), asOf)
    decreases |rows|
  {
    hide CatchUp, Instantiate;
    if rows == [] {
    } else {
      var n := |rows| - 1;
      BlocksAreInserted(rows[..n], asOf);
      assert Plain(rows)[..n] == Plain(rows[..n]);
      assert TxsOf(Blocks(rows, asOf))
          == TxsOf(Blocks(rows[..n], asOf)) + TxsOf(Block(rows[n], FullDates(rows[n], asOf)));
      assert TxsOf(Block(rows[n], FullDates(rows[n], asOf))) == Instances(rows[n].rule, FullDates(rows[n], asOf));
    }
  }

  /** A commit publishes in one step exactly what RunDue does alone on the rows it selected:
      the same transactions in the same order, the same new rows, and nothing else. */
  lemma CommitIsOneRun(s: State, r: Session)
    requires Inv(s) && Enabled(s, Commit(r))
    ensures var p := PhaseOf(s, r);
            var t := Do(s, Commit(r));
            && TxsOf(t.log) == TxsOf(s.log) + Inserted(Plain(p.rows), p.asOf)
            && t.rules.Keys == s.rules.Keys
            && (forall j :: 0 <= j < |p.rows| ==>
                  t.rules[p.rows[j].id] == RuleRow(AfterRun(p.rows[j].rule, p.asOf), false))
            && (forall id :: id in s.rules && !Includes(Plain(p.rows), id) ==> t.rules[id] == s.rules[id])
  {
    hide Tables, Blocks, AfterRun, Partial, AtRow, UpdatesUpTo, Inserted, Due;
    CommitIsRunning(s, r);
    CommitStages(s, r);
    var p := s.phases[r];
    BlocksAreInserted(p.rows, p.asOf);
    assert TxsOf(s.log + Blocks(p.rows, p.asOf)) == TxsOf(s.log) + TxsOf(Blocks(p.rows, p.asOf));
    forall j | 0 <= j < |p.rows|
      ensures Do(s, Commit(r)).rules[p.rows[j].id] == RuleRow(AfterRun(p.rows[j].rule, p.asOf), false)
    {
      CommitRule(s, r, p.rows[j].id);
    }
    forall id | id in s.rules && !Includes(Plain(p.rows), id) ensures Do(s, Commit(r)).rules[id] == s.rules[id] {
      forall j | 0 <= j < |p.rows| ensures p.rows[j].id != id { assert Plain(p.rows)[j].id == p.rows[j].id; }
      CommitRule(s, r, id);
    }
  }

  /** Rounds and rows still to go in a transaction. */
  function RowsLeft(p: Phase): int
    requires p.Running?
  {
    |p.rows| - p.k
  }

  /** Exactly one of insert, update and commit is the runner's next statement. */
  ghost predicate OneNextStatement(s: State, r: Session) {
    || (Enabled(s, Insert(r)) && !Enabled(s, UpdateRow(r)) && !Enabled(s, Commit(r)))
    || (!Enabled(s, Insert(r)) && Enabled(s, UpdateRow(r)) && !Enabled(s, Commit(r)))
    || (!Enabled(s, Insert(r)) && !Enabled(s, UpdateRow(r)) && Enabled(s, Commit(r)))
  }

  /** A runner in its transaction always has exactly one next statement (an insert can only be
      refused by the table's checks), and it gets through the batch: rows left, then rounds left, shrink. */
  lemma RunnerIsNeverStuck(s: State, r: Session)
    requires Inv(s) && PhaseOf(s, r).Running?
    requires forall id :: id in s.rules ==> forall d :: ShapeOk(Instantiate(s.rules[id].rule, d))
    ensures OneNextStatement(s, r)
    ensures Enabled(s, Insert(r)) ==>
              var p, q := PhaseOf(s, r), PhaseOf(Do(s, Insert(r)), r);
              q.Running? && RowsLeft(q) == RowsLeft(p) && q.i == p.i + 1 <= CAP
    ensures Enabled(s, UpdateRow(r)) ==>
              var p, q := PhaseOf(s, r), PhaseOf(Do(s, UpdateRow(r)), r);
              q.Running? && 0 <= RowsLeft(q) < RowsLeft(p)
  {
    hide Tables, Blocks, Partial, AtRow, UpdatesUpTo, ShapeOk, Instantiate, Stopped, Due, Advance;
  }
}
