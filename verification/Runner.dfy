/** The recurring_rules table and RunDue as one runner executes it. */
module Runner {
  import opened Calendar
  import opened Domain
  import opened Recurrence
  import opened Catchup

  datatype RuleRow = RuleRow(rule: Rule, deleted: bool)

  type RuleTable = map<Id, RuleRow>

  /** A row as the SELECT ... FOR UPDATE copied it. */
  datatype DueRow = DueRow(id: Id, rule: Rule)

  predicate IsDue(row: RuleRow, asOf: Day) {
    !row.deleted && Due(row.rule, asOf)
  }

  function DueIds(rules: RuleTable, asOf: Day): set<Id> {
    set id | id in rules && IsDue(rules[id], asOf)
  }

  ghost predicate Includes(due: seq<DueRow>, id: Id) {
    exists k :: 0 <= k < |due| && due[k].id == id
  }

  /** The query result: every due row once, in whatever order the database returns them. */
  ghost predicate Selection(rules: RuleTable, due: seq<DueRow>, asOf: Day) {
    && (forall k :: 0 <= k < |due| ==> due[k].id in DueIds(rules, asOf) && due[k].rule == rules[due[k].id].rule)
    && (forall j, k :: 0 <= j < k < |due| ==> due[j].id != due[k].id)
    && (forall id :: id in DueIds(rules, asOf) ==> Includes(due, id))
  }

  /** One rule's transactions at the given dates. */
  function Instances(r: Rule, dates: seq<Day>): (s: seq<Tx>)
    ensures |s| == |dates|
  {
    seq(|dates|, i requires 0 <= i < |dates| => Instantiate(r, dates[i]))
  }

  /** All transactions one run inserts, rule after rule. */
  function Inserted(due: seq<DueRow>, asOf: Day): seq<Tx>
    decreases |due|
  {
    if due == [] then []
    else
      var last := due[|due| - 1];
      Inserted(due[..|due| - 1], asOf)
      + Instances(last.rule, CatchUp(last.rule, last.rule.nextRunAt, asOf, CAP).dates)
  }

  /** The rule table after one run. */
  function AfterRunTable(rules: RuleTable, asOf: Day): RuleTable {
    map id | id in rules ::
      if IsDue(rules[id], asOf) then RuleRow(AfterRun(rules[id].rule, asOf), false) else rules[id]
  }

  /** One round of the catch-up loop. */
  lemma CatchUpRound(r: Rule, next: Day, asOf: Day, cap: nat)
    requires cap > 0 && !Stopped(r, next, asOf)
    ensures CatchUp(r, next, asOf, cap).dates == [next] + CatchUp(r, Advance(r, next), asOf, cap - 1).dates
    ensures CatchUp(r, next, asOf, cap).next == CatchUp(r, Advance(r, next), asOf, cap - 1).next
  {
    hide Advance;
  }

  lemma AfterRunFields(r: Rule, asOf: Day, next: Day)
    requires Due(r, asOf) && next == CatchUp(r, r.nextRunAt, asOf, CAP).next
    ensures AfterRun(r, asOf)
         == r.(nextRunAt := next, active := if r.endAt.Some? && next > r.endAt.value then false else r.active)
  {
    hide Advance, CatchUp;
  }

  lemma CatchUpStops(r: Rule, next: Day, asOf: Day, cap: nat)
    requires cap == 0 || Stopped(r, next, asOf)
    ensures CatchUp(r, next, asOf, cap) == Progress([], next)
  {
    hide Advance;
  }

  lemma InstancesAppend(r: Rule, dates: seq<Day>, d: Day)
    ensures Instances(r, dates + [d]) == Instances(r, dates) + [Instantiate(r, d)]
  {
  }

  /** Every statement a run executes satisfies the transactions table's checks. */
  ghost predicate RowsInsertable(rules: RuleTable) {
    forall id :: id in rules ==> forall d :: ShapeOk(Instantiate(rules[id].rule, d))
  }

  /** No live rule owes more than 120 occurrences. */
  ghost predicate NoneOwesMoreThan120(rules: RuleTable, asOf: Day) {
    forall id :: id in rules ==>
      ScheduleOk(rules[id].rule) && (!rules[id].deleted ==> |Outstanding(rules[id].rule, asOf)| <= 120)
  }

  ghost predicate NothingOwed(rules: RuleTable, asOf: Day) {
    forall id :: id in rules ==>
      ScheduleOk(rules[id].rule) && (!rules[id].deleted ==> Outstanding(rules[id].rule, asOf) == [])
  }

  /** Then one run clears the table. */
  lemma OneRunClears(rules: RuleTable, asOf: Day)
    requires NoneOwesMoreThan120(rules, asOf)
    ensures NothingOwed(AfterRunTable(rules, asOf), asOf)
  {
    hide AfterRun, RunDates, Uncapped, ScheduleOk;
    forall id | id in rules
      ensures ScheduleOk(AfterRunTable(rules, asOf)[id].rule)
      ensures !rules[id].deleted ==> Outstanding(AfterRunTable(rules, asOf)[id].rule, asOf) == []
    {
      OneRunPosts120(rules[id].rule, asOf);
      NotDueOwesNothing(rules[id].rule, asOf);
    }
  }

  lemma NotDueOwesNothing(r: Rule, asOf: Day)
    requires ScheduleOk(r)
    ensures !Due(r, asOf) ==> Outstanding(r, asOf) == []
  {
    hide Advance;
  }

  lemma FirstHundredTwenty(r: Rule, asOf: Day)
    requires ScheduleOk(r)
    ensures var owed := Uncapped(r, r.nextRunAt, asOf);
            CatchUp(r, r.nextRunAt, asOf, CAP).dates == if |owed| <= 120 then owed else owed[..120]
  {
    hide Advance, CatchUp, Uncapped, Iterate;
    CappedIsPrefix(r, r.nextRunAt, asOf, CAP);
  }

  class RecurringRepo {
    var rules: RuleTable
    var transactions: seq<Tx>
    /** True while some other session holds the advisory lock. */
    var locked: bool

    constructor ()
      ensures rules == map[] && transactions == [] && !locked
    {
      rules, transactions, locked := map[], [], false;
    }

    method SelectDue(asOf: Day) returns (due: seq<DueRow>)
      ensures Selection(rules, due, asOf)
    {
      hide Due;
      due := [];
      var todo := DueIds(rules, asOf);
      while todo != {}
        invariant todo <= DueIds(rules, asOf)
        invariant forall k :: 0 <= k < |due| ==>
          due[k].id in DueIds(rules, asOf) - todo && due[k].rule == rules[due[k].id].rule
        invariant forall j, k :: 0 <= j < k < |due| ==> due[j].id != due[k].id
        invariant forall id :: id in DueIds(rules, asOf) ==> id in todo || Includes(due, id)
        decreases todo
      {
        var id :| id in todo;
        ghost var before := due;
        due := due + [DueRow(id, rules[id].rule)];
        todo := todo - {id};
        assert due[|before|].id == id;
        forall x | Includes(before, x) ensures Includes(due, x) {
          var k :| 0 <= k < |before| && before[k].id == x;
          assert due[k].id == x;
        }
      }
    }

    /** The inner loop: posts one rule's occurrences into the open transaction. `failAt` is the
        number of the statement on which the database reports an error, if it ever does. */
    static method CatchUpRule(rule: Rule, asOf: Day, txs: seq<Tx>, stmt: nat, failAt: Option<nat>)
      returns (ok: bool, txs': seq<Tx>, stmt': nat, next: Day)
      ensures ok ==> var p := CatchUp(rule, rule.nextRunAt, asOf, CAP);
                     txs' == txs + Instances(rule, p.dates) && next == p.next
      ensures ok && ScheduleOk(rule) ==>
                var owed := Uncapped(rule, rule.nextRunAt, asOf);
                txs' == txs + Instances(rule, if |owed| <= 120 then owed else owed[..120])
      ensures stmt' >= stmt
      ensures !ok ==> failAt.Some? || exists d :: !ShapeOk(Instantiate(rule, d))
    {
      hide Advance, CatchUp, Instances, Uncapped, ScheduleOk;
      next, txs', stmt', ok := rule.nextRunAt, txs, stmt, true;
      ghost var dates := [];
      var i := 0;
      while i < 120 && !(next > asOf)
        invariant 0 <= i <= CAP && stmt' >= stmt
        invariant txs' == txs + Instances(rule, dates)
        invariant CatchUp(rule, rule.nextRunAt, asOf, CAP).dates == dates + CatchUp(rule, next, asOf, CAP - i).dates
        invariant CatchUp(rule, rule.nextRunAt, asOf, CAP).next == CatchUp(rule, next, asOf, CAP - i).next
        decreases CAP - i
      {
        if rule.endAt.Some? && next > rule.endAt.value { break; }
        var t := Instantiate(rule, next);
        if failAt == Some(stmt') || !ShapeOk(t) { return false, txs', stmt', next; }
        CatchUpRound(rule, next, asOf, CAP - i);
        InstancesAppend(rule, dates, next);
        txs', stmt' := txs' + [t], stmt' + 1;
        dates := dates + [next];
        next := Advance(rule, next);
        i := i + 1;
      }
      CatchUpStops(rule, next, asOf, CAP - i);
      assert dates == CatchUp(rule, rule.nextRunAt, asOf, CAP).dates;
      if ScheduleOk(rule) { FirstHundredTwenty(rule, asOf); }
    }

    /** The outer loop over the due rows, still inside the open transaction. */
    static method CatchUpAll(rules: RuleTable, txs: seq<Tx>, rows: seq<DueRow>, asOf: Day, failAt: Option<nat>)
      returns (ok: bool, staged: RuleTable, txs': seq<Tx>, stmt: nat)
      requires Selection(rules, rows, asOf)
      ensures ok ==> txs' == txs + Inserted(rows, asOf) && Staged(rules, staged, rows, |rows|, asOf)
      ensures !ok ==> failAt.Some? || !RowsInsertable(rules)
    {
      hide Advance, CatchUp, AfterRun, Instances, Staged, ShapeOk, Instantiate;
      staged, txs', stmt, ok := rules, txs, 0, true;
      StagedInitially(rules, rows, asOf);
      var k := 0;
      while k < |rows|
        invariant 0 <= k <= |rows|
        invariant txs' == txs + Inserted(rows[..k], asOf)
        invariant Staged(rules, staged, rows, k, asOf)
      {
        var rule := rows[k].rule;
        var posted, next;
        posted, txs', stmt, next := CatchUpRule(rule, asOf, txs', stmt, failAt);
        var active := rule.active;
        if rule.endAt.Some? && next > rule.endAt.value { active := false; }
        if !posted || failAt == Some(stmt) {
          ok := false;
          return;
        }
        stmt := stmt + 1;
        StagedStep(rules, staged, rows, k, asOf, next);
        staged := staged[rows[k].id := RuleRow(rule.(nextRunAt := next, active := active), false)];
        assert rows[..k + 1][..k] == rows[..k];
        k := k + 1;
      }
      assert rows[..k] == rows;
    }

    /** Posts every due rule and advances its schedule, all or nothing. */
    method RunDue(asOf: Day, failAt: Option<nat>) returns (res: Result<nat>, ghost due: seq<DueRow>)
      modifies this
      ensures locked == old(locked)
      ensures old(locked) ==> res == Ok(0)
      ensures old(locked) || res.Err? ==> rules == old(rules) && transactions == old(transactions)
      ensures !old(locked) && res.Ok? ==>
                && Selection(old(rules), due, asOf)
                && transactions == old(transactions) + Inserted(due, asOf)
                && rules == AfterRunTable(old(rules), asOf)
                && res.value == |Inserted(due, asOf)|
      ensures !old(locked) && res.Ok? && NoneOwesMoreThan120(old(rules), asOf) ==> NothingOwed(rules, asOf)
      ensures failAt.None? && RowsInsertable(old(rules)) ==> res.Ok?
    {
      hide Selection, Inserted, Staged, AfterRunTable, RowsInsertable, NoneOwesMoreThan120, NothingOwed;
      due := [];
      if locked { return Ok(0), due; }
      locked := true;
      var rows := SelectDue(asOf);
      due := rows;
      // The open transaction works on copies; only the commit makes them visible.
      var ok, staged, txs, stmt := CatchUpAll(rules, transactions, rows, asOf, failAt);
      if !ok || failAt == Some(stmt) {
        locked := false;
        return Err(Database), due;
      }
      SelectionDecides(rules, rows, asOf, staged);
      if NoneOwesMoreThan120(rules, asOf) { OneRunClears(rules, asOf); }
      res := Ok(|txs| - |transactions|);
      rules, transactions := staged, txs;
      locked := false;
    }
  }

  /** The open transaction's copy after the first k due rows. */
  ghost predicate Staged(rules: RuleTable, staged: RuleTable, rows: seq<DueRow>, k: nat, asOf: Day)
    requires k <= |rows|
  {
    && staged.Keys == rules.Keys
    && forall id :: id in rules ==>
         staged[id] == if Includes(rows[..k], id) then RuleRow(AfterRun(rules[id].rule, asOf), false) else rules[id]
  }

  lemma StagedInitially(rules: RuleTable, rows: seq<DueRow>, asOf: Day)
    ensures Staged(rules, rules, rows, 0, asOf)
  {
  }

  lemma StagedStep(rules: RuleTable, staged: RuleTable, rows: seq<DueRow>, k: nat, asOf: Day, next: Day)
    requires k < |rows| && Selection(rules, rows, asOf) && Staged(rules, staged, rows, k, asOf)
    requires next == CatchUp(rows[k].rule, rows[k].rule.nextRunAt, asOf, CAP).next
    ensures var r := rows[k].rule;
            var active := if r.endAt.Some? && next > r.endAt.value then false else r.active;
            var row := RuleRow(r.(nextRunAt := next, active := active), false);
            Staged(rules, staged[rows[k].id := row], rows, k + 1, asOf)
  {
    hide Advance, CatchUp, AfterRun;
    AfterRunFields(rows[k].rule, asOf, next);
    forall id ensures Includes(rows[..k + 1], id) <==> Includes(rows[..k], id) || id == rows[k].id {
      if Includes(rows[..k], id) {
        var j :| 0 <= j < k && rows[j].id == id;
        assert rows[..k + 1][j].id == id;
      }
      assert rows[..k + 1][k].id == rows[k].id;
    }
  }

  lemma SelectionDecides(rules: RuleTable, rows: seq<DueRow>, asOf: Day, staged: RuleTable)
    requires Selection(rules, rows, asOf) && Staged(rules, staged, rows, |rows|, asOf)
    ensures staged == AfterRunTable(rules, asOf)
  {
    hide AfterRun, Due;
    assert rows[..|rows|] == rows;
    forall id | id in rules ensures Includes(rows, id) <==> IsDue(rules[id], asOf) {
      if IsDue(rules[id], asOf) { assert id in DueIds(rules, asOf); }
    }
  }
}
