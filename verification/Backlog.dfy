/** What all rules together still owe, and how runs at one date work it off. */
module Backlog {
  import opened Calendar
  import opened Catchup
  import opened Domain
  import opened Recurrence
  import opened Runner

  ghost predicate SchedulesValid(rules: RuleTable) {
    forall id :: id in rules ==> ScheduleOk(rules[id].rule)
  }

  /** Occurrences that one stored row owes at asOf; a deleted rule owes nothing. */
  function OwedBy(row: RuleRow, asOf: Day): nat
    requires ScheduleOk(row.rule)
  {
    if row.deleted then 0 else |Outstanding(row.rule, asOf)|
  }

  /** Occurrences that one run posts for one stored row. */
  function PostedBy(row: RuleRow, asOf: Day): nat {
    if IsDue(row, asOf) then |RunDates(row.rule, asOf)| else 0
  }

  ghost function OwedAmong(rules: RuleTable, ids: set<Id>, asOf: Day): nat
    requires SchedulesValid(rules) && ids <= rules.Keys
  {
    if ids == {} then 0
    else
      var id :| id in ids;
      OwedBy(rules[id], asOf) + OwedAmong(rules, ids - {id}, asOf)
  }

  ghost function PostedAmong(rules: RuleTable, ids: set<Id>, asOf: Day): nat
    requires ids <= rules.Keys
  {
    if ids == {} then 0
    else
      var id :| id in ids;
      PostedBy(rules[id], asOf) + PostedAmong(rules, ids - {id}, asOf)
  }

  /** The whole table's debt. */
  ghost function Owed(rules: RuleTable, asOf: Day): nat
    requires SchedulesValid(rules)
  {
    OwedAmong(rules, rules.Keys, asOf)
  }

  lemma {:induction false} PostedAmongSplit(rules: RuleTable, ids: set<Id>, id: Id, asOf: Day)
    requires ids <= rules.Keys && id in ids
    ensures PostedAmong(rules, ids, asOf) == PostedBy(rules[id], asOf) + PostedAmong(rules, ids - {id}, asOf)
    decreases ids
  {
    hide PostedBy;
    var first :| first in ids
      && PostedAmong(rules, ids, asOf) == PostedBy(rules[first], asOf) + PostedAmong(rules, ids - {first}, asOf);
    if first == id {
    } else {
      PostedAmongSplit(rules, ids - {first}, id, asOf);
      PostedAmongSplit(rules, ids - {id}, first, asOf);
      assert ids - {first} - {id} == ids - {id} - {first};
    }
  }

  // ---- one row ----

  /** A run takes from each row's debt exactly what it posts for it. */
  lemma RowPaysOff(row: RuleRow, asOf: Day)
    requires ScheduleOk(row.rule)
    ensures var after := if IsDue(row, asOf) then RuleRow(AfterRun(row.rule, asOf), false) else row;
            && ScheduleOk(after.rule)
            && OwedBy(row, asOf) == PostedBy(row, asOf) + OwedBy(after, asOf)
    ensures PostedBy(row, asOf) == 0 <==> OwedBy(row, asOf) == 0
  {
    hide Advance, CatchUp, AfterRun, RunDates, Uncapped;
    RunPaysOff(row.rule, asOf);
    RunProgressOrFixpoint(row.rule, asOf);
    NotDueOwesNothing(row.rule, asOf);
  }

  // ---- the table ----

  lemma AfterRunValid(rules: RuleTable, asOf: Day)
    requires SchedulesValid(rules)
    ensures SchedulesValid(AfterRunTable(rules, asOf)) && AfterRunTable(rules, asOf).Keys == rules.Keys
  {
    hide AfterRun, IsDue, ScheduleOk, OwedBy, PostedBy;
    forall id | id in rules ensures ScheduleOk(AfterRunTable(rules, asOf)[id].rule) {
      RowPaysOff(rules[id], asOf);
    }
  }

  lemma {:induction false} AmongPaysOff(rules: RuleTable, ids: set<Id>, asOf: Day)
    requires SchedulesValid(rules) && ids <= rules.Keys
    requires SchedulesValid(AfterRunTable(rules, asOf)) && AfterRunTable(rules, asOf).Keys == rules.Keys
    ensures OwedAmong(rules, ids, asOf)
         == PostedAmong(rules, ids, asOf) + OwedAmong(AfterRunTable(rules, asOf), ids, asOf)
    ensures PostedAmong(rules, ids, asOf) == 0 <==> OwedAmong(rules, ids, asOf) == 0
    ensures OwedAmong(rules, ids, asOf) == 0 <==> forall id :: id in ids ==> OwedBy(rules[id], asOf) == 0
    decreases ids
  {
    hide AfterRun, IsDue, OwedBy, PostedBy, ScheduleOk;
    if ids == {} {
    } else {
      var id :| id in ids
        && OwedAmong(rules, ids, asOf) == OwedBy(rules[id], asOf) + OwedAmong(rules, ids - {id}, asOf);
      AmongPaysOff(rules, ids - {id}, asOf);
      PostedAmongSplit(rules, ids, id, asOf);
      OwedAmongSplit(AfterRunTable(rules, asOf), ids, id, asOf);
      RowPaysOff(rules[id], asOf);
    }
  }

  lemma {:induction false} OwedAmongSplit(rules: RuleTable, ids: set<Id>, id: Id, asOf: Day)
    requires SchedulesValid(rules) && ids <= rules.Keys && id in ids
    ensures OwedAmong(rules, ids, asOf) == OwedBy(rules[id], asOf) + OwedAmong(rules, ids - {id}, asOf)
    decreases ids
  {
    hide OwedBy, ScheduleOk;
    var first :| first in ids
      && OwedAmong(rules, ids, asOf) == OwedBy(rules[first], asOf) + OwedAmong(rules, ids - {first}, asOf);
    if first == id {
    } else {
      OwedAmongSplit(rules, ids - {first}, id, asOf);
      OwedAmongSplit(rules, ids - {id}, first, asOf);
      assert ids - {first} - {id} == ids - {id} - {first};
    }
  }

  // ---- the count that RunDue returns ----

  function Ids(due: seq<DueRow>): set<Id> {
    set k | 0 <= k < |due| :: due[k].id
  }

  lemma InsertedLast(due: seq<DueRow>, asOf: Day)
    requires due != []
    ensures var last := due[|due| - 1].rule;
            |Inserted(due, asOf)|
            == |Inserted(due[..|due| - 1], asOf)| + |CatchUp(last, last.nextRunAt, asOf, CAP).dates|
  {
    hide CatchUp;
  }

  lemma {:induction false} InsertedCount(rules: RuleTable, due: seq<DueRow>, asOf: Day)
    requires forall k :: 0 <= k < |due| ==> due[k].id in DueIds(rules, asOf) && due[k].rule == rules[due[k].id].rule
    requires forall j, k :: 0 <= j < k < |due| ==> due[j].id != due[k].id
    ensures Ids(due) <= rules.Keys
    ensures |Inserted(due, asOf)| == PostedAmong(rules, Ids(due), asOf)
    decreases |due|
  {
    hide CatchUp, Inserted, Due;
    if due == [] {
      NothingInserted(asOf);
      assert Ids(due) == {};
    } else {
      var n := |due| - 1;
      var front := due[..n];
      assert forall k :: 0 <= k < n ==> front[k] == due[k];
      InsertedCount(rules, front, asOf);
      InsertedLast(due, asOf);
      IdsLast(due);
      PostedAmongSplit(rules, Ids(due), due[n].id, asOf);
      DuePosts(rules[due[n].id], asOf);
    }
  }

  lemma NothingInserted(asOf: Day)
    ensures |Inserted([], asOf)| == 0
  {
  }

  lemma IdsLast(due: seq<DueRow>)
    requires due != [] && forall j, k :: 0 <= j < k < |due| ==> due[j].id != due[k].id
    ensures due[|due| - 1].id in Ids(due) && Ids(due) - {due[|due| - 1].id} == Ids(due[..|due| - 1])
  {
    var n := |due| - 1;
    assert forall k :: 0 <= k < n ==> due[..n][k] == due[k];
    forall id | id in Ids(due) - {due[n].id} ensures id in Ids(due[..n]) {
      var k :| 0 <= k < |due| && due[k].id == id;
      assert due[..n][k].id == id;
    }
  }

  lemma DuePosts(row: RuleRow, asOf: Day)
    requires IsDue(row, asOf)
    ensures PostedBy(row, asOf) == |CatchUp(row.rule, row.rule.nextRunAt, asOf, CAP).dates|
  {
    hide CatchUp;
  }

  /** Rows that are not due post nothing. */
  lemma {:induction false} OnlyDuePost(rules: RuleTable, ids: set<Id>, due: set<Id>, asOf: Day)
    requires due <= ids <= rules.Keys && forall id :: id in ids && IsDue(rules[id], asOf) ==> id in due
    ensures PostedAmong(rules, ids, asOf) == PostedAmong(rules, due, asOf)
    decreases ids - due
  {
    hide RunDates, Due;
    if ids == due {
    } else {
      assert ids == due + (ids - due);
      assert ids - due != {};
      var id :| id in ids - due;
      PostedAmongSplit(rules, ids, id, asOf);
      OnlyDuePost(rules, ids - {id}, due, asOf);
    }
  }

  /** One committed run on the rows it selected: what was owed is what it posted and what is owed after it. So a
      run that returns a positive count lowers the debt by that count, and it returns 0 if and only if no live
      rule owes anything. */
  lemma RunLowersDebt(rules: RuleTable, due: seq<DueRow>, asOf: Day)
    requires SchedulesValid(rules) && Selection(rules, due, asOf)
    ensures SchedulesValid(AfterRunTable(rules, asOf))
    ensures Owed(rules, asOf) == |Inserted(due, asOf)| + Owed(AfterRunTable(rules, asOf), asOf)
    ensures |Inserted(due, asOf)| == 0 <==> Owed(rules, asOf) == 0
    ensures Owed(rules, asOf) == 0 <==> forall id :: id in rules ==> OwedBy(rules[id], asOf) == 0
  {
    hide AfterRunTable, Inserted, IsDue, OwedBy, PostedBy, SchedulesValid, OwedAmong, PostedAmong;
    AfterRunValid(rules, asOf);
    AmongPaysOff(rules, rules.Keys, asOf);
    SelectionIds(rules, due, asOf);
    InsertedCount(rules, due, asOf);
    OnlyDuePost(rules, rules.Keys, Ids(due), asOf);
  }

  lemma SelectionIds(rules: RuleTable, due: seq<DueRow>, asOf: Day)
    requires Selection(rules, due, asOf)
    ensures Ids(due) <= rules.Keys && forall id :: id in rules && IsDue(rules[id], asOf) ==> id in Ids(due)
  {
    hide IsDue;
    forall id | id in rules && IsDue(rules[id], asOf) ensures id in Ids(due) {
      assert Includes(due, id);
    }
  }

  /** If no live rule owes more than 120, one run posts the whole debt. */
  lemma OneRunPostsAll(rules: RuleTable, due: seq<DueRow>, asOf: Day)
    requires SchedulesValid(rules) && Selection(rules, due, asOf)
    requires forall id :: id in rules ==> OwedBy(rules[id], asOf) <= 120
    ensures SchedulesValid(AfterRunTable(rules, asOf)) && Owed(AfterRunTable(rules, asOf), asOf) == 0
    ensures |Inserted(due, asOf)| == Owed(rules, asOf)
  {
    hide Outstanding, Inserted, Selection, AfterRun, IsDue, ScheduleOk, OwedAmong;
    RunLowersDebt(rules, due, asOf);
    OneRunClears(rules, asOf);
    var after := AfterRunTable(rules, asOf);
    forall id | id in after ensures OwedBy(after[id], asOf) == 0 {}
    OwedIsZeroIff(after, asOf);
  }

  lemma OwedIsZeroIff(rules: RuleTable, asOf: Day)
    requires SchedulesValid(rules)
    ensures Owed(rules, asOf) == 0 <==> forall id :: id in rules ==> OwedBy(rules[id], asOf) == 0
  {
    hide AfterRunTable, Inserted, IsDue, OwedBy, PostedBy, SchedulesValid, OwedAmong, PostedAmong;
    AfterRunValid(rules, asOf);
    AmongPaysOff(rules, rules.Keys, asOf);
  }

  // ---- finitely many runs ----

  /** n committed runs at one date. */
  function TableAfter(rules: RuleTable, asOf: Day, n: nat): RuleTable
    decreases n
  {
    if n == 0 then rules else TableAfter(AfterRunTable(rules, asOf), asOf, n - 1)
  }

  /** The rows a run would select exist in some order. */
  lemma {:induction false} SomeSelection(rules: RuleTable, ids: set<Id>, asOf: Day) returns (due: seq<DueRow>)
    requires ids <= DueIds(rules, asOf)
    ensures forall k :: 0 <= k < |due| ==> due[k].id in ids && due[k].rule == rules[due[k].id].rule
    ensures forall j, k :: 0 <= j < k < |due| ==> due[j].id != due[k].id
    ensures forall id :: id in ids ==> Includes(due, id)
    decreases ids
  {
    hide IsDue;
    if ids == {} {
      due := [];
    } else {
      var id :| id in ids;
      var front := SomeSelection(rules, ids - {id}, asOf);
      due := front + [DueRow(id, rules[id].rule)];
      assert due[|front|].id == id;
      forall x | x in ids ensures Includes(due, x) {
        if x != id {
          assert Includes(front, x);
          var k :| 0 <= k < |front| && front[k].id == x;
          assert due[k].id == x;
        }
      }
    }
  }

  /** As many runs as occurrences are owed are always enough: then no rule owes anything at that date, and every
      further run posts nothing. */
  lemma {:induction false} RunsReachFixpoint(rules: RuleTable, asOf: Day, n: nat)
    requires SchedulesValid(rules) && n >= Owed(rules, asOf)
    ensures SchedulesValid(TableAfter(rules, asOf, n)) && Owed(TableAfter(rules, asOf, n), asOf) == 0
    decreases n
  {
    hide AfterRunTable, SchedulesValid, Owed, Selection, Inserted;
    if n == 0 {
    } else {
      var due := SomeSelection(rules, DueIds(rules, asOf), asOf);
      AllSelected(rules, due, asOf);
      RunLowersDebt(rules, due, asOf);
      RunsReachFixpoint(AfterRunTable(rules, asOf), asOf, n - 1);
    }
  }

  lemma AllSelected(rules: RuleTable, due: seq<DueRow>, asOf: Day)
    requires forall k :: 0 <= k < |due| ==> due[k].id in DueIds(rules, asOf) && due[k].rule == rules[due[k].id].rule
    requires forall j, k :: 0 <= j < k < |due| ==> due[j].id != due[k].id
    requires forall id :: id in DueIds(rules, asOf) ==> Includes(due, id)
    ensures Selection(rules, due, asOf)
  {
    hide IsDue, Includes;
  }
}
