/** Accepting a rule from its form, and what the accepted rules' runs do to the ledger. */
module RuleService {
  import opened Calendar
  import opened Domain
  import opened Text
  import opened Recurrence
  import opened Catchup
  import opened Runner
  import opened Ledger

  datatype RuleInput = RuleInput(
    name: string,
    kind: string,
    amount: int,
    accountId: string,
    toAccountId: string,
    categoryId: string,
    note: string,
    freq: string,
    interval: int,
    dayOfMonth: int,
    nextRunAt: Day,
    endAt: Option<Day>,
    active: bool)

  function ParseKind(s: string): Option<Kind> {
    if s == "income" then Some(Income)
    else if s == "expense" then Some(Expense)
    else if s == "transfer" then Some(Transfer)
    else None
  }

  function ParseFreq(s: string): Freq {
    if s == "daily" then Daily
    else if s == "weekly" then Weekly
    else if s == "monthly" then Monthly
    else OtherFreq
  }

  function ToDomain(input: RuleInput): Result<Rule> {
    if TrimSpace(input.name) == "" then Err(Invalid)
    else if ParseKind(input.kind).None? then Err(Invalid)
    else if ParseFreq(input.freq) == OtherFreq then Err(Invalid)
    else if input.amount <= 0 then Err(Invalid)
    else if input.accountId == "" then Err(Invalid)
    else if input.nextRunAt == ZERO_DAY then Err(Invalid)
    else
      var kind, freq := ParseKind(input.kind).value, ParseFreq(input.freq);
      if kind == Transfer && (input.toAccountId == "" || input.toAccountId == input.accountId) then Err(Invalid)
      else Ok(Rule(
        TrimSpace(input.name), kind, input.amount, input.accountId,
        if kind == Transfer then Some(input.toAccountId) else None,
        if kind != Transfer && input.categoryId != "" then Some(input.categoryId) else None,
        TrimSpace(input.note), freq, if input.interval < 1 then 1 else input.interval,
        if freq == Monthly && 1 <= input.dayOfMonth <= 31 then Some(input.dayOfMonth) else None,
        input.nextRunAt, input.endAt, input.active))
  }

  /** Exactly which inputs are accepted, and every field of the rule they become. */
  lemma RuleAcceptedIff(input: RuleInput)
    ensures ToDomain(input).Ok? <==>
            && TrimSpace(input.name) != ""
            && (input.kind == "income" || input.kind == "expense" || input.kind == "transfer")
            && (input.freq == "daily" || input.freq == "weekly" || input.freq == "monthly")
            && input.amount > 0 && input.accountId != "" && input.nextRunAt != ZERO_DAY
            && (input.kind == "transfer" ==> input.toAccountId != "" && input.toAccountId != input.accountId)
    ensures ToDomain(input).Ok? ==>
              var r := ToDomain(input).value;
              && r.name == TrimSpace(input.name) && r.note == TrimSpace(input.note)
              && (r.kind == Income <==> input.kind == "income") && (r.kind == Expense <==> input.kind == "expense")
              && (r.freq == Daily <==> input.freq == "daily") && (r.freq == Weekly <==> input.freq == "weekly")
              && (r.freq == Monthly <==> input.freq == "monthly")
              && r.amount == input.amount && r.account == input.accountId && r.nextRunAt == input.nextRunAt
              && r.endAt == input.endAt && r.active == input.active
              && r.interval >= 1 && (input.interval >= 1 ==> r.interval == input.interval)
              && (input.interval < 1 ==> r.interval == 1)
              && r.toAccount == (if input.kind == "transfer" then Some(input.toAccountId) else None)
              && (r.category.Some? <==> input.kind != "transfer" && input.categoryId != "")
              && (r.category.Some? ==> r.category.value == input.categoryId)
              && (r.dayOfMonth.Some? <==> input.freq == "monthly" && 1 <= input.dayOfMonth <= 31)
              && (r.dayOfMonth.Some? ==> r.dayOfMonth.value == input.dayOfMonth)
  {
    hide TrimSpace;
  }

  /** An accepted rule keeps the table's checks at every date it will ever run, and its
      schedule makes progress. */
  lemma AcceptedRulesNeverAbort(input: RuleInput)
    requires ToDomain(input).Ok?
    ensures var r := ToDomain(input).value;
            && ScheduleOk(r) && r.interval >= 1
            && r.nextRunAt == input.nextRunAt && r.endAt == input.endAt && r.active == input.active
            && forall d :: ShapeOk(Instantiate(r, d))
  {
  }

  /** Running a rule changes only its position and its active flag, so it stays insertable. */
  lemma RunsKeepRowsInsertable(rules: RuleTable, asOf: Day)
    requires RowsInsertable(rules)
    ensures RowsInsertable(AfterRunTable(rules, asOf))
  {
    hide CatchUp, Advance, ShapeOk;
    var after := AfterRunTable(rules, asOf);
    forall id | id in after ensures forall d :: ShapeOk(Instantiate(after[id].rule, d)) {
      forall d ensures ShapeOk(Instantiate(after[id].rule, d)) {
        assert Instantiate(after[id].rule, d) == Instantiate(rules[id].rule, d);
      }
    }
  }

  // ---- the ledger after a run ----

  /** The table after some inserts, with whatever ids the database chose. */
  function WithInserted(txns: seq<TxRow>, txs: seq<Tx>, ids: seq<Id>): seq<TxRow>
    requires |ids| == |txs|
  {
    if txs == [] then txns
    else
      var n := |txs| - 1;
      WithInserted(txns, txs[..n], ids[..n]) + [TxRow(ids[n], txs[n], false)]
  }

  function SumContribution(txs: seq<Tx>, live: set<Id>): int {
    if txs == [] then 0 else SumContribution(txs[..|txs| - 1], live) + Contribution(txs[|txs| - 1], live)
  }

  lemma {:induction false} InsertsMoveTotal(accounts: seq<AccountRow>, txns: seq<TxRow>, txs: seq<Tx>, ids: seq<Id>)
    requires |ids| == |txs| && UniqueAccounts(accounts) && RowsShaped(txns)
    requires forall i :: 0 <= i < |txs| ==> ShapeOk(txs[i])
    ensures RowsShaped(WithInserted(txns, txs, ids))
    ensures TotalBalance(accounts, WithInserted(txns, txs, ids))
         == TotalBalance(accounts, txns) + SumContribution(txs, LiveIds(accounts))
    decreases |txs|
  {
    hide ShapeOk, TotalBalance, Contribution;
    if txs == [] {
    } else {
      var n := |txs| - 1;
      InsertsMoveTotal(accounts, txns, txs[..n], ids[..n]);
      var row := TxRow(ids[n], txs[n], false);
      TotalAddsRow(accounts, WithInserted(txns, txs[..n], ids[..n]), row);
      SpreadIsContribution(accounts, row);
    }
  }

  lemma {:induction false} SumContributionConcat(a: seq<Tx>, b: seq<Tx>, live: set<Id>)
    ensures SumContribution(a + b, live) == SumContribution(a, live) + SumContribution(b, live)
    decreases |b|
  {
    if b == [] {
      assert a + b == a;
    } else {
      assert (a + b)[..|a + b| - 1] == a + b[..|b| - 1];
      SumContributionConcat(a, b[..|b| - 1], live);
    }
  }

  /** What one occurrence of a rule is worth to the accounts in `live`. */
  function RuleWorth(r: Rule, live: set<Id>): int {
    Contribution(Instantiate(r, r.nextRunAt), live)
  }

  lemma {:induction false} InstancesWorth(r: Rule, dates: seq<Day>, live: set<Id>)
    ensures SumContribution(Instances(r, dates), live) == |dates| * RuleWorth(r, live)
    decreases |dates|
  {
    if dates == [] {
    } else {
      var n := |dates| - 1;
      InstancesWorth(r, dates[..n], live);
      assert Instances(r, dates)[..n] == Instances(r, dates[..n]);
      assert Contribution(Instantiate(r, dates[n]), live) == RuleWorth(r, live);
      assert n * RuleWorth(r, live) + RuleWorth(r, live) == (n + 1) * RuleWorth(r, live);
    }
  }

  /** The sum over the due rules of occurrences posted times worth of one occurrence. */
  function RunWorth(due: seq<DueRow>, asOf: Day, live: set<Id>): int {
    if due == [] then 0
    else
      var last := due[|due| - 1].rule;
      RunWorth(due[..|due| - 1], asOf, live)
      + |CatchUp(last, last.nextRunAt, asOf, CAP).dates| * RuleWorth(last, live)
  }

  lemma {:induction false} InsertedWorth(due: seq<DueRow>, asOf: Day, live: set<Id>)
    ensures SumContribution(Inserted(due, asOf), live) == RunWorth(due, asOf, live)
    decreases |due|
  {
    hide CatchUp, Instances, RuleWorth;
    if due == [] {
    } else {
      var n := |due| - 1;
      var r := due[n].rule;
      var dates := CatchUp(r, r.nextRunAt, asOf, CAP).dates;
      InsertedWorth(due[..n], asOf, live);
      SumContributionConcat(Inserted(due[..n], asOf), Instances(r, dates), live);
      InstancesWorth(r, dates, live);
    }
  }

  lemma {:induction false} InsertedShaped(due: seq<DueRow>, asOf: Day)
    requires forall k :: 0 <= k < |due| ==> forall d :: ShapeOk(Instantiate(due[k].rule, d))
    ensures forall i :: 0 <= i < |Inserted(due, asOf)| ==> ShapeOk(Inserted(due, asOf)[i])
    decreases |due|
  {
    hide CatchUp, ShapeOk, Instantiate;
    if due == [] {
    } else {
      var n := |due| - 1;
      assert forall k :: 0 <= k < n ==> due[..n][k] == due[k];
      InsertedShaped(due[..n], asOf);
    }
  }

  /** A committed run moves the total by the sum over its rules of count times signed amount. */
  lemma RunMovesTotal(b: Books, due: seq<DueRow>, asOf: Day, ids: seq<Id>)
    requires BooksOk(b) && |ids| == |Inserted(due, asOf)|
    requires forall k :: 0 <= k < |due| ==> forall d :: ShapeOk(Instantiate(due[k].rule, d))
    ensures TotalBalance(b.accounts, WithInserted(b.txns, Inserted(due, asOf), ids))
         == TotalBalance(b.accounts, b.txns) + RunWorth(due, asOf, LiveIds(b.accounts))
  {
    hide TotalBalance, ShapeOk, Inserted, RunWorth, Instantiate;
    InsertedShaped(due, asOf);
    InsertsMoveTotal(b.accounts, b.txns, Inserted(due, asOf), ids);
    InsertedWorth(due, asOf, LiveIds(b.accounts));
  }

  /** Income and expense rules are worth plus or minus their amount on a live account, and nothing on a deleted
      one. A transfer rule is worth nothing if and only if both its accounts are live or neither is; otherwise it
      moves its amount across that border. */
  lemma WorthOfRule(r: Rule, live: set<Id>)
    requires ShapeOk(Instantiate(r, r.nextRunAt))
    ensures r.kind == Income ==> RuleWorth(r, live) == if r.account in live then r.amount else 0
    ensures r.kind == Expense ==> RuleWorth(r, live) == if r.account in live then -r.amount else 0
    ensures r.kind == Transfer ==>
              && (RuleWorth(r, live) == 0 <==> (r.account in live <==> r.toAccount.value in live))
              && (RuleWorth(r, live) == r.amount <==> r.account !in live && r.toAccount.value in live)
              && (RuleWorth(r, live) == -r.amount <==> r.account in live && r.toAccount.value !in live)
  {
  }
}
