/** Monthly budgets per category, and what was spent against them. */
module Budgets {
  import opened Calendar
  import opened Domain
  import opened Ledger

  datatype BudgetRow = BudgetRow(category: Id, period: Day, amount: int, deleted: bool)

  datatype CategoryRow = CategoryRow(id: Id, name: string, kind: Kind, deleted: bool)

  // ---- the budgets table ----

  /** UNIQUE (category_id, period), deleted rows included. */
  predicate UniqueBudgets(rows: seq<BudgetRow>) {
    forall i, j :: 0 <= i < j < |rows| ==> !(rows[i].category == rows[j].category && rows[i].period == rows[j].period)
  }

  predicate UniqueCategories(cats: seq<CategoryRow>) {
    forall i, j :: 0 <= i < j < |cats| ==> cats[i].id != cats[j].id
  }

  predicate CategoryKnown(cats: seq<CategoryRow>, id: Id) {
    exists i :: 0 <= i < |cats| && cats[i].id == id
  }

  /** UNIQUE, CHECK and foreign key; a stored live budget is never zero. */
  predicate BudgetsOk(cats: seq<CategoryRow>, rows: seq<BudgetRow>) {
    && UniqueBudgets(rows)
    && forall i :: 0 <= i < |rows| ==> rows[i].amount > 0 && CategoryKnown(cats, rows[i].category)
  }

  function FindBudget(rows: seq<BudgetRow>, category: Id, period: Day): Option<nat> {
    if rows == [] then None
    else if rows[|rows| - 1].category == category && rows[|rows| - 1].period == period then Some(|rows| - 1)
    else FindBudget(rows[..|rows| - 1], category, period)
  }

  lemma {:induction false} FindBudgetFinds(rows: seq<BudgetRow>, category: Id, period: Day)
    ensures match FindBudget(rows, category, period)
            case Some(i) => i < |rows| && rows[i].category == category && rows[i].period == period
            case None => forall i :: 0 <= i < |rows| ==> !(rows[i].category == category && rows[i].period == period)
    decreases |rows|
  {
    if rows == [] {
    } else {
      FindBudgetFinds(rows[..|rows| - 1], category, period);
    }
  }

  /** UPDATE … SET deleted_at over every row that the WHERE clause selects. */
  function SoftDeleted(rows: seq<BudgetRow>, category: Id, period: Day): seq<BudgetRow> {
    seq(|rows|, i requires 0 <= i < |rows| =>
      if rows[i].category == category && rows[i].period == period && !rows[i].deleted
      then rows[i].(deleted := true) else rows[i])
  }

  /** INSERT … ON CONFLICT DO UPDATE: the conflicting row, live or deleted, takes the new amount. */
  function Upserted(rows: seq<BudgetRow>, category: Id, period: Day, amount: int): seq<BudgetRow> {
    FindBudgetFinds(rows, category, period);
    match FindBudget(rows, category, period)
    case Some(i) => rows[i := BudgetRow(category, period, amount, false)]
    case None => rows + [BudgetRow(category, period, amount, false)]
  }

  datatype SetCall = SetCall(category: Id, period: Day, amount: int)

  function SetRows(cats: seq<CategoryRow>, rows: seq<BudgetRow>, c: SetCall): Result<seq<BudgetRow>> {
    if c.amount == 0 then Ok(SoftDeleted(rows, c.category, c.period))
    else if c.amount < 0 || !CategoryKnown(cats, c.category) then Err(Constraint)
    else Ok(Upserted(rows, c.category, c.period, c.amount))
  }

  // ---- the map it stands for ----

  /** The budget of a category for a month. */
  function BudgetOf(rows: seq<BudgetRow>, category: Id, period: Day): Option<int> {
    FindBudgetFinds(rows, category, period);
    match FindBudget(rows, category, period)
    case Some(i) => if rows[i].deleted then None else Some(rows[i].amount)
    case None => None
  }

  type BudgetMap = map<(Id, Day), int>

  /** What one call means: zero removes, a refused call does nothing, anything else overwrites. */
  function MapAfter(cats: seq<CategoryRow>, m: BudgetMap, c: SetCall): BudgetMap {
    if c.amount == 0 then m - {(c.category, c.period)}
    else if c.amount < 0 || !CategoryKnown(cats, c.category) then m
    else m[(c.category, c.period) := c.amount]
  }

  ghost predicate Represents(rows: seq<BudgetRow>, m: BudgetMap) {
    forall category: Id, period: Day ::
      BudgetOf(rows, category, period) == if (category, period) in m then Some(m[(category, period)]) else None
  }

  lemma BudgetOfRow(rows: seq<BudgetRow>, i: nat)
    requires UniqueBudgets(rows) && i < |rows|
    ensures FindBudget(rows, rows[i].category, rows[i].period) == Some(i)
  {
    hide FindBudget;
    FindBudgetFinds(rows, rows[i].category, rows[i].period);
  }

  lemma SoftDeleteBudget(rows: seq<BudgetRow>, category: Id, period: Day, c: Id, p: Day)
    requires UniqueBudgets(rows)
    ensures UniqueBudgets(SoftDeleted(rows, category, period))
    ensures BudgetOf(SoftDeleted(rows, category, period), c, p)
         == if c == category && p == period then None else BudgetOf(rows, c, p)
  {
    hide FindBudget;
    var after := SoftDeleted(rows, category, period);
    FindBudgetFinds(rows, c, p);
    FindBudgetFinds(after, c, p);
    if FindBudget(rows, c, p).Some? { BudgetOfRow(after, FindBudget(rows, c, p).value); }
  }

  lemma UpsertBudget(rows: seq<BudgetRow>, category: Id, period: Day, amount: int, c: Id, p: Day)
    requires UniqueBudgets(rows)
    ensures UniqueBudgets(Upserted(rows, category, period, amount))
    ensures BudgetOf(Upserted(rows, category, period, amount), c, p)
         == if c == category && p == period then Some(amount) else BudgetOf(rows, c, p)
  {
    hide FindBudget;
    var after := Upserted(rows, category, period, amount);
    FindBudgetFinds(rows, category, period);
    FindBudgetFinds(rows, c, p);
    FindBudgetFinds(after, c, p);
    var found := FindBudget(rows, category, period);
    BudgetOfRow(after, if found.Some? then found.value else |rows|);
    if FindBudget(rows, c, p).Some? { BudgetOfRow(after, FindBudget(rows, c, p).value); }
  }

  /** One call keeps the table's constraints and does to the map what it means. */
  lemma SetRefines(cats: seq<CategoryRow>, rows: seq<BudgetRow>, m: BudgetMap, c: SetCall)
    requires BudgetsOk(cats, rows) && Represents(rows, m)
    ensures match SetRows(cats, rows, c)
            case Ok(after) => BudgetsOk(cats, after) && Represents(after, MapAfter(cats, m, c))
            case Err(_) => MapAfter(cats, m, c) == m
  {
    hide BudgetOf, CategoryKnown, UniqueBudgets, SetRows;
    if SetRows(cats, rows, c).Ok? {
      SetKeepsOk(cats, rows, c);
      var after := SetRows(cats, rows, c).value;
      forall category: Id, period: Day
        ensures BudgetOf(after, category, period)
             == if (category, period) in MapAfter(cats, m, c)
                then Some(MapAfter(cats, m, c)[(category, period)]) else None
      {
        SetMovesBudget(cats, rows, c, category, period);
      }
    } else {
      RefusedMeansNothing(cats, rows, c, m);
    }
  }

  lemma RefusedMeansNothing(cats: seq<CategoryRow>, rows: seq<BudgetRow>, c: SetCall, m: BudgetMap)
    requires SetRows(cats, rows, c).Err?
    ensures MapAfter(cats, m, c) == m
  {
  }

  lemma SetKeepsOk(cats: seq<CategoryRow>, rows: seq<BudgetRow>, c: SetCall)
    requires BudgetsOk(cats, rows) && SetRows(cats, rows, c).Ok?
    ensures BudgetsOk(cats, SetRows(cats, rows, c).value)
  {
    hide BudgetOf, FindBudget, CategoryKnown, UniqueBudgets;
    if c.amount == 0 {
      SoftDeleteBudget(rows, c.category, c.period, c.category, c.period);
    } else {
      UpsertBudget(rows, c.category, c.period, c.amount, c.category, c.period);
      FindBudgetFinds(rows, c.category, c.period);
    }
  }

  /** One accepted call decides one category's month and leaves every other as it was. */
  lemma SetMovesBudget(cats: seq<CategoryRow>, rows: seq<BudgetRow>, c: SetCall, category: Id, period: Day)
    requires UniqueBudgets(rows) && SetRows(cats, rows, c).Ok?
    ensures c.amount == 0 || (c.amount > 0 && CategoryKnown(cats, c.category))
    ensures BudgetOf(SetRows(cats, rows, c).value, category, period)
         == if category == c.category && period == c.period then (if c.amount == 0 then None else Some(c.amount))
            else BudgetOf(rows, category, period)
  {
    hide BudgetOf, FindBudget, CategoryKnown, UniqueBudgets;
    if c.amount == 0 {
      SoftDeleteBudget(rows, c.category, c.period, category, period);
    } else {
      UpsertBudget(rows, c.category, c.period, c.amount, category, period);
    }
  }

  function RunSets(cats: seq<CategoryRow>, calls: seq<SetCall>): seq<BudgetRow> {
    if calls == [] then []
    else
      var before := RunSets(cats, calls[..|calls| - 1]);
      match SetRows(cats, before, calls[|calls| - 1])
      case Ok(after) => after
      case Err(_) => before
  }

  function MapOf(cats: seq<CategoryRow>, calls: seq<SetCall>): BudgetMap {
    if calls == [] then map[] else MapAfter(cats, MapOf(cats, calls[..|calls| - 1]), calls[|calls| - 1])
  }

  /** Over every sequence of calls, zeros, revivals and refused calls included, the table is
      the map that the calls describe. */
  lemma {:induction false} BudgetsRefineMap(cats: seq<CategoryRow>, calls: seq<SetCall>)
    ensures BudgetsOk(cats, RunSets(cats, calls)) && Represents(RunSets(cats, calls), MapOf(cats, calls))
    decreases |calls|
  {
    hide SetRows, MapAfter;
    if calls == [] {
    } else {
      var n := |calls| - 1;
      BudgetsRefineMap(cats, calls[..n]);
      SetRefines(cats, RunSets(cats, calls[..n]), MapOf(cats, calls[..n]), calls[n]);
    }
  }

  class BudgetRepo {
    const categories: seq<CategoryRow>
    var rows: seq<BudgetRow>

    ghost predicate Valid()
      reads this
    {
      BudgetsOk(categories, rows)
    }

    constructor (categories: seq<CategoryRow>)
      ensures Valid() && this.categories == categories && rows == []
    {
      this.categories := categories;
      rows := [];
    }

    /** Amount zero soft-deletes the live row; any other amount inserts, overwrites or revives. */
    method Set(category: Id, period: Day, amount: int) returns (res: Result<()>)
      requires Valid()
      modifies this`rows
      ensures Valid()
      ensures res.Err? <==> amount < 0 || (amount > 0 && !CategoryKnown(categories, category))
      ensures res.Err? ==> rows == old(rows)
      ensures res.Ok? ==> forall c: Id, p: Day ::
                BudgetOf(rows, c, p) ==
                if c == category && p == period then (if amount == 0 then None else Some(amount))
                else BudgetOf(old(rows), c, p)
      ensures FindBudget(old(rows), category, period).Some? || amount == 0 ==> |rows| == |old(rows)|
    {
      hide BudgetOf, CategoryKnown, BudgetsOk;
      ghost var call := SetCall(category, period, amount);
      if SetRows(categories, rows, call).Ok? {
        SetKeepsOk(categories, rows, call);
        UniqueWhenOk(categories, rows);
        forall c: Id, p: Day
          ensures BudgetOf(SetRows(categories, rows, call).value, c, p)
               == if c == category && p == period then (if amount == 0 then None else Some(amount))
                  else BudgetOf(rows, c, p)
        {
          SetMovesBudget(categories, rows, call, c, p);
        }
      }
      if amount == 0 {
        rows := SoftDeleted(rows, category, period);
        return Ok(());
      }
      if amount < 0 || !CategoryKnown(categories, category) { return Err(Constraint); }
      res := Ok(());
      FindBudgetFinds(rows, category, period);
      match FindBudget(rows, category, period)
      case Some(i) => rows := rows[i := BudgetRow(category, period, amount, false)];
      case None => rows := rows + [BudgetRow(category, period, amount, false)];
    }
  }

  lemma UniqueWhenOk(cats: seq<CategoryRow>, rows: seq<BudgetRow>)
    requires BudgetsOk(cats, rows)
    ensures UniqueBudgets(rows)
  {
    hide UniqueBudgets;
  }

  // ---- the budget lines query ----

  /** One row of the double left join, for a fixed category. */
  datatype Joined = Joined(budget: Option<int>, tx: Option<TxRow>)

  /** LEFT JOIN budgets ON category, period and not deleted. */
  function BudgetMatches(rows: seq<BudgetRow>, category: Id, period: Day): seq<Option<int>> {
    if rows == [] then []
    else
      var b := rows[|rows| - 1];
      BudgetMatches(rows[..|rows| - 1], category, period)
      + if b.category == category && b.period == period && !b.deleted then [Some(b.amount)] else []
  }

  /** LEFT JOIN transactions ON category alone; deleted and other months' rows are joined too. */
  function TxMatches(txns: seq<TxRow>, category: Id): seq<Option<TxRow>> {
    if txns == [] then []
    else
      var t := txns[|txns| - 1];
      TxMatches(txns[..|txns| - 1], category) + if t.tx.category == Some(category) then [Some(t)] else []
  }

  function OrNull<T>(matches: seq<Option<T>>): seq<Option<T>> {
    if matches == [] then [None] else matches
  }

  function Cross(bs: seq<Option<int>>, ts: seq<Option<TxRow>>): seq<Joined> {
    if bs == [] then []
    else
      Cross(bs[..|bs| - 1], ts) + seq(|ts|, k requires 0 <= k < |ts| => Joined(bs[|bs| - 1], ts[k]))
  }

  function JoinRows(rows: seq<BudgetRow>, txns: seq<TxRow>, category: Id, period: Day): seq<Joined> {
    Cross(OrNull(BudgetMatches(rows, category, period)), OrNull(TxMatches(txns, category)))
  }

  /** GROUP BY the budget amount: its distinct values, in order of appearance. */
  function GroupKeys(js: seq<Joined>): seq<Option<int>> {
    if js == [] then []
    else
      var keys := GroupKeys(js[..|js| - 1]);
      if js[|js| - 1].budget in keys then keys else keys + [js[|js| - 1].budget]
  }

  predicate SpendIn(row: TxRow, from: Day, to: Day) {
    !row.deleted && row.tx.kind == Expense && from <= row.tx.occurredAt < to
  }

  /** SUM(t.amount_minor) FILTER (…) over one group. */
  function FilteredSum(js: seq<Joined>, key: Option<int>, from: Day, to: Day): int {
    if js == [] then 0
    else
      var j := js[|js| - 1];
      FilteredSum(js[..|js| - 1], key, from, to)
      + if j.budget == key && j.tx.Some? && SpendIn(j.tx.value, from, to) then j.tx.value.tx.amount else 0
  }

  datatype Line = Line(category: Id, budget: int, spent: int)

  function LinesOf(rows: seq<BudgetRow>, txns: seq<TxRow>, category: Id, period: Day): seq<Line> {
    var js := JoinRows(rows, txns, category, period);
    var keys := GroupKeys(js);
    seq(|keys|, k requires 0 <= k < |keys| =>
      Line(category, if keys[k].Some? then keys[k].value else 0,
           FilteredSum(js, keys[k], period, AddDate(period, 0, 1, 0))))
  }

  predicate Budgeted(c: CategoryRow) {
    !c.deleted && c.kind == Expense
  }

  /** The whole query, for categories in name order. */
  function Lines(cats: seq<CategoryRow>, rows: seq<BudgetRow>, txns: seq<TxRow>, period: Day): seq<Line> {
    if cats == [] then []
    else
      var c := cats[|cats| - 1];
      Lines(cats[..|cats| - 1], rows, txns, period) + if Budgeted(c) then LinesOf(rows, txns, c.id, period) else []
  }

  // ---- what the query means ----

  /** Spending under one category, each transaction once. */
  function Spent(txns: seq<TxRow>, category: Id, from: Day, to: Day): int {
    if txns == [] then 0
    else
      var t := txns[|txns| - 1];
      Spent(txns[..|txns| - 1], category, from, to)
      + if t.tx.category == Some(category) && SpendIn(t, from, to) then t.tx.amount else 0
  }

  lemma {:induction false} BudgetMatchesAt(rows: seq<BudgetRow>, category: Id, period: Day)
    requires UniqueBudgets(rows)
    ensures BudgetMatches(rows, category, period)
         == match BudgetOf(rows, category, period) case Some(a) => [Some(a)] case None => []
    decreases |rows|
  {
    hide BudgetOf, FindBudget;
    if rows == [] {
      NoBudgets(category, period);
    } else {
      var n := |rows| - 1;
      assert forall i, j :: 0 <= i < j < n ==> rows[..n][i] == rows[i] && rows[..n][j] == rows[j];
      BudgetMatchesAt(rows[..n], category, period);
      BudgetOfLast(rows, category, period);
    }
  }

  lemma NoBudgets(category: Id, period: Day)
    ensures BudgetOf([], category, period) == None
  {
  }

  /** The last row decides its own key, and no other row has that key. */
  lemma BudgetOfLast(rows: seq<BudgetRow>, category: Id, period: Day)
    requires rows != [] && UniqueBudgets(rows)
    ensures var front, b := rows[..|rows| - 1], rows[|rows| - 1];
            if b.category == category && b.period == period
            then BudgetOf(front, category, period) == None
                 && BudgetOf(rows, category, period) == if b.deleted then None else Some(b.amount)
            else BudgetOf(rows, category, period) == BudgetOf(front, category, period)
  {
    FindBudgetFinds(rows[..|rows| - 1], category, period);
  }

  lemma CrossOne(b: Option<int>, ts: seq<Option<TxRow>>)
    ensures Cross([b], ts) == seq(|ts|, k requires 0 <= k < |ts| => Joined(b, ts[k]))
  {
    assert [b][..0] == [];
  }

  lemma {:induction false} GroupKeysOne(js: seq<Joined>, b: Option<int>)
    requires js != [] && forall k :: 0 <= k < |js| ==> js[k].budget == b
    ensures GroupKeys(js) == [b]
    decreases |js|
  {
    if |js| > 1 { GroupKeysOne(js[..|js| - 1], b); } else { assert js[..0] == []; }
  }

  lemma {:induction false} FilteredSumIsSpent(txns: seq<TxRow>, category: Id, b: Option<int>, from: Day, to: Day)
    ensures FilteredSum(Cross([b], TxMatches(txns, category)), b, from, to) == Spent(txns, category, from, to)
    decreases |txns|
  {
    hide Cross, SpendIn;
    var ts := TxMatches(txns, category);
    CrossOne(b, ts);
    if txns == [] {
    } else {
      var n := |txns| - 1;
      FilteredSumIsSpent(txns[..n], category, b, from, to);
      var before := TxMatches(txns[..n], category);
      CrossOne(b, before);
      var js := Cross([b], ts);
      if txns[n].tx.category == Some(category) {
        assert ts == before + [Some(txns[n])];
        assert js[..|js| - 1] == Cross([b], before);
        assert js[|js| - 1] == Joined(b, Some(txns[n]));
      } else {
        assert ts == before;
      }
    }
  }

  lemma NullSumIsZero(b: Option<int>, from: Day, to: Day)
    ensures FilteredSum(Cross([b], [None]), b, from, to) == 0
  {
    hide Cross;
    CrossOne(b, [None]);
    var js := Cross([b], [None]);
    assert js[..0] == [];
  }

  /** Because a category has at most one budget row a month, the double join gives exactly one line,
      with the budget set (or 0) and every transaction counted once. */
  lemma LineIsExact(rows: seq<BudgetRow>, txns: seq<TxRow>, category: Id, period: Day)
    requires UniqueBudgets(rows)
    ensures LinesOf(rows, txns, category, period)
         == [Line(category, (match BudgetOf(rows, category, period) case Some(a) => a case None => 0),
                  Spent(txns, category, period, AddDate(period, 0, 1, 0)))]
  {
    hide BudgetOf, AddDate, Cross, FilteredSum, Spent, BudgetMatches, TxMatches, GroupKeys;
    var b := BudgetOf(rows, category, period);
    var to := AddDate(period, 0, 1, 0);
    BudgetMatchesAt(rows, category, period);
    assert OrNull(BudgetMatches(rows, category, period)) == [b];
    var ts := OrNull(TxMatches(txns, category));
    CrossOne(b, ts);
    GroupKeysOne(Cross([b], ts), b);
    FilteredSumIsSpent(txns, category, b, period, to);
    NullSumIsZero(b, period, to);
    NothingMatchedNothingSpent(txns, category, b, period, to);
  }

  lemma NothingMatchedNothingSpent(txns: seq<TxRow>, category: Id, b: Option<int>, from: Day, to: Day)
    ensures TxMatches(txns, category) == [] ==> FilteredSum(Cross([b], []), b, from, to) == 0
  {
    hide TxMatches;
    CrossOne(b, []);
  }

  // ---- against the month's cash flow ----

  /** Cashflow's expense column for [from, to). */
  function ExpenseBetween(txns: seq<TxRow>, from: Day, to: Day): int {
    if txns == [] then 0
    else
      var t := txns[|txns| - 1];
      ExpenseBetween(txns[..|txns| - 1], from, to) + if SpendIn(t, from, to) then t.tx.amount else 0
  }

  predicate BudgetedId(cats: seq<CategoryRow>, id: Option<Id>) {
    exists i :: 0 <= i < |cats| && Budgeted(cats[i]) && Some(cats[i].id) == id
  }

  /** Spending with no category, or with one that is deleted or not an expense category. */
  function Elsewhere(cats: seq<CategoryRow>, txns: seq<TxRow>, from: Day, to: Day): int {
    if txns == [] then 0
    else
      var t := txns[|txns| - 1];
      Elsewhere(cats, txns[..|txns| - 1], from, to)
      + if SpendIn(t, from, to) && !BudgetedId(cats, t.tx.category) then t.tx.amount else 0
  }

  function TotalSpent(lines: seq<Line>): int {
    if lines == [] then 0 else TotalSpent(lines[..|lines| - 1]) + lines[|lines| - 1].spent
  }

  function SpentOn(cats: seq<CategoryRow>, txns: seq<TxRow>, from: Day, to: Day): int {
    if cats == [] then 0
    else
      var c := cats[|cats| - 1];
      SpentOn(cats[..|cats| - 1], txns, from, to) + if Budgeted(c) then Spent(txns, c.id, from, to) else 0
  }

  lemma {:induction false} LinesSum(cats: seq<CategoryRow>, rows: seq<BudgetRow>, txns: seq<TxRow>, period: Day)
    requires UniqueBudgets(rows)
    ensures TotalSpent(Lines(cats, rows, txns, period)) == SpentOn(cats, txns, period, AddDate(period, 0, 1, 0))
    decreases |cats|
  {
    hide LinesOf, AddDate, Spent, UniqueBudgets;
    if cats == [] {
    } else {
      var n := |cats| - 1;
      LinesSum(cats[..n], rows, txns, period);
      var before := Lines(cats[..n], rows, txns, period);
      LineIsExact(rows, txns, cats[n].id, period);
      var one := LinesOf(rows, txns, cats[n].id, period);
      assert (before + one)[..|before|] == before;
      assert before + [] == before;
    }
  }

  /** One more transaction is added to exactly one budgeted category, or to none. */
  lemma {:induction false} SpentOnStep(cats: seq<CategoryRow>, txns: seq<TxRow>, from: Day, to: Day)
    requires txns != [] && UniqueCategories(cats)
    ensures var t := txns[|txns| - 1];
            SpentOn(cats, txns, from, to) == SpentOn(cats, txns[..|txns| - 1], from, to)
              + if SpendIn(t, from, to) && BudgetedId(cats, t.tx.category) then t.tx.amount else 0
    decreases |cats|
  {
    hide SpendIn;
    if cats == [] {
    } else {
      var n := |cats| - 1;
      var t := txns[|txns| - 1];
      assert forall i, j :: 0 <= i < j < n ==> cats[..n][i] == cats[i] && cats[..n][j] == cats[j];
      SpentOnStep(cats[..n], txns, from, to);
      BudgetedIdStep(cats, t.tx.category);
    }
  }

  lemma BudgetedIdStep(cats: seq<CategoryRow>, id: Option<Id>)
    requires cats != [] && UniqueCategories(cats)
    ensures var last := cats[|cats| - 1];
            && (BudgetedId(cats, id) <==> BudgetedId(cats[..|cats| - 1], id) || (Budgeted(last) && Some(last.id) == id))
            && !(BudgetedId(cats[..|cats| - 1], id) && Some(last.id) == id)
  {
    var n := |cats| - 1;
    assert forall i :: 0 <= i < n ==> cats[..n][i] == cats[i];
    if BudgetedId(cats[..n], id) {
      var i :| 0 <= i < n && Budgeted(cats[..n][i]) && Some(cats[..n][i].id) == id;
      assert Budgeted(cats[i]) && Some(cats[i].id) == id;
    }
  }

  lemma {:induction false} SpentOnSplits(cats: seq<CategoryRow>, txns: seq<TxRow>, from: Day, to: Day)
    requires UniqueCategories(cats)
    ensures SpentOn(cats, txns, from, to) == ExpenseBetween(txns, from, to) - Elsewhere(cats, txns, from, to)
    decreases |txns|
  {
    hide SpendIn, BudgetedId;
    if txns == [] {
      NothingSpent(cats, from, to);
    } else {
      SpentOnSplits(cats, txns[..|txns| - 1], from, to);
      SpentOnStep(cats, txns, from, to);
    }
  }

  lemma {:induction false} NothingSpent(cats: seq<CategoryRow>, from: Day, to: Day)
    ensures SpentOn(cats, [], from, to) == 0
    decreases |cats|
  {
    if cats == [] {
    } else {
      NothingSpent(cats[..|cats| - 1], from, to);
    }
  }

  /** The budget page accounts for the month's whole expense, but for what is spent outside the live
      expense categories. */
  lemma SpendingAddsUp(cats: seq<CategoryRow>, rows: seq<BudgetRow>, txns: seq<TxRow>, period: Day)
    requires UniqueCategories(cats) && UniqueBudgets(rows)
    ensures var to := AddDate(period, 0, 1, 0);
            TotalSpent(Lines(cats, rows, txns, period))
            == ExpenseBetween(txns, period, to) - Elsewhere(cats, txns, period, to)
  {
    hide *;
    LinesSum(cats, rows, txns, period);
    SpentOnSplits(cats, txns, period, AddDate(period, 0, 1, 0));
  }

  /** For a period that starts a month, [period, period + 1 month) is that calendar month. */
  lemma PeriodIsMonth(period: Day, d: Day)
    requires Civil(period).d == 1
    ensures period <= d < AddDate(period, 0, 1, 0) <==>
            Civil(d).y == Civil(period).y && Civil(d).m == Civil(period).m
  {
    hide Civil, GoDate, Ordinal;
    var c := Civil(period);
    var next := if c.m < 12 then RawDate(c.y, c.m + 1, 1) else RawDate(c.y + 1, 1, 1);
    GoDateNormalises(c.y, c.m + 1, 1, next.y, next.m);
    OrdinalIsChronological(Civil(d), c);
    OrdinalIsChronological(Civil(d), next);
  }

  // ---- the page in the ledger's own terms ----

  /** Expenses of the civil month that a day lies in. */
  function MonthExpenses(period: Day): Tx -> bool {
    (t: Tx) => t.kind == Expense && Civil(t.occurredAt).y == Civil(period).y && Civil(t.occurredAt).m == Civil(period).m
  }

  function UnderCategory(category: Id, period: Day): Tx -> bool {
    (t: Tx) => t.category == Some(category) && MonthExpenses(period)(t)
  }

  /** Expenses of the month with no category, or with one that is not a live expense category. */
  function Uncategorised(cats: seq<CategoryRow>, period: Day): Tx -> bool {
    (t: Tx) =>
      && MonthExpenses(period)(t)
      && (forall i :: 0 <= i < |cats| && t.category == Some(cats[i].id) ==> cats[i].deleted || cats[i].kind != Expense)
  }

  /** For a period that starts a month, the query's filter is: not deleted, an expense, of that month. */
  lemma SpendIsMonthExpense(row: TxRow, period: Day)
    requires Civil(period).d == 1
    ensures SpendIn(row, period, AddDate(period, 0, 1, 0)) <==> !row.deleted && MonthExpenses(period)(row.tx)
  {
    hide Civil, AddDate;
    PeriodIsMonth(period, row.tx.occurredAt);
  }

  lemma {:induction false} SpentIsSum(txns: seq<TxRow>, category: Id, period: Day)
    requires Civil(period).d == 1
    ensures Spent(txns, category, period, AddDate(period, 0, 1, 0)) == SumIf(txns, UnderCategory(category, period))
    decreases |txns|
  {
    hide Civil, AddDate, SpendIn, MonthExpenses;
    if txns == [] {
    } else {
      SpentIsSum(txns[..|txns| - 1], category, period);
      SpendIsMonthExpense(txns[|txns| - 1], period);
    }
  }

  lemma {:induction false} ExpenseIsSum(txns: seq<TxRow>, period: Day)
    requires Civil(period).d == 1
    ensures ExpenseBetween(txns, period, AddDate(period, 0, 1, 0)) == SumIf(txns, MonthExpenses(period))
    decreases |txns|
  {
    hide Civil, AddDate, SpendIn, MonthExpenses;
    if txns == [] {
    } else {
      ExpenseIsSum(txns[..|txns| - 1], period);
      SpendIsMonthExpense(txns[|txns| - 1], period);
    }
  }

  lemma {:induction false} ElsewhereIsSum(cats: seq<CategoryRow>, txns: seq<TxRow>, period: Day)
    requires Civil(period).d == 1
    ensures Elsewhere(cats, txns, period, AddDate(period, 0, 1, 0)) == SumIf(txns, Uncategorised(cats, period))
    decreases |txns|
  {
    hide Civil, AddDate, SpendIn, MonthExpenses, BudgetedId;
    if txns == [] {
    } else {
      var t := txns[|txns| - 1];
      ElsewhereIsSum(cats, txns[..|txns| - 1], period);
      SpendIsMonthExpense(t, period);
      UncategorisedIff(cats, t.tx, period);
    }
  }

  lemma UncategorisedIff(cats: seq<CategoryRow>, t: Tx, period: Day)
    ensures Uncategorised(cats, period)(t) <==> MonthExpenses(period)(t) && !BudgetedId(cats, t.category)
  {
    hide MonthExpenses;
    if i :| 0 <= i < |cats| && Budgeted(cats[i]) && Some(cats[i].id) == t.category {
      assert !cats[i].deleted && cats[i].kind == Expense && t.category == Some(cats[i].id);
    }
    if i :| 0 <= i < |cats| && !cats[i].deleted && cats[i].kind == Expense && t.category == Some(cats[i].id) {
      assert Budgeted(cats[i]) && Some(cats[i].id) == t.category;
    }
  }

  /** A category's line for a month: its budget or 0, and the sum of the month's live expenses under it. */
  lemma LineMeans(rows: seq<BudgetRow>, txns: seq<TxRow>, category: Id, period: Day)
    requires UniqueBudgets(rows) && Civil(period).d == 1
    ensures LinesOf(rows, txns, category, period)
         == [Line(category, (match BudgetOf(rows, category, period) case Some(a) => a case None => 0),
                  SumIf(txns, UnderCategory(category, period)))]
  {
    hide LinesOf, BudgetOf, AddDate, Spent, SumIf, Civil;
    LineIsExact(rows, txns, category, period);
    SpentIsSum(txns, category, period);
  }

  /** The spent column sums to the month's live expenses, less those outside the live expense categories. */
  lemma PageAddsUp(cats: seq<CategoryRow>, rows: seq<BudgetRow>, txns: seq<TxRow>, period: Day)
    requires UniqueCategories(cats) && UniqueBudgets(rows) && Civil(period).d == 1
    ensures TotalSpent(Lines(cats, rows, txns, period))
         == SumIf(txns, MonthExpenses(period)) - SumIf(txns, Uncategorised(cats, period))
  {
    hide TotalSpent, Lines, AddDate, SumIf, Civil, ExpenseBetween, Elsewhere, UniqueCategories, UniqueBudgets;
    SpendingAddsUp(cats, rows, txns, period);
    ExpenseIsSum(txns, period);
    ElsewhereIsSum(cats, txns, period);
  }

  predicate HasLine(lines: seq<Line>, id: Id) {
    exists k :: 0 <= k < |lines| && lines[k].category == id
  }

  predicate LiveExpense(cats: seq<CategoryRow>, id: Id) {
    exists i :: 0 <= i < |cats| && !cats[i].deleted && cats[i].kind == Expense && cats[i].id == id
  }

  lemma HasLineConcat(a: seq<Line>, b: seq<Line>, id: Id)
    ensures HasLine(a + b, id) <==> HasLine(a, id) || HasLine(b, id)
  {
    if k :| 0 <= k < |a| && a[k].category == id { assert (a + b)[k].category == id; }
    if k :| 0 <= k < |b| && b[k].category == id { assert (a + b)[|a| + k].category == id; }
  }

  lemma LiveExpenseStep(cats: seq<CategoryRow>, id: Id)
    requires cats != []
    ensures var last := cats[|cats| - 1];
            LiveExpense(cats, id) <==>
            LiveExpense(cats[..|cats| - 1], id) || (!last.deleted && last.kind == Expense && last.id == id)
  {
    var n := |cats| - 1;
    if i :| 0 <= i < n && !cats[..n][i].deleted && cats[..n][i].kind == Expense && cats[..n][i].id == id {
      assert !cats[i].deleted && cats[i].kind == Expense && cats[i].id == id;
    }
    if i :| 0 <= i < |cats| && !cats[i].deleted && cats[i].kind == Expense && cats[i].id == id {
      if i < n { assert !cats[..n][i].deleted && cats[..n][i].kind == Expense && cats[..n][i].id == id; }
    }
  }

  lemma OneLine(rows: seq<BudgetRow>, txns: seq<TxRow>, category: Id, period: Day, id: Id)
    requires UniqueBudgets(rows)
    ensures HasLine(LinesOf(rows, txns, category, period), id) <==> category == id
  {
    hide LinesOf, UniqueBudgets, BudgetOf, Spent, AddDate;
    LineIsExact(rows, txns, category, period);
    assert LinesOf(rows, txns, category, period)[0].category == category;
  }

  /** The page has a line for a category if and only if it is a live expense category. */
  lemma {:induction false} LinesAreFor(cats: seq<CategoryRow>, rows: seq<BudgetRow>, txns: seq<TxRow>, period: Day,
                                       id: Id)
    requires UniqueBudgets(rows)
    ensures HasLine(Lines(cats, rows, txns, period), id) <==> LiveExpense(cats, id)
    decreases |cats|
  {
    hide LinesOf, UniqueBudgets, HasLine, LiveExpense;
    if cats == [] {
      NoLines(id);
    } else {
      var n := |cats| - 1;
      var before := Lines(cats[..n], rows, txns, period);
      LinesAreFor(cats[..n], rows, txns, period, id);
      LiveExpenseStep(cats, id);
      OneLine(rows, txns, cats[n].id, period, id);
      HasLineConcat(before, LinesOf(rows, txns, cats[n].id, period), id);
      assert before + [] == before;
    }
  }

  lemma NoLines(id: Id)
    ensures !HasLine([], id) && !LiveExpense([], id)
  {
  }
}
