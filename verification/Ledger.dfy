/** Accounts and transactions as table rows, and the balances SQL recomputes from them. */
module Ledger {
  import opened Domain

  datatype AccountRow = AccountRow(id: Id, name: string, initial: int, deleted: bool)

  datatype TxRow = TxRow(id: Id, tx: Tx, deleted: bool)

  /** `categories` holds the ids of the category rows, deleted ones included: no operation removes a row. */
  datatype Books = Books(accounts: seq<AccountRow>, categories: set<Id>, txns: seq<TxRow>)

  // ---- one transaction seen from one account ----

  predicate Touches(t: Tx, a: Id) {
    t.account == a || t.toAccount == Some(a)
  }

  /** domain.Transaction.SignedFor. */
  function SignedFor(t: Tx, a: Id): int {
    match t.kind
    case Income => t.amount
    case Expense => -t.amount
    case Transfer => if t.toAccount == Some(a) then t.amount else -t.amount
  }

  /** The CASE expression of the balance queries, for a joined transaction. */
  function CaseEffect(t: Tx, a: Id): int {
    if t.kind == Income then t.amount
    else if t.kind == Expense then -t.amount
    else if t.kind == Transfer && t.account == a then -t.amount
    else if t.kind == Transfer && t.toAccount == Some(a) then t.amount
    else 0
  }

  /** The query and SignedFor agree exactly because self-transfers are excluded. */
  lemma CaseAgreesIffNoSelfTransfer(t: Tx, a: Id)
    requires t.amount > 0 && Touches(t, a)
    ensures CaseEffect(t, a) == SignedFor(t, a) <==>
            !(t.kind == Transfer && t.account == a && t.toAccount == Some(a))
  {
  }

  // ---- the SQL aggregates ----

  /** accounts LEFT JOIN transactions for one account: the matching live rows, or one all-NULL row. */
  function Matching(a: Id, txns: seq<TxRow>): seq<Option<Tx>> {
    if txns == [] then []
    else
      var last := txns[|txns| - 1];
      Matching(a, txns[..|txns| - 1]) + if !last.deleted && Touches(last.tx, a) then [Some(last.tx)] else []
  }

  function LeftJoin(a: Id, txns: seq<TxRow>): seq<Option<Tx>> {
    if Matching(a, txns) == [] then [None] else Matching(a, txns)
  }

  function CaseSum(rows: seq<Option<Tx>>, a: Id): int {
    if rows == [] then 0
    else
      var last := rows[|rows| - 1];
      CaseSum(rows[..|rows| - 1], a) + if last.Some? then CaseEffect(last.value, a) else 0
  }

  /** The balance column of the account list. */
  function Balance(acc: AccountRow, txns: seq<TxRow>): int {
    acc.initial + CaseSum(LeftJoin(acc.id, txns), acc.id)
  }

  /** SUM over the live accounts. */
  function TotalBalance(accounts: seq<AccountRow>, txns: seq<TxRow>): int {
    if accounts == [] then 0
    else
      var last := accounts[|accounts| - 1];
      TotalBalance(accounts[..|accounts| - 1], txns) + if last.deleted then 0 else Balance(last, txns)
  }

  // ---- the simple definitions they refine ----

  /** Effect of one stored row on one account. */
  function RowEffect(row: TxRow, a: Id): int {
    if !row.deleted && Touches(row.tx, a) then SignedFor(row.tx, a) else 0
  }

  function NetEffect(txns: seq<TxRow>, a: Id): int {
    if txns == [] then 0 else NetEffect(txns[..|txns| - 1], a) + RowEffect(txns[|txns| - 1], a)
  }

  predicate RowsShaped(txns: seq<TxRow>) {
    forall i :: 0 <= i < |txns| ==> ShapeOk(txns[i].tx)
  }

  lemma {:induction false} CaseSumIsNetEffect(a: Id, txns: seq<TxRow>)
    requires RowsShaped(txns)
    ensures CaseSum(Matching(a, txns), a) == NetEffect(txns, a)
    decreases |txns|
  {
    if txns == [] {
    } else {
      var front := txns[..|txns| - 1];
      CaseSumIsNetEffect(a, front);
      var last := txns[|txns| - 1];
      assert ShapeOk(last.tx);
      if !last.deleted && Touches(last.tx, a) {
        assert Matching(a, txns) == Matching(a, front) + [Some(last.tx)];
        assert (Matching(a, front) + [Some(last.tx)])[..|Matching(a, front)|] == Matching(a, front);
        CaseAgreesIffNoSelfTransfer(last.tx, a);
      } else {
        assert Matching(a, txns) == Matching(a, front);
      }
    }
  }

  /** The join, the CASE and the SUM together are the initial balance plus SignedFor
      of every live transaction touching the account, each counted once. */
  lemma BalanceIsNetEffect(acc: AccountRow, txns: seq<TxRow>)
    requires RowsShaped(txns)
    ensures Balance(acc, txns) == acc.initial + NetEffect(txns, acc.id)
  {
    CaseSumIsNetEffect(acc.id, txns);
    var unmatched: seq<Option<Tx>> := [None];
    assert unmatched[..0] == [];
    assert CaseSum(unmatched, acc.id) == 0;
  }

  // ---- conservation ----

  function LiveIds(accounts: seq<AccountRow>): set<Id> {
    set i | 0 <= i < |accounts| && !accounts[i].deleted :: accounts[i].id
  }

  predicate UniqueAccounts(accounts: seq<AccountRow>) {
    forall i, j :: 0 <= i < j < |accounts| ==> accounts[i].id != accounts[j].id
  }

  /** What one transaction adds to the sum over the accounts in `live`. */
  function Contribution(t: Tx, live: set<Id>): int {
    match t.kind
    case Income => if t.account in live then t.amount else 0
    case Expense => if t.account in live then -t.amount else 0
    case Transfer =>
      (if t.toAccount.Some? && t.toAccount.value in live then t.amount else 0)
      - (if t.account in live then t.amount else 0)
  }

  function RowContribution(row: TxRow, live: set<Id>): int {
    if row.deleted then 0 else Contribution(row.tx, live)
  }

  function NetContribution(txns: seq<TxRow>, live: set<Id>): int {
    if txns == [] then 0 else NetContribution(txns[..|txns| - 1], live) + RowContribution(txns[|txns| - 1], live)
  }

  function LiveInitial(accounts: seq<AccountRow>): int {
    if accounts == [] then 0
    else
      LiveInitial(accounts[..|accounts| - 1])
      + if accounts[|accounts| - 1].deleted then 0 else accounts[|accounts| - 1].initial
  }

  /** One row's effect summed over the live accounts. */
  function SpreadEffect(accounts: seq<AccountRow>, row: TxRow): int {
    if accounts == [] then 0
    else
      SpreadEffect(accounts[..|accounts| - 1], row)
      + if accounts[|accounts| - 1].deleted then 0 else RowEffect(row, accounts[|accounts| - 1].id)
  }

  lemma LiveIdsSplit(accounts: seq<AccountRow>)
    requires accounts != [] && UniqueAccounts(accounts)
    ensures var front, last := accounts[..|accounts| - 1], accounts[|accounts| - 1];
            && UniqueAccounts(front)
            && last.id !in LiveIds(front)
            && LiveIds(accounts) == LiveIds(front) + if last.deleted then {} else {last.id}
  {
    var front, last := accounts[..|accounts| - 1], accounts[|accounts| - 1];
    assert forall i :: 0 <= i < |front| ==> front[i] == accounts[i];
    forall id ensures id in LiveIds(accounts) <==> id in LiveIds(front) + if last.deleted then {} else {last.id} {
      if id in LiveIds(front) {
        var i :| 0 <= i < |front| && !front[i].deleted && front[i].id == id;
        assert accounts[i].id == id;
      }
      if id in LiveIds(accounts) {
        var i :| 0 <= i < |accounts| && !accounts[i].deleted && accounts[i].id == id;
        if i < |front| { assert front[i].id == id; }
      }
    }
  }

  /** Since ids are unique, each side of a transaction is counted at most once. */
  lemma {:induction false} SpreadIsContribution(accounts: seq<AccountRow>, row: TxRow)
    requires UniqueAccounts(accounts) && ShapeOk(row.tx)
    ensures SpreadEffect(accounts, row) == RowContribution(row, LiveIds(accounts))
    decreases |accounts|
  {
    if accounts == [] {
    } else {
      LiveIdsSplit(accounts);
      SpreadIsContribution(accounts[..|accounts| - 1], row);
    }
  }

  lemma {:induction false} TotalWithoutTransactions(accounts: seq<AccountRow>)
    ensures TotalBalance(accounts, []) == LiveInitial(accounts)
    decreases |accounts|
  {
    if accounts == [] {
    } else {
      TotalWithoutTransactions(accounts[..|accounts| - 1]);
      BalanceIsNetEffect(accounts[|accounts| - 1], []);
    }
  }

  /** Adding one row to the table moves the total by that row's spread effect. */
  lemma {:induction false} TotalAddsRow(accounts: seq<AccountRow>, txns: seq<TxRow>, row: TxRow)
    requires RowsShaped(txns + [row])
    ensures TotalBalance(accounts, txns + [row]) == TotalBalance(accounts, txns) + SpreadEffect(accounts, row)
    decreases |accounts|
  {
    if accounts == [] {
    } else {
      TotalAddsRow(accounts[..|accounts| - 1], txns, row);
      var last := accounts[|accounts| - 1];
      assert forall i :: 0 <= i < |txns| ==> (txns + [row])[i] == txns[i];
      BalanceIsNetEffect(last, txns);
      BalanceIsNetEffect(last, txns + [row]);
      assert (txns + [row])[..|txns|] == txns;
    }
  }

  /** The total is the live initial balances plus each live transaction's contribution. */
  lemma {:induction false} TotalIsConserved(accounts: seq<AccountRow>, txns: seq<TxRow>)
    requires UniqueAccounts(accounts) && RowsShaped(txns)
    ensures TotalBalance(accounts, txns) == LiveInitial(accounts) + NetContribution(txns, LiveIds(accounts))
    decreases |txns|
  {
    if txns == [] {
      TotalWithoutTransactions(accounts);
    } else {
      var front, last := txns[..|txns| - 1], txns[|txns| - 1];
      assert txns == front + [last];
      TotalIsConserved(accounts, front);
      TotalAddsRow(accounts, front, last);
      SpreadIsContribution(accounts, last);
    }
  }

  // ---- the same total by kind of money movement ----

  function SumIf(txns: seq<TxRow>, p: Tx -> bool): int {
    if txns == [] then 0
    else
      var last := txns[|txns| - 1];
      SumIf(txns[..|txns| - 1], p) + if !last.deleted && p(last.tx) then last.tx.amount else 0
  }

  function IncomeOf(live: set<Id>): Tx -> bool {
    (t: Tx) => t.kind == Income && t.account in live
  }

  function ExpenseOf(live: set<Id>): Tx -> bool {
    (t: Tx) => t.kind == Expense && t.account in live
  }

  /** Transfers from a deleted account into a live one. */
  function FromDeleted(live: set<Id>): Tx -> bool {
    (t: Tx) => t.kind == Transfer && t.account !in live && t.toAccount.Some? && t.toAccount.value in live
  }

  /** Transfers from a live account to a deleted one. */
  function ToDeleted(live: set<Id>): Tx -> bool {
    (t: Tx) => t.kind == Transfer && t.account in live && !(t.toAccount.Some? && t.toAccount.value in live)
  }

  lemma {:induction false} NetByMovement(txns: seq<TxRow>, live: set<Id>)
    ensures NetContribution(txns, live)
         == SumIf(txns, IncomeOf(live)) - SumIf(txns, ExpenseOf(live))
          + SumIf(txns, FromDeleted(live)) - SumIf(txns, ToDeleted(live))
    decreases |txns|
  {
    if txns == [] {
    } else {
      NetByMovement(txns[..|txns| - 1], live);
    }
  }

  /** Total = live initial balances + income - expense + transfers arriving from deleted accounts
      - transfers leaving to them; transfers between live accounts cancel. */
  lemma TotalByMovement(b: Books)
    requires UniqueAccounts(b.accounts) && RowsShaped(b.txns)
    ensures var live := LiveIds(b.accounts);
            TotalBalance(b.accounts, b.txns)
            == LiveInitial(b.accounts) + SumIf(b.txns, IncomeOf(live)) - SumIf(b.txns, ExpenseOf(live))
             + SumIf(b.txns, FromDeleted(live)) - SumIf(b.txns, ToDeleted(live))
  {
    TotalIsConserved(b.accounts, b.txns);
    NetByMovement(b.txns, LiveIds(b.accounts));
  }

  // ---- operations ----

  function FindAccount(accounts: seq<AccountRow>, id: Id): Option<nat> {
    if accounts == [] then None
    else if accounts[|accounts| - 1].id == id then Some(|accounts| - 1)
    else FindAccount(accounts[..|accounts| - 1], id)
  }

  function FindTx(txns: seq<TxRow>, id: Id): Option<nat> {
    if txns == [] then None
    else if txns[|txns| - 1].id == id then Some(|txns| - 1)
    else FindTx(txns[..|txns| - 1], id)
  }

  lemma {:induction false} FindAccountFinds(accounts: seq<AccountRow>, id: Id)
    ensures match FindAccount(accounts, id)
            case Some(i) => i < |accounts| && accounts[i].id == id
            case None => forall i :: 0 <= i < |accounts| ==> accounts[i].id != id
    decreases |accounts|
  {
    if accounts == [] {
    } else {
      FindAccountFinds(accounts[..|accounts| - 1], id);
    }
  }

  lemma {:induction false} FindTxFinds(txns: seq<TxRow>, id: Id)
    ensures match FindTx(txns, id)
            case Some(i) => i < |txns| && txns[i].id == id
            case None => forall i :: 0 <= i < |txns| ==> txns[i].id != id
    decreases |txns|
  {
    if txns == [] {
    } else {
      FindTxFinds(txns[..|txns| - 1], id);
    }
  }

  /** The foreign keys: both accounts and the category have a row, deleted or not. */
  predicate References(b: Books, t: Tx) {
    && FindAccount(b.accounts, t.account).Some?
    && (t.toAccount.Some? ==> FindAccount(b.accounts, t.toAccount.value).Some?)
    && (t.category.Some? ==> t.category.value in b.categories)
  }

  datatype Op =
    | CreateAccount(id: Id, name: string, initial: int)
    | UpdateAccount(id: Id, name: string, initial: int)
    | DeleteAccount(id: Id)
    | CreateCategory(id: Id)
    | CreateTx(id: Id, tx: Tx)
    | UpdateTx(id: Id, tx: Tx)
    | DeleteTx(id: Id)

  /** One statement against the two tables. A violated key or check leaves them as they were. */
  function Apply(b: Books, op: Op): Result<Books> {
    match op
    case CreateAccount(id, name, initial) =>
      if FindAccount(b.accounts, id).Some? then Err(Constraint)
      else Ok(b.(accounts := b.accounts + [AccountRow(id, name, initial, false)]))
    case UpdateAccount(id, name, initial) =>
      FindAccountFinds(b.accounts, id);
      (match FindAccount(b.accounts, id)
       case Some(i) =>
         if b.accounts[i].deleted then Err(NotFound)
         else Ok(b.(accounts := b.accounts[i := AccountRow(id, name, initial, false)]))
       case None => Err(NotFound))
    case DeleteAccount(id) =>
      FindAccountFinds(b.accounts, id);
      (match FindAccount(b.accounts, id)
       case Some(i) =>
         if b.accounts[i].deleted then Err(NotFound)
         else Ok(b.(accounts := b.accounts[i := b.accounts[i].(deleted := true)]))
       case None => Err(NotFound))
    case CreateCategory(id) =>
      if id in b.categories then Err(Constraint) else Ok(b.(categories := b.categories + {id}))
    case CreateTx(id, tx) =>
      if FindTx(b.txns, id).Some? || !ShapeOk(tx) || !References(b, tx) then Err(Constraint)
      else Ok(b.(txns := b.txns + [TxRow(id, tx, false)]))
    case UpdateTx(id, tx) =>
      FindTxFinds(b.txns, id);
      (match FindTx(b.txns, id)
       case Some(i) =>
         if b.txns[i].deleted then Err(NotFound)
         else if !ShapeOk(tx) || !References(b, tx) then Err(Constraint)
         else Ok(b.(txns := b.txns[i := TxRow(id, tx, false)]))
       case None => Err(NotFound))
    case DeleteTx(id) =>
      FindTxFinds(b.txns, id);
      (match FindTx(b.txns, id)
       case Some(i) =>
         if b.txns[i].deleted then Err(NotFound) else Ok(b.(txns := b.txns[i := b.txns[i].(deleted := true)]))
       case None => Err(NotFound))
  }

  predicate UniqueTxns(txns: seq<TxRow>) {
    forall i, j :: 0 <= i < j < |txns| ==> txns[i].id != txns[j].id
  }

  predicate BooksOk(b: Books) {
    && UniqueAccounts(b.accounts)
    && UniqueTxns(b.txns)
    && RowsShaped(b.txns)
    && forall i :: 0 <= i < |b.txns| ==> References(b, b.txns[i].tx)
  }

  predicate SameIds(before: seq<AccountRow>, after: seq<AccountRow>) {
    |before| <= |after| && forall i :: 0 <= i < |before| ==> after[i].id == before[i].id
  }

  lemma FindAccountKept(before: seq<AccountRow>, after: seq<AccountRow>, id: Id)
    requires SameIds(before, after)
    ensures FindAccount(before, id).Some? ==> FindAccount(after, id).Some?
  {
    hide FindAccount;
    FindAccountFinds(before, id);
    FindAccountFinds(after, id);
  }

  lemma ApplyKeepsOk(b: Books, op: Op)
    requires BooksOk(b) && Apply(b, op).Ok?
    ensures BooksOk(Apply(b, op).value)
  {
    hide ShapeOk, FindAccount, FindTx;
    var c := Apply(b, op).value;
    match op
    case CreateTx(id, tx) => FindTxFinds(b.txns, id);
    case UpdateTx(id, tx) => FindTxFinds(b.txns, id);
    case DeleteTx(id) => FindTxFinds(b.txns, id);
    case CreateAccount(id, _, _) => FindAccountFinds(b.accounts, id); ReferencesKept(b, c);
    case UpdateAccount(id, _, _) => FindAccountFinds(b.accounts, id); ReferencesKept(b, c);
    case DeleteAccount(id) => FindAccountFinds(b.accounts, id); ReferencesKept(b, c);
    case CreateCategory(_) => ReferencesKept(b, c);
  }

  lemma ReferencesKept(b: Books, c: Books)
    requires c.txns == b.txns && forall i :: 0 <= i < |b.txns| ==> References(b, b.txns[i].tx)
    requires SameIds(b.accounts, c.accounts) && b.categories <= c.categories
    ensures forall i :: 0 <= i < |c.txns| ==> References(c, c.txns[i].tx)
  {
    hide FindAccount, SameIds;
    forall id ensures FindAccount(b.accounts, id).Some? ==> FindAccount(c.accounts, id).Some? {
      FindAccountKept(b.accounts, c.accounts, id);
    }
  }

  predicate TouchesAccount(op: Op, id: Id) {
    (op.CreateAccount? || op.UpdateAccount? || op.DeleteAccount?) && op.id == id
  }

  predicate TouchesTx(op: Op, id: Id) {
    (op.CreateTx? || op.UpdateTx? || op.DeleteTx?) && op.id == id
  }

  /** A statement changes at most the row it names: no row disappears or moves, every other row is as it was,
      and whatever is added has the named id. */
  lemma OtherRowsKept(b: Books, op: Op)
    requires Apply(b, op).Ok?
    ensures var c := Apply(b, op).value;
            && |b.accounts| <= |c.accounts| && |b.txns| <= |c.txns| && b.categories <= c.categories
            && (forall i :: 0 <= i < |b.accounts| ==> c.accounts[i].id == b.accounts[i].id)
            && (forall i :: 0 <= i < |b.txns| ==> c.txns[i].id == b.txns[i].id)
            && (forall i :: 0 <= i < |b.accounts| && !TouchesAccount(op, b.accounts[i].id) ==>
                  c.accounts[i] == b.accounts[i])
            && (forall i :: 0 <= i < |b.txns| && !TouchesTx(op, b.txns[i].id) ==> c.txns[i] == b.txns[i])
            && (forall i :: |b.accounts| <= i < |c.accounts| ==> TouchesAccount(op, c.accounts[i].id))
            && (forall i :: |b.txns| <= i < |c.txns| ==> TouchesTx(op, c.txns[i].id))
  {
    hide ShapeOk, FindAccount, FindTx, References;
    match op
    case CreateAccount(id, _, _) =>
    case UpdateAccount(id, _, _) => FindAccountFinds(b.accounts, id);
    case DeleteAccount(id) => FindAccountFinds(b.accounts, id);
    case CreateCategory(_) =>
    case CreateTx(id, _) =>
    case UpdateTx(id, _) => FindTxFinds(b.txns, id);
    case DeleteTx(id) => FindTxFinds(b.txns, id);
  }

  /** The table's CHECKs, as the migration writes them. */
  lemma ShapeIsConstraint(t: Tx)
    ensures ShapeOk(t) <==>
            && t.amount > 0
            && ((t.kind == Transfer && t.toAccount.Some? && t.toAccount.value != t.account && t.category.None?)
                || (t.kind != Transfer && t.toAccount.None?))
  {
  }

  /** The table's foreign keys. */
  lemma ReferencesAreRows(b: Books, t: Tx)
    ensures References(b, t) <==>
            && (exists i :: 0 <= i < |b.accounts| && b.accounts[i].id == t.account)
            && (t.toAccount.Some? ==> exists i :: 0 <= i < |b.accounts| && b.accounts[i].id == t.toAccount.value)
            && (t.category.Some? ==> t.category.value in b.categories)
  {
    hide FindAccount;
    FindAccountFinds(b.accounts, t.account);
    if t.toAccount.Some? { FindAccountFinds(b.accounts, t.toAccount.value); }
  }

  // ---- what each statement does, row by row ----

  /** Position i holds the live account with this id. */
  predicate LiveAccount(b: Books, i: int, id: Id) {
    0 <= i < |b.accounts| && b.accounts[i].id == id && !b.accounts[i].deleted
  }

  predicate LiveTx(b: Books, i: int, id: Id) {
    0 <= i < |b.txns| && b.txns[i].id == id && !b.txns[i].deleted
  }

  /** With unique ids, a lookup finds the position of a row. */
  lemma FindAccountAt(accounts: seq<AccountRow>, i: nat)
    requires UniqueAccounts(accounts) && i < |accounts|
    ensures FindAccount(accounts, accounts[i].id) == Some(i)
  {
    hide FindAccount;
    FindAccountFinds(accounts, accounts[i].id);
  }

  lemma FindTxAt(txns: seq<TxRow>, i: nat)
    requires UniqueTxns(txns) && i < |txns|
    ensures FindTx(txns, txns[i].id) == Some(i)
  {
    hide FindTx;
    FindTxFinds(txns, txns[i].id);
  }

  /** Creating an account succeeds if and only if the id is new, and adds a live row with the initial balance. */
  lemma CreateAccountMeans(b: Books, id: Id, name: string, initial: int)
    ensures var res := Apply(b, CreateAccount(id, name, initial));
            && (res.Ok? <==> forall i :: 0 <= i < |b.accounts| ==> b.accounts[i].id != id)
            && (res.Err? ==> res.error == Constraint)
            && (res.Ok? ==>
                  res.value == Books(b.accounts + [AccountRow(id, name, initial, false)], b.categories, b.txns))
  {
    hide FindAccount;
    FindAccountFinds(b.accounts, id);
  }

  /** Updating an account succeeds if and only if a live row has the id, and stores name and initial balance there. */
  lemma UpdateAccountMeans(b: Books, id: Id, name: string, initial: int)
    requires UniqueAccounts(b.accounts)
    ensures var res := Apply(b, UpdateAccount(id, name, initial));
            && (res.Ok? <==> exists i :: LiveAccount(b, i, id))
            && (res.Err? ==> res.error == NotFound)
            && (forall i :: res.Ok? && LiveAccount(b, i, id) ==>
                  res.value == Books(b.accounts[i := AccountRow(id, name, initial, false)], b.categories, b.txns))
  {
    hide FindAccount;
    FindAccountFinds(b.accounts, id);
    forall i | LiveAccount(b, i, id) ensures FindAccount(b.accounts, id) == Some(i) { FindAccountAt(b.accounts, i); }
    var found := FindAccount(b.accounts, id);
    if found.Some? && !b.accounts[found.value].deleted { assert LiveAccount(b, found.value, id); }
  }

  /** A new category can be referenced from then on. */
  lemma CreateCategoryMeans(b: Books, id: Id)
    ensures var res := Apply(b, CreateCategory(id));
            && (res.Ok? <==> id !in b.categories)
            && (res.Ok? ==> res.value == Books(b.accounts, b.categories + {id}, b.txns))
  {
  }

  /** A transaction is created if and only if its id is new, its shape is right and its references exist. */
  lemma CreateTxMeans(b: Books, id: Id, tx: Tx)
    ensures var res := Apply(b, CreateTx(id, tx));
            && (res.Ok? <==> (forall i :: 0 <= i < |b.txns| ==> b.txns[i].id != id) && ShapeOk(tx) && References(b, tx))
            && (res.Err? ==> res.error == Constraint)
            && (res.Ok? ==> res.value == Books(b.accounts, b.categories, b.txns + [TxRow(id, tx, false)]))
  {
    hide FindTx, ShapeOk, References;
    FindTxFinds(b.txns, id);
  }

  /** An update succeeds if and only if a live row has the id and the new values keep shape and foreign keys; it
      replaces every column of that row. */
  lemma UpdateTxMeans(b: Books, id: Id, tx: Tx)
    requires UniqueTxns(b.txns)
    ensures var res := Apply(b, UpdateTx(id, tx));
            && (res.Ok? <==> (exists i :: LiveTx(b, i, id)) && ShapeOk(tx) && References(b, tx))
            && (res.Err? ==> res.error == if exists i :: LiveTx(b, i, id) then Constraint else NotFound)
            && (forall i :: res.Ok? && LiveTx(b, i, id) ==>
                  res.value == Books(b.accounts, b.categories, b.txns[i := TxRow(id, tx, false)]))
  {
    hide FindTx, ShapeOk, References;
    FindTxFinds(b.txns, id);
    forall i | LiveTx(b, i, id) ensures FindTx(b.txns, id) == Some(i) { FindTxAt(b.txns, i); }
    var found := FindTx(b.txns, id);
    if found.Some? && !b.txns[found.value].deleted { assert LiveTx(b, found.value, id); }
  }

  /** A soft delete succeeds if and only if a live row has the id, and marks it, wherever it is. */
  lemma DeleteTxMeans(b: Books, id: Id)
    requires UniqueTxns(b.txns)
    ensures var res := Apply(b, DeleteTx(id));
            && (res.Ok? <==> exists i :: LiveTx(b, i, id))
            && (res.Err? ==> res.error == NotFound)
            && (forall i :: res.Ok? && LiveTx(b, i, id) ==>
                  res.value == Books(b.accounts, b.categories, b.txns[i := TxRow(id, b.txns[i].tx, true)]))
  {
    hide FindTx;
    FindTxFinds(b.txns, id);
    forall i | LiveTx(b, i, id) ensures FindTx(b.txns, id) == Some(i) { FindTxAt(b.txns, i); }
    var found := FindTx(b.txns, id);
    if found.Some? && !b.txns[found.value].deleted { assert LiveTx(b, found.value, id); }
  }

  lemma DeleteAccountMeans(b: Books, id: Id)
    requires UniqueAccounts(b.accounts)
    ensures var res := Apply(b, DeleteAccount(id));
            && (res.Ok? <==> exists i :: LiveAccount(b, i, id))
            && (res.Err? ==> res.error == NotFound)
            && (forall i :: res.Ok? && LiveAccount(b, i, id) ==>
                  res.value == Books(b.accounts[i := b.accounts[i].(deleted := true)], b.categories, b.txns))
  {
    hide FindAccount;
    FindAccountFinds(b.accounts, id);
    forall i | LiveAccount(b, i, id) ensures FindAccount(b.accounts, id) == Some(i) { FindAccountAt(b.accounts, i); }
    var found := FindAccount(b.accounts, id);
    if found.Some? && !b.accounts[found.value].deleted { assert LiveAccount(b, found.value, id); }
  }

  function Run(b: Books, ops: seq<Op>): Books {
    if ops == [] then b
    else
      var before := Run(b, ops[..|ops| - 1]);
      match Apply(before, ops[|ops| - 1])
      case Ok(after) => after
      case Err(_) => before
  }

  /** Over every run from empty tables, refused statements included, the tables stay consistent
      and the total obeys the conservation law. */
  lemma {:induction false} EveryRunConserves(ops: seq<Op>)
    ensures var b := Run(Books([], {}, []), ops);
            var live := LiveIds(b.accounts);
            && BooksOk(b)
            && TotalBalance(b.accounts, b.txns)
               == LiveInitial(b.accounts) + SumIf(b.txns, IncomeOf(live)) - SumIf(b.txns, ExpenseOf(live))
                + SumIf(b.txns, FromDeleted(live)) - SumIf(b.txns, ToDeleted(live))
    decreases |ops|
  {
    hide Apply, TotalBalance, LiveInitial, SumIf, References;
    var b := Run(Books([], {}, []), ops);
    if ops == [] {
    } else {
      EveryRunConserves(ops[..|ops| - 1]);
      var before := Run(Books([], {}, []), ops[..|ops| - 1]);
      if Apply(before, ops[|ops| - 1]).Ok? { ApplyKeepsOk(before, ops[|ops| - 1]); }
    }
    TotalByMovement(b);
  }

  // ---- what each operation does to balances ----

  lemma {:induction false} NetEffectUpdate(txns: seq<TxRow>, i: nat, row: TxRow, a: Id)
    requires i < |txns|
    ensures NetEffect(txns[i := row], a) == NetEffect(txns, a) - RowEffect(txns[i], a) + RowEffect(row, a)
    decreases |txns|
  {
    var n := |txns| - 1;
    if i == n {
      assert txns[i := row][..n] == txns[..n];
    } else {
      assert txns[i := row][..n] == txns[..n][i := row];
      NetEffectUpdate(txns[..n], i, row, a);
    }
  }

  /** An update undoes the old transaction's effect and applies the new one's, on every account;
      accounts that neither names keep their balance. */
  lemma UpdateMovesBalances(b: Books, id: Id, tx: Tx, acc: AccountRow)
    requires BooksOk(b) && Apply(b, UpdateTx(id, tx)).Ok?
    ensures var after := Apply(b, UpdateTx(id, tx)).value;
            exists i :: 0 <= i < |b.txns| && b.txns[i].id == id && !b.txns[i].deleted
              && Balance(acc, after.txns)
                 == Balance(acc, b.txns) - RowEffect(b.txns[i], acc.id) + RowEffect(TxRow(id, tx, false), acc.id)
              && (!Touches(b.txns[i].tx, acc.id) && !Touches(tx, acc.id) ==>
                    Balance(acc, after.txns) == Balance(acc, b.txns))
  {
    hide ShapeOk, Balance, References;
    FindTxFinds(b.txns, id);
    ApplyKeepsOk(b, UpdateTx(id, tx));
    var i := FindTx(b.txns, id).value;
    NetEffectUpdate(b.txns, i, TxRow(id, tx, false), acc.id);
    BalanceIsNetEffect(acc, b.txns);
    BalanceIsNetEffect(acc, Apply(b, UpdateTx(id, tx)).value.txns);
  }

  lemma NetEffectAppend(txns: seq<TxRow>, row: TxRow, a: Id)
    ensures NetEffect(txns + [row], a) == NetEffect(txns, a) + RowEffect(row, a)
  {
    assert (txns + [row])[..|txns|] == txns;
  }

  lemma DeleteUndoesCreate(b: Books, id: Id, tx: Tx)
    requires BooksOk(b) && Apply(b, CreateTx(id, tx)).Ok?
    ensures Apply(Apply(b, CreateTx(id, tx)).value, DeleteTx(id)) == Ok(b.(txns := b.txns + [TxRow(id, tx, true)]))
  {
    hide ShapeOk, References, FindTx;
    var created := Apply(b, CreateTx(id, tx)).value;
    ApplyKeepsOk(b, CreateTx(id, tx));
    FindTxFinds(created.txns, id);
    assert created.txns[|b.txns|].id == id;
    assert FindTx(created.txns, id) == Some(|b.txns|);
    assert created.txns[|b.txns| := TxRow(id, tx, true)] == b.txns + [TxRow(id, tx, true)];
  }

  /** Creating a transaction applies its effect; soft-deleting it restores every balance. */
  lemma CreateThenDeleteRestores(b: Books, id: Id, tx: Tx, acc: AccountRow)
    requires BooksOk(b) && Apply(b, CreateTx(id, tx)).Ok?
    ensures var created := Apply(b, CreateTx(id, tx)).value;
            && Balance(acc, created.txns) == Balance(acc, b.txns) + RowEffect(TxRow(id, tx, false), acc.id)
            && Apply(created, DeleteTx(id)).Ok?
            && Balance(acc, Apply(created, DeleteTx(id)).value.txns) == Balance(acc, b.txns)
  {
    hide Balance, References, NetEffect, FindTx, Touches, SignedFor;
    DeleteUndoesCreate(b, id, tx);
    NetEffectAppend(b.txns, TxRow(id, tx, false), acc.id);
    NetEffectAppend(b.txns, TxRow(id, tx, true), acc.id);
    BalanceIsNetEffect(acc, b.txns);
    BalanceIsNetEffect(acc, b.txns + [TxRow(id, tx, false)]);
    BalanceIsNetEffect(acc, b.txns + [TxRow(id, tx, true)]);
  }

  /** Soft-deleting any transaction takes exactly its effect out of every balance. */
  lemma DeleteRemovesEffect(b: Books, i: nat, acc: AccountRow)
    requires BooksOk(b) && i < |b.txns| && !b.txns[i].deleted
    ensures var res := Apply(b, DeleteTx(b.txns[i].id));
            && res.Ok?
            && Balance(acc, res.value.txns) == Balance(acc, b.txns) - RowEffect(b.txns[i], acc.id)
  {
    hide Balance, References, NetEffect, ShapeOk, SignedFor;
    var id := b.txns[i].id;
    DeleteTxMeans(b, id);
    assert LiveTx(b, i, id);
    ApplyKeepsOk(b, DeleteTx(id));
    NetEffectUpdate(b.txns, i, TxRow(id, b.txns[i].tx, true), acc.id);
    BalanceIsNetEffect(acc, b.txns);
    BalanceIsNetEffect(acc, Apply(b, DeleteTx(id)).value.txns);
  }

  lemma {:induction false} TotalReplaces(accounts: seq<AccountRow>, txns: seq<TxRow>, i: nat, row: AccountRow)
    requires i < |accounts| && !accounts[i].deleted && !row.deleted
    ensures TotalBalance(accounts[i := row], txns)
         == TotalBalance(accounts, txns) - Balance(accounts[i], txns) + Balance(row, txns)
    decreases |accounts|
  {
    hide Balance;
    var n := |accounts| - 1;
    if i == n {
      assert accounts[i := row][..n] == accounts[..n];
    } else {
      assert accounts[i := row][..n] == accounts[..n][i := row];
      TotalReplaces(accounts[..n], txns, i, row);
    }
  }

  /** Editing an account's initial balance moves its balance and the total by the difference. */
  lemma UpdateAccountMovesTotal(b: Books, i: nat, name: string, initial: int)
    requires UniqueAccounts(b.accounts) && i < |b.accounts| && !b.accounts[i].deleted
    ensures var res := Apply(b, UpdateAccount(b.accounts[i].id, name, initial));
            && res.Ok?
            && TotalBalance(res.value.accounts, b.txns)
               == TotalBalance(b.accounts, b.txns) + initial - b.accounts[i].initial
  {
    hide TotalBalance, CaseSum, LeftJoin;
    UpdateAccountMeans(b, b.accounts[i].id, name, initial);
    assert LiveAccount(b, i, b.accounts[i].id);
    TotalReplaces(b.accounts, b.txns, i, AccountRow(b.accounts[i].id, name, initial, false));
  }

  lemma {:induction false} TotalOmitsDeleted(accounts: seq<AccountRow>, txns: seq<TxRow>, i: nat)
    requires i < |accounts| && !accounts[i].deleted
    ensures TotalBalance(accounts[i := accounts[i].(deleted := true)], txns)
         == TotalBalance(accounts, txns) - Balance(accounts[i], txns)
    decreases |accounts|
  {
    hide Balance;
    var n := |accounts| - 1;
    var closed := accounts[i].(deleted := true);
    if i == n {
      assert accounts[i := closed][..n] == accounts[..n];
    } else {
      assert accounts[i := closed][..n] == accounts[..n][i := closed];
      TotalOmitsDeleted(accounts[..n], txns, i);
    }
  }

  /** Soft-deleting an account lowers the total by exactly that account's balance. */
  lemma DeleteAccountRemovesItsBalance(b: Books, id: Id)
    requires Apply(b, DeleteAccount(id)).Ok?
    ensures exists i :: 0 <= i < |b.accounts| && b.accounts[i].id == id && !b.accounts[i].deleted
              && TotalBalance(Apply(b, DeleteAccount(id)).value.accounts, b.txns)
                 == TotalBalance(b.accounts, b.txns) - Balance(b.accounts[i], b.txns)
  {
    hide TotalBalance, Balance;
    FindAccountFinds(b.accounts, id);
    TotalOmitsDeleted(b.accounts, b.txns, FindAccount(b.accounts, id).value);
  }
}
