/** Committing a previewed import, and importing the same file a second time. */
module ImportCommit {
  import opened Calendar
  import opened Domain
  import opened Text
  import opened Digits
  import opened Money
  import opened MoneyLaws
  import opened Ledger
  import opened TransactionRepo
  import opened CsvPort
  import opened RuleService
  import opened Import

  // ---- from a previewed row to a transaction ----

  datatype TxInput = TxInput(
    kind: string,
    amount: int,
    accountId: string,
    toAccountId: string,
    categoryId: string,
    occurredAt: Day,
    note: string)

  function TxToDomain(input: TxInput): Result<Tx> {
    if ParseKind(input.kind).None? then Err(Invalid)
    else if input.amount <= 0 then Err(Invalid)
    else if input.accountId == "" then Err(Invalid)
    else if input.occurredAt == ZERO_DAY then Err(Invalid)
    else
      var kind := ParseKind(input.kind).value;
      var t := Tx(kind, input.amount, input.accountId, None, None, input.occurredAt, TrimSpace(input.note));
      if kind == Transfer then
        if input.toAccountId == "" || input.toAccountId == input.accountId then Err(Invalid)
        else Ok(t.(toAccount := Some(input.toAccountId)))
      else Ok(t.(category := if input.categoryId != "" then Some(input.categoryId) else None))
  }

  /** The form refuses exactly what the table's checks would refuse, and the missing values. */
  lemma AcceptedTxIsShaped(input: TxInput)
    ensures TxToDomain(input).Ok? ==> ShapeOk(TxToDomain(input).value)
    ensures TxToDomain(input).Ok? <==>
            && ParseKind(input.kind).Some? && input.amount > 0 && input.accountId != "" && input.occurredAt != ZERO_DAY
            && (input.kind == "transfer" ==> input.toAccountId != "" && input.toAccountId != input.accountId)
  {
    hide TrimSpace;
  }

  /** One row of the posted form: everything is text. */
  datatype FormRow = FormRow(
    kind: string,
    amount: string,
    account: string,
    toAccount: string,
    category: string,
    date: string,
    note: string)

  /** How the preview page writes an amount into the form. The template writes the minor units;
      Exact writes units and sen, as Parse expects them. */
  datatype HandOver = MinorUnits | Exact

  function AmountText(h: HandOver, n: nat): string {
    match h
    case MinorUnits => SprintD(n)
    case Exact => Decimal(n / 100) + "," + Two(n % 100)
  }

  function FormOf(h: HandOver, r: ImportRow): FormRow
  {
    FormRow(r.kind, AmountText(h, r.amount), r.accountId, r.toAccountId, r.categoryId,
            FormatDate(r.occurredAt), r.raw.note)
  }

  /** What Commit makes of one posted row, up to the insert. */
  function PostedTx(f: FormRow): Result<Tx> {
    var amt := ParseText(f.amount);
    if amt.Err? then Err(Invalid)
    else
      var occ := ParseLayout(0, f.date);
      if occ.None? then Err(Invalid)
      else TxToDomain(TxInput(f.kind, amt.value, f.account, f.toAccount, f.category, occ.value, f.note))
  }

  function CommitRow(b: Books, f: FormRow, id: Id): Books {
    match PostedTx(f)
    case Err(_) => b
    case Ok(tx) =>
      match Apply(b, CreateTx(id, tx))
      case Ok(after) => after
      case Err(_) => b
  }

  /** Each row on its own: a refused row does not stop the rows after it. */
  function CommitRows(b: Books, forms: seq<FormRow>, ids: seq<Id>): Books
    requires |ids| == |forms|
  {
    if forms == [] then b
    else
      var n := |forms| - 1;
      CommitRow(CommitRows(b, forms[..n], ids[..n]), forms[n], ids[n])
  }

  /** The Commit loop; ids are the ones the database would generate. */
  method Commit(db: Database, forms: seq<FormRow>, ids: seq<Id>) returns (created: nat, failed: nat)
    requires |ids| == |forms| && BooksOk(db.Tables())
    modifies db
    ensures db.Tables() == CommitRows(old(db.Tables()), forms, ids)
    ensures BooksOk(db.Tables()) && old(db.txns) <= db.txns
    ensures db.accounts == old(db.accounts) && db.categories == old(db.categories)
    ensures created == |db.txns| - |old(db.txns)| && created + failed == |forms|
  {
    hide Balance, RowEffect, ParseText, ParseLayout, TxToDomain, BooksOk, ShapeOk, References;
    created, failed := 0, 0;
    var i := 0;
    while i < |forms|
      invariant 0 <= i <= |forms|
      invariant db.Tables() == CommitRows(old(db.Tables()), forms[..i], ids[..i])
      invariant BooksOk(db.Tables()) && old(db.txns) <= db.txns
      invariant db.accounts == old(db.accounts) && db.categories == old(db.categories)
      invariant created == |db.txns| - |old(db.txns)| && created + failed == i
    {
      var f := forms[i];
      assert forms[..i + 1][..i] == forms[..i] && ids[..i + 1][..i] == ids[..i];
      ghost var before := db.Tables();
      ghost var next := CommitRow(before, f, ids[i]);
      assert CommitRows(old(db.Tables()), forms[..i + 1], ids[..i + 1]) == next;
      i := i + 1;
      var amt := Parse(f.amount);
      if amt.Err? { failed := failed + 1; continue; }
      var occ := ParseLayout(0, f.date);
      if occ.None? { failed := failed + 1; continue; }
      var tx := TxToDomain(TxInput(f.kind, amt.value, f.account, f.toAccount, f.category, occ.value, f.note));
      if tx.Err? { failed := failed + 1; continue; }
      InsertOutcome(before, ids[i - 1], tx.value);
      var res := db.Exec(CreateTx(ids[i - 1], tx.value));
      if res.Err? { failed := failed + 1; continue; }
      created := created + 1;
    }
    assert forms[..i] == forms && ids[..i] == ids;
  }

  lemma InsertOutcome(b: Books, id: Id, tx: Tx)
    requires BooksOk(b)
    ensures var res := Apply(b, CreateTx(id, tx));
            res.Ok? ==> BooksOk(res.value) && res.value == b.(txns := b.txns + [TxRow(id, tx, false)])
  {
    hide ShapeOk, References;
    if Apply(b, CreateTx(id, tx)).Ok? { ApplyKeepsOk(b, CreateTx(id, tx)); }
  }

  // ---- the amount that arrives ----

  /** The amount Commit reads from the form. */
  function Handed(h: HandOver, n: int): int {
    match h
    case MinorUnits => Wrap(100 * n)
    case Exact => n
  }

  lemma PlainBody(t: string)
    requires t != [] && IsDigit(t[0]) && IsDigit(t[|t| - 1]) && forall i :: 0 <= i < |t| ==> t[i] != '.'
    ensures TrimSpace(t) == t && Body(t) == t && !("-" <= t)
  {
    hide TrimSpace, RemoveDots;
    TrimmedUnchanged(t);
    RemoveNoDots(t);
    assert t[0] != '-' && t[0] != 'R';
  }

  lemma ExactParses(n: nat)
    requires n <= MAX_INT64
    ensures ParseText(AmountText(Exact, n)) == Ok(n)
  {
    hide TrimSpace, Decimal, Body, Wrap, IndexByte;
    var w, f := Decimal(n / 100), Two(n % 100);
    var t := w + "," + f;
    DecimalIsNumeral(n / 100);
    assert IsDigit(f[0]) && IsDigit(f[1]);
    PlainBody(t);
    CommaAt(w, f);
    assert Whole(t) == w && Fraction(t) == f && Cents(f) == f;
    assert CentsValue(f) == n % 100;
    assert Meaning(t) == n;
    WrapIsExactIffInRange(n);
  }

  lemma HandedAmount(h: HandOver, n: nat)
    requires n <= MAX_INT64
    ensures ParseText(AmountText(h, n)) == Ok(Handed(h, n))
  {
    hide ParseText, Wrap;
    if h == Exact { ExactParses(n); } else { ParseOfDecimal(n); }
  }

  /** The template's hand-over never carries an amount: what Commit reads always differs. */
  lemma MinorUnitsNeverArrive(n: int)
    ensures 0 < n <= MAX_INT64 ==> Handed(MinorUnits, n) != n
  {
    var q := (100 * n - MIN_INT64) / TWO_64;
    assert Wrap(100 * n) == 100 * n - q * TWO_64;
  }

  // ---- what the ledger holds after a commit ----

  predicate FreshIds(txns: seq<TxRow>, ids: seq<Id>) {
    && (forall j :: 0 <= j < |ids| ==> FindTx(txns, ids[j]).None?)
    && forall j, k :: 0 <= j < k < |ids| ==> ids[j] != ids[k]
  }

  /** The row is accepted by the form checks and by the foreign keys. */
  predicate Accepted(b: Books, f: FormRow): (ok: bool)
    ensures ok ==> PostedTx(f).Ok?
  {
    PostedTx(f).Ok? && References(b, PostedTx(f).value)
  }

  predicate CreatedKey(lower: string -> string, b: Books, forms: seq<FormRow>, key: string) {
    exists j :: 0 <= j < |forms| && Accepted(b, forms[j]) && TxKey(lower, PostedTx(forms[j]).value) == key
  }

  lemma AcceptedSame(b: Books, c: Books, f: FormRow)
    requires c.accounts == b.accounts && c.categories == b.categories
    ensures Accepted(b, f) == Accepted(c, f)
  {
    hide PostedTx, FindAccount;
  }

  lemma CommitRowInserts(b: Books, f: FormRow, id: Id)
    requires BooksOk(b) && FindTx(b.txns, id).None?
    ensures BooksOk(CommitRow(b, f, id))
    ensures CommitRow(b, f, id)
         == if Accepted(b, f) then b.(txns := b.txns + [TxRow(id, PostedTx(f).value, false)]) else b
  {
    hide ParseText, ParseLayout, ShapeOk, References, BooksOk;
    if PostedTx(f).Ok? {
      PostedIsShaped(f);
      InsertOutcome(b, id, PostedTx(f).value);
    }
  }

  lemma PostedIsShaped(f: FormRow)
    ensures PostedTx(f).Ok? ==> ShapeOk(PostedTx(f).value)
  {
    hide ParseText, ParseLayout, ShapeOk, TxToDomain;
    var amt, occ := ParseText(f.amount), ParseLayout(0, f.date);
    if amt.Ok? && occ.Some? {
      AcceptedTxIsShaped(TxInput(f.kind, amt.value, f.account, f.toAccount, f.category, occ.value, f.note));
    }
  }

  /** Only the ISO text of its own date gets a row in, whatever a file might have called it. */
  lemma PostedDateIsIso(f: FormRow)
    ensures PostedTx(f).Ok? ==> f.date == FormatDate(PostedTx(f).value.occurredAt)
  {
    hide ParseText, ParseLayout, FormatDate, TrimSpace, FourDigitYear;
    var occ := ParseLayout(0, f.date);
    if occ.Some? { IsoIff(f.date, occ.value); }
  }

  lemma FreshAfterRow(txns: seq<TxRow>, row: TxRow, id: Id)
    requires FindTx(txns, id).None? && row.id != id
    ensures FindTx(txns + [row], id).None?
  {
    hide FindTx;
    FindTxFinds(txns, id);
    FindTxFinds(txns + [row], id);
  }

  lemma InLedgerAppend(lower: string -> string, txns: seq<TxRow>, row: TxRow, key: string)
    requires !row.deleted
    ensures InLedger(lower, txns + [row], key) <==> InLedger(lower, txns, key) || TxKey(lower, row.tx) == key
  {
    hide TxKey;
    var t := txns + [row];
    assert t[|txns|] == row;
    if InLedger(lower, txns, key) {
      var i :| 0 <= i < |txns| && !txns[i].deleted && TxKey(lower, txns[i].tx) == key;
      assert !t[i].deleted && TxKey(lower, t[i].tx) == key;
    }
  }

  lemma CreatedKeyStep(lower: string -> string, b: Books, forms: seq<FormRow>, key: string)
    requires forms != []
    ensures var f := forms[|forms| - 1];
            CreatedKey(lower, b, forms, key) <==>
            || CreatedKey(lower, b, forms[..|forms| - 1], key)
            || (Accepted(b, f) && TxKey(lower, PostedTx(f).value) == key)
  {
    hide TxKey, Accepted, PostedTx;
    var n := |forms| - 1;
    if CreatedKey(lower, b, forms[..n], key) {
      var j :| 0 <= j < n && Accepted(b, forms[..n][j]) && TxKey(lower, PostedTx(forms[..n][j]).value) == key;
      assert Accepted(b, forms[j]) && TxKey(lower, PostedTx(forms[j]).value) == key;
    }
    if CreatedKey(lower, b, forms, key) {
      var j :| 0 <= j < |forms| && Accepted(b, forms[j]) && TxKey(lower, PostedTx(forms[j]).value) == key;
      if j < n { assert forms[..n][j] == forms[j]; }
    }
  }

  /** After a commit a key is in the ledger iff it was before, or an accepted row created it;
      accounts are untouched. */
  lemma {:induction false} CommitAddsKeys(lower: string -> string, b: Books, forms: seq<FormRow>, ids: seq<Id>,
                                          key: string)
    requires BooksOk(b) && |ids| == |forms| && FreshIds(b.txns, ids)
    ensures var after := CommitRows(b, forms, ids);
            && BooksOk(after) && after.accounts == b.accounts && after.categories == b.categories
            && (forall id :: FindTx(b.txns, id).None? && id !in ids ==> FindTx(after.txns, id).None?)
            && (InLedger(lower, after.txns, key) <==> InLedger(lower, b.txns, key) || CreatedKey(lower, b, forms, key))
    decreases |forms|
  {
    hide BooksOk, InLedger, CreatedKey, FindTx, Accepted, TxKey, CommitRow, PostedTx;
    if forms == [] {
      NoKeysCreated(lower, b, key);
    } else {
      var n := |forms| - 1;
      var f, id := forms[n], ids[n];
      assert forall j :: 0 <= j < n ==> ids[..n][j] == ids[j];
      CommitAddsKeys(lower, b, forms[..n], ids[..n], key);
      var before := CommitRows(b, forms[..n], ids[..n]);
      assert id !in ids[..n];
      CommitRowInserts(before, f, id);
      AcceptedSame(b, before, f);
      CreatedKeyStep(lower, b, forms, key);
      if Accepted(b, f) {
        var row := TxRow(id, PostedTx(f).value, false);
        InLedgerAppend(lower, before.txns, row, key);
        assert ids == ids[..n] + [id];
        forall x | FindTx(b.txns, x).None? && x !in ids ensures FindTx(before.txns + [row], x).None? {
          FreshAfterRow(before.txns, row, x);
        }
      }
    }
  }

  lemma NoKeysCreated(lower: string -> string, b: Books, key: string)
    ensures !CreatedKey(lower, b, [], key)
  {
  }

  // ---- the form of the default selection ----

  /** The rows the page ticks, as posted. */
  function FormsOf(h: HandOver, rows: seq<ImportRow>): seq<FormRow> {
    if rows == [] then []
    else
      var n := |rows| - 1;
      FormsOf(h, rows[..n]) + if Ticked(rows[n]) then [FormOf(h, rows[n])] else []
  }

  lemma {:induction false} FormsAreTicked(h: HandOver, rows: seq<ImportRow>, f: FormRow)
    ensures f in FormsOf(h, rows) <==> exists j :: 0 <= j < |rows| && Ticked(rows[j]) && FormOf(h, rows[j]) == f
    decreases |rows|
  {
    hide FormOf, Ticked, FormsOf;
    if rows == [] {
      NothingPosted(h);
    } else {
      var n := |rows| - 1;
      FormsAreTicked(h, rows[..n], f);
      FormsOfLast(h, rows, f);
      assert forall j :: 0 <= j < n ==> rows[..n][j] == rows[j];
      if j :| 0 <= j < n && Ticked(rows[..n][j]) && FormOf(h, rows[..n][j]) == f {
        assert Ticked(rows[j]) && FormOf(h, rows[j]) == f;
      }
      if j :| 0 <= j < |rows| && Ticked(rows[j]) && FormOf(h, rows[j]) == f {
        if j < n { assert Ticked(rows[..n][j]) && FormOf(h, rows[..n][j]) == f; }
      }
    }
  }

  lemma NothingPosted(h: HandOver)
    ensures FormsOf(h, []) == []
  {
  }

  lemma FormsOfLast(h: HandOver, rows: seq<ImportRow>, f: FormRow)
    requires rows != []
    ensures var n := |rows| - 1;
            f in FormsOf(h, rows) <==> f in FormsOf(h, rows[..n]) || (Ticked(rows[n]) && FormOf(h, rows[n]) == f)
  {
    hide FormOf, Ticked;
  }

  /** What Preview guarantees of an importable row. */
  predicate Importable(b: Books, r: ImportRow) {
    && ParseKind(r.kind).Some?
    && 0 < r.amount <= MAX_INT64
    && FourDigitYear(r.occurredAt)
    && r.accountId != "" && FindAccount(b.accounts, r.accountId).Some?
    && (r.kind == "transfer" ==> r.toAccountId != "" && FindAccount(b.accounts, r.toAccountId).Some?)
    && (r.categoryId != "" ==> r.categoryId in b.categories)
  }

  /** Importable rows that Create refuses all the same. */
  predicate Rejected(r: ImportRow) {
    (r.kind == "transfer" && r.toAccountId == r.accountId) || r.occurredAt == ZERO_DAY
  }

  /** The key of the transaction a row turns into. */
  function ArrivingKey(lower: string -> string, h: HandOver, r: ImportRow): string {
    DedupKey(lower, r.kind, Handed(h, r.amount), r.occurredAt, r.raw.note)
  }

  /** The previewed row as a transaction, with the amount that arrives. */
  function Arriving(h: HandOver, r: ImportRow): Tx
    requires ParseKind(r.kind).Some?
  {
    var kind := ParseKind(r.kind).value;
    Tx(kind, Handed(h, r.amount), r.accountId,
       if kind == Transfer then Some(r.toAccountId) else None,
       if kind != Transfer && r.categoryId != "" then Some(r.categoryId) else None,
       r.occurredAt, TrimSpace(r.raw.note))
  }

  /** A posted row is accepted iff it is not a self-transfer or undated and its amount arrives positive;
      what it creates has the row's kind, date and note, and the amount that arrived. */
  lemma PostedRow(lower: string -> string, h: HandOver, b: Books, r: ImportRow)
    requires Importable(b, r)
    ensures Accepted(b, FormOf(h, r)) <==> Handed(h, r.amount) > 0 && !Rejected(r)
    ensures Accepted(b, FormOf(h, r)) ==> TxKey(lower, PostedTx(FormOf(h, r)).value) == ArrivingKey(lower, h, r)
    ensures Accepted(b, FormOf(h, r)) ==> PostedTx(FormOf(h, r)).value == Arriving(h, r)
  {
    hide FormatDate, ParseText, ParseLayout, AmountText, Wrap, FindAccount, TrimSpace, SprintD;
    KindOfText(r.kind);
    HandedAmount(h, r.amount);
    DateRoundTrip(r.occurredAt);
    TrimSpaceIdempotent(r.raw.note);
  }

  // ---- importing the same file again ----

  predicate AllImportable(b: Books, rows: seq<ImportRow>) {
    forall i :: 0 <= i < |rows| && OK(rows[i]) ==> Importable(b, rows[i])
  }

  /** Some row ticked at the first import arrives with this key. */
  predicate Arrived(lower: string -> string, h: HandOver, rows: seq<ImportRow>, key: string) {
    exists j :: 0 <= j < |rows| && Ticked(rows[j]) && Handed(h, rows[j].amount) > 0 && !Rejected(rows[j])
                && ArrivingKey(lower, h, rows[j]) == key
  }

  lemma CreatedIsArrived(lower: string -> string, h: HandOver, b: Books, rows: seq<ImportRow>, key: string)
    requires AllImportable(b, rows)
    ensures CreatedKey(lower, b, FormsOf(h, rows), key) <==> Arrived(lower, h, rows, key)
  {
    hide FormsOf, FormOf, Accepted, PostedTx, ArrivingKey, Handed, Rejected, TxKey, Importable;
    var forms := FormsOf(h, rows);
    forall j | 0 <= j < |rows| && Ticked(rows[j])
      ensures FormOf(h, rows[j]) in forms
      ensures Accepted(b, FormOf(h, rows[j])) <==> Handed(h, rows[j].amount) > 0 && !Rejected(rows[j])
      ensures Accepted(b, FormOf(h, rows[j])) ==>
                TxKey(lower, PostedTx(FormOf(h, rows[j])).value) == ArrivingKey(lower, h, rows[j])
    {
      FormsAreTicked(h, rows, FormOf(h, rows[j]));
      PostedRow(lower, h, b, rows[j]);
    }
    forall k | 0 <= k < |forms|
      ensures exists j :: 0 <= j < |rows| && Ticked(rows[j]) && FormOf(h, rows[j]) == forms[k]
    {
      FormsAreTicked(h, rows, forms[k]);
    }
    if CreatedKey(lower, b, forms, key) {
      var k :| 0 <= k < |forms| && Accepted(b, forms[k]) && TxKey(lower, PostedTx(forms[k]).value) == key;
      var j :| 0 <= j < |rows| && Ticked(rows[j]) && FormOf(h, rows[j]) == forms[k];
      assert ArrivingKey(lower, h, rows[j]) == key;
    }
    if Arrived(lower, h, rows, key) {
      var j :| 0 <= j < |rows| && Ticked(rows[j]) && Handed(h, rows[j].amount) > 0 && !Rejected(rows[j])
               && ArrivingKey(lower, h, rows[j]) == key;
      var k :| 0 <= k < |forms| && forms[k] == FormOf(h, rows[j]);
      assert Accepted(b, forms[k]) && TxKey(lower, PostedTx(forms[k]).value) == key;
    }
  }

  lemma ImportableIsResolved(b: Books, rows: seq<ImportRow>)
    requires AllImportable(b, rows)
    ensures AllResolved(rows)
  {
    hide ParseKind, KindText, Civil, FindAccount;
  }

  /** The ledger after previewing `rows` in the window `w` and committing the ticked ones. */
  function Imported(lower: string -> string, h: HandOver, b: Books, rows: seq<ImportRow>, w: Import.Window,
                    ids: seq<Id>): Books
    requires |ids| == |PostedForms(lower, h, b, rows, w)|
  {
    CommitRows(b, PostedForms(lower, h, b, rows, w), ids)
  }

  function PostedForms(lower: string -> string, h: HandOver, b: Books, rows: seq<ImportRow>,
                       w: Import.Window): seq<FormRow> {
    FormsOf(h, Marked(lower, rows, w, b.txns))
  }

  lemma MarkedImportable(lower: string -> string, b: Books, rows: seq<ImportRow>, w: Import.Window)
    requires AllImportable(b, rows)
    ensures AllImportable(b, Marked(lower, rows, w, b.txns))
  {
    hide Flagged, ParseKind, KindText, Civil, FindAccount;
    var first := Marked(lower, rows, w, b.txns);
    forall i | 0 <= i < |first| && OK(first[i]) ensures Importable(b, first[i]) {
      assert OK(rows[i]) && Importable(b, rows[i]);
    }
  }

  /** Which rows the second preview of a file flags, whatever the hand-over. */
  lemma SecondPreview(lower: string -> string, h: HandOver, b: Books, rows: seq<ImportRow>, w: Import.Window,
                      ids: seq<Id>, i: nat)
    requires BooksOk(b) && AllImportable(b, rows) && Covered(rows, w)
    requires |ids| == |PostedForms(lower, h, b, rows, w)| && FreshIds(b.txns, ids)
    requires i < |rows| && OK(rows[i])
    ensures Flagged(lower, rows, w, Imported(lower, h, b, rows, w, ids).txns, i) <==>
            || Flagged(lower, rows, w, b.txns, i)
            || Arrived(lower, h, Marked(lower, rows, w, b.txns), KeyOf(lower, rows[i]))
  {
    hide Flagged, Arrived, AllImportable, KeyOf, InLedger, SeenBefore, FormsOf, Covered, FreshIds, BooksOk,
         CommitRows, AllResolved, Marked;
    var first := Marked(lower, rows, w, b.txns);
    var key := KeyOf(lower, rows[i]);
    var after := Imported(lower, h, b, rows, w, ids);
    ImportableIsResolved(b, rows);
    MarkedImportable(lower, b, rows, w);
    CommitAddsKeys(lower, b, PostedForms(lower, h, b, rows, w), ids, key);
    CreatedIsArrived(lower, h, b, first, key);
    CoveredMeansExact(lower, rows, w, b.txns, i);
    CoveredMeansExact(lower, rows, w, after.txns, i);
  }

  /** With the exact hand-over a second import of the file flags every importable row, but for
      those that Create refused the first time. */
  lemma ExactImportIsIdempotent(lower: string -> string, b: Books, rows: seq<ImportRow>, w: Import.Window,
                                ids: seq<Id>, i: nat)
    requires BooksOk(b) && AllImportable(b, rows) && Covered(rows, w)
    requires |ids| == |PostedForms(lower, Exact, b, rows, w)| && FreshIds(b.txns, ids)
    requires i < |rows| && OK(rows[i])
    ensures Flagged(lower, rows, w, Imported(lower, Exact, b, rows, w, ids).txns, i) <==>
            !(Ticked(Marked(lower, rows, w, b.txns)[i]) && Rejected(rows[i]))
  {
    hide Flagged, Imported, Covered, FreshIds, BooksOk, AllResolved, DedupKey, FindAccount, Civil, ParseKind, KindText;
    var first := Marked(lower, rows, w, b.txns);
    SecondPreview(lower, Exact, b, rows, w, ids, i);
    ImportableIsResolved(b, rows);
    assert KeyOf(lower, rows[i]) == ArrivingKey(lower, Exact, first[i]);
    if Ticked(first[i]) && Arrived(lower, Exact, first, KeyOf(lower, rows[i])) {
      var j :| 0 <= j < |first| && Ticked(first[j]) && Handed(Exact, first[j].amount) > 0 && !Rejected(first[j])
               && ArrivingKey(lower, Exact, first[j]) == KeyOf(lower, rows[i]);
      if i != j { DistinctWhenTicked(lower, rows, w, b.txns, i, j); }
    }
  }

  lemma DistinctWhenTicked(lower: string -> string, rows: seq<ImportRow>, w: Import.Window, txns: seq<TxRow>, i: nat,
                           j: nat)
    requires AllResolved(rows) && Covered(rows, w) && i < |rows| && j < |rows| && i != j
    requires Ticked(Marked(lower, rows, w, txns)[i]) && Ticked(Marked(lower, rows, w, txns)[j])
    ensures KeyOf(lower, rows[i]) != KeyOf(lower, rows[j])
  {
    hide *;
    if i < j { TickedRowsAreNew(lower, rows, w, txns, i, j); } else { TickedRowsAreNew(lower, rows, w, txns, j, i); }
  }

  // ---- the template's hand-over never makes a second import complete ----

  function Pow4(k: nat): (p: nat)
    ensures p > 0
  {
    if k == 0 then 1 else 4 * Pow4(k - 1)
  }

  lemma {:induction false} Pow4Adds(a: nat, b: nat)
    ensures Pow4(a + b) == Pow4(a) * Pow4(b)
  {
    if a == 0 {
    } else {
      Pow4Adds(a - 1, b);
      assert Pow4(a + b) == 4 * (Pow4(a - 1) * Pow4(b)) == 4 * Pow4(a - 1) * Pow4(b);
    }
  }

  lemma Pow4OfWord()
    ensures Pow4(32) == TWO_64
  {
    Pow4Adds(16, 16); Pow4Adds(8, 8); Pow4Adds(4, 4);
    assert Pow4(4) == 256;
  }

  ghost predicate Divides(p: int, x: int) {
    exists q :: x == p * q
  }

  lemma HandedGainsAFactor(n: int, k: nat)
    requires k < 32 && Divides(Pow4(k), n)
    ensures Divides(Pow4(k + 1), Handed(MinorUnits, n))
  {
    var p, rest := Pow4(k), Pow4(31 - k);
    var q :| n == Pow4(k) * q;
    var c := (100 * n - MIN_INT64) / TWO_64;
    assert Pow4(k + 1) == 4 * p;
    assert TWO_64 == 4 * p * rest by { Pow4OfWord(); Pow4Adds(k + 1, 31 - k); }
    FactorOut(p, q, rest, c);
    assert Handed(MinorUnits, n) == 100 * n - c * TWO_64;
  }

  lemma FactorOut(p: int, q: int, rest: int, c: int)
    ensures 100 * (p * q) - c * (4 * p * rest) == (4 * p) * (25 * q - c * rest)
  {
    assert 100 * (p * q) == (4 * p) * (25 * q);
    assert c * (4 * p * rest) == (4 * p) * (c * rest);
  }

  /** Every ticked amount is what some ticked amount turns into. */
  predicate Chained(rows: seq<ImportRow>) {
    forall i :: 0 <= i < |rows| && Ticked(rows[i]) ==>
      exists j :: 0 <= j < |rows| && Ticked(rows[j]) && rows[i].amount == Handed(MinorUnits, rows[j].amount)
  }

  lemma {:induction false} ChainedAmountsDivide(rows: seq<ImportRow>, k: nat)
    requires Chained(rows) && k <= 32
    ensures forall i :: 0 <= i < |rows| && Ticked(rows[i]) ==> Divides(Pow4(k), rows[i].amount)
    decreases k
  {
    hide Divides, Handed;
    if k == 0 {
      forall i | 0 <= i < |rows| ensures Divides(Pow4(0), rows[i].amount) { OneDivides(rows[i].amount); }
    } else {
      ChainedAmountsDivide(rows, k - 1);
      forall i | 0 <= i < |rows| && Ticked(rows[i]) ensures Divides(Pow4(k), rows[i].amount) {
        var j :| 0 <= j < |rows| && Ticked(rows[j]) && rows[i].amount == Handed(MinorUnits, rows[j].amount);
        HandedGainsAFactor(rows[j].amount, k - 1);
      }
    }
  }

  lemma OneDivides(x: int)
    ensures Divides(Pow4(0), x)
  {
    assert x == Pow4(0) * x;
  }

  lemma NothingIsChained(rows: seq<ImportRow>, i: nat)
    requires i < |rows| && Ticked(rows[i]) && 0 < rows[i].amount <= MAX_INT64
    ensures !Chained(rows)
  {
    Pow4OfWord();
    forall q ensures rows[i].amount != TWO_64 * q {}
    assert !Divides(Pow4(32), rows[i].amount);
    if Chained(rows) { ChainedAmountsDivide(rows, 32); }
  }

  /** With the template's hand-over the second import is never all duplicates: whatever the file, if
      the first import ticked anything, some row ticked then is not recognised afterwards. */
  lemma SecondImportMissesARow(lower: string -> string, b: Books, rows: seq<ImportRow>, w: Import.Window, ids: seq<Id>,
                               t: nat)
    requires BooksOk(b) && AllImportable(b, rows) && Covered(rows, w)
    requires |ids| == |PostedForms(lower, MinorUnits, b, rows, w)| && FreshIds(b.txns, ids)
    requires t < |rows| && Ticked(Marked(lower, rows, w, b.txns)[t])
    ensures var first, after := Marked(lower, rows, w, b.txns), Imported(lower, MinorUnits, b, rows, w, ids);
            exists i :: 0 <= i < |rows| && Ticked(first[i]) && !Flagged(lower, rows, w, after.txns, i)
  {
    hide *;
    var first, after := Marked(lower, rows, w, b.txns), Imported(lower, MinorUnits, b, rows, w, ids);
    TickedAmount(lower, b, rows, w, t);
    NothingIsChained(first, t);
    var i := Unchained(first);
    TickedAmount(lower, b, rows, w, i);
    if Flagged(lower, rows, w, after.txns, i) {
      SecondPreview(lower, MinorUnits, b, rows, w, ids, i);
      TickedIsUnflagged(lower, rows, w, b.txns, i);
      var j := ArrivedAmount(lower, b, rows, w, i);
      TickedAmount(lower, b, rows, w, j);
    }
  }

  lemma TickedAmount(lower: string -> string, b: Books, rows: seq<ImportRow>, w: Import.Window, i: nat)
    requires AllImportable(b, rows) && i < |rows| && Ticked(Marked(lower, rows, w, b.txns)[i])
    ensures OK(rows[i]) && Marked(lower, rows, w, b.txns)[i].amount == rows[i].amount && 0 < rows[i].amount <= MAX_INT64
  {
    hide Flagged, Importable;
    ImportableAmount(b, rows[i]);
  }

  lemma TickedIsUnflagged(lower: string -> string, rows: seq<ImportRow>, w: Import.Window, txns: seq<TxRow>, i: nat)
    requires i < |rows| && Ticked(Marked(lower, rows, w, txns)[i])
    ensures !Flagged(lower, rows, w, txns, i)
  {
    hide Flagged;
  }

  lemma Unchained(rows: seq<ImportRow>) returns (i: nat)
    requires !Chained(rows)
    ensures i < |rows| && Ticked(rows[i])
    ensures forall j :: 0 <= j < |rows| && Ticked(rows[j]) ==> rows[i].amount != Handed(MinorUnits, rows[j].amount)
  {
    hide Handed, Ticked;
    i :| 0 <= i < |rows| && Ticked(rows[i]) &&
      !exists j :: 0 <= j < |rows| && Ticked(rows[j]) && rows[i].amount == Handed(MinorUnits, rows[j].amount);
  }

  lemma ImportableAmount(b: Books, r: ImportRow)
    requires Importable(b, r)
    ensures 0 < r.amount <= MAX_INT64 && ParseKind(r.kind).Some? && NoBar(r.kind)
  {
    hide FindAccount, ParseKind;
    KindOfText(r.kind);
  }

  lemma ArrivedAmount(lower: string -> string, b: Books, rows: seq<ImportRow>, w: Import.Window, i: nat)
    returns (j: nat)
    requires AllImportable(b, rows) && i < |rows| && OK(rows[i])
    requires Arrived(lower, MinorUnits, Marked(lower, rows, w, b.txns), KeyOf(lower, rows[i]))
    ensures j < |rows| && Ticked(Marked(lower, rows, w, b.txns)[j])
    ensures rows[i].amount == Handed(MinorUnits, rows[j].amount)
  {
    hide Flagged, Importable, Handed, DedupKey, NoBar;
    var first := Marked(lower, rows, w, b.txns);
    j :| 0 <= j < |first| && Ticked(first[j]) && Handed(MinorUnits, first[j].amount) > 0 && !Rejected(first[j])
         && ArrivingKey(lower, MinorUnits, first[j]) == KeyOf(lower, rows[i]);
    ImportableAmount(b, rows[i]);
    ImportableAmount(b, rows[j]);
    KeyIsInjective(lower, rows[j].kind, Handed(MinorUnits, rows[j].amount), rows[j].occurredAt, rows[j].raw.note,
                   rows[i].kind, rows[i].amount, rows[i].occurredAt, rows[i].raw.note);
  }

  // ---- from the file itself ----

  /** The accounts and categories read for a preview are stored ones. */
  predicate KnownNames(b: Books, names: seq<Named>, cats: seq<Named>) {
    && (forall k :: 0 <= k < |names| ==> names[k].id != "" && FindAccount(b.accounts, names[k].id).Some?)
    && (forall k :: 0 <= k < |cats| ==> cats[k].id in b.categories)
  }

  lemma MappedIds(b: Books, names: seq<Named>, cats: seq<Named>, lower: string -> string, name: string)
    requires KnownNames(b, names, cats)
    ensures name in NameMap(names, lower) ==>
              NameMap(names, lower)[name] != "" && FindAccount(b.accounts, NameMap(names, lower)[name]).Some?
    ensures name in NameMap(cats, lower) ==> NameMap(cats, lower)[name] in b.categories
  {
    hide FindAccount, NameMap;
    NameMapIsLast(names, lower, name);
    NameMapIsLast(cats, lower, name);
  }

  lemma DateFieldsYear(y: Option<int>, m: Option<int>, d: Option<int>)
    requires DateOfFields(y, m, d).Some? && 0 <= y.value < 10000
    ensures FourDigitYear(DateOfFields(y, m, d).value)
  {
    hide Civil, Ordinal;
    CivilOfOrdinal(RawDate(y.value, m.value, d.value));
    FourDigitYearIff(DateOfFields(y, m, d).value);
  }

  lemma FourDigitValue(s: string, i: nat)
    requires i + 4 <= |s| && Digits4(s, i).Some?
    ensures 0 <= Digits4(s, i).value < 10000
  {
  }

  lemma LayoutYear(k: nat, s: string)
    ensures ParseLayout(k, s).Some? ==> FourDigitYear(ParseLayout(k, s).value)
  {
    hide Civil, Digits4, Digits2, DateOfFields, ParseLayout;
    if ParseLayout(k, s).Some? {
      LayoutFields(k, s);
      var y, m, d :| ParseLayout(k, s) == DateOfFields(y, m, d) && y.Some? && 0 <= y.value < 10000;
      DateFieldsYear(y, m, d);
    }
  }

  lemma LayoutFields(k: nat, s: string)
    requires ParseLayout(k, s).Some?
    ensures exists y, m, d :: ParseLayout(k, s) == DateOfFields(y, m, d) && y.Some? && 0 <= y.value < 10000
  {
    hide Civil, Ordinal, Digits2, Digits4, ValidDate;
    var i := if k == 0 || k == 3 then 0 else 6;
    FourDigitValue(s, i);
  }

  lemma {:induction false} ParsedYear(k: nat, s: string)
    ensures FirstLayout(k, s).Some? ==> FourDigitYear(FirstLayout(k, s).value)
    decreases LAYOUTS - k
  {
    hide Civil, ParseLayout;
    LayoutYear(k, s);
    if k < LAYOUTS { ParsedYear(k + 1, s); }
  }

  lemma ResolvedImportable(b: Books, raw: CsvRow, names: seq<Named>, cats: seq<Named>, lower: string -> string)
    requires KnownNames(b, names, cats)
    ensures var r := Resolve(raw, NameMap(names, lower), NameMap(cats, lower), lower);
            OK(r) ==> Importable(b, r)
  {
    hide FirstLayout, ParseText, Civil, FindAccount, KnownNames, NameMap;
    ParsedYear(0, raw.date);
    MappedIds(b, names, cats, lower, lower(raw.account));
    MappedIds(b, names, cats, lower, lower(raw.toAccount));
    MappedIds(b, names, cats, lower, lower(raw.category));
  }

  lemma FileImportable(b: Books, csv: seq<CsvRow>, names: seq<Named>, cats: seq<Named>, lower: string -> string)
    requires KnownNames(b, names, cats)
    ensures AllImportable(b, ResolveAll(csv, NameMap(names, lower), NameMap(cats, lower), lower))
  {
    hide KnownNames, Importable, Resolve, NameMap;
    forall i | 0 <= i < |csv| {
      ResolvedImportable(b, csv[i], names, cats, lower);
    }
  }

  /** Preview, commit the ticked rows with the exact hand-over, preview the same file again: of the
      importable rows, those and only those left unflagged are first-time self-transfers. */
  lemma ReimportFlagsAll(lower: string -> string, b: Books, csv: seq<CsvRow>, names: seq<Named>, cats: seq<Named>,
                         ids: seq<Id>, i: nat)
    requires BooksOk(b) && KnownNames(b, names, cats) && NoZeroDates(csv) && i < |csv|
    requires |ids| == |FormsOf(Exact, Previewed(csv, names, cats, b.txns, lower))| && FreshIds(b.txns, ids)
    ensures var first := Previewed(csv, names, cats, b.txns, lower);
            var after := CommitRows(b, FormsOf(Exact, first), ids);
            var second := Previewed(csv, names, cats, after.txns, lower);
            OK(first[i]) ==>
              (second[i].duplicate <==>
               !(Ticked(first[i]) && first[i].kind == "transfer" && first[i].toAccountId == first[i].accountId))
  {
    hide *;
    var rows := ResolveAll(csv, NameMap(names, lower), NameMap(cats, lower), lower);
    FileImportable(b, csv, names, cats, lower);
    NoZeroDateIsCovered(csv, NameMap(names, lower), NameMap(cats, lower), lower);
    PreviewedIsMarked(lower, b, csv, names, cats, i);
    var forms := FormsOf(Exact, Previewed(csv, names, cats, b.txns, lower));
    PreviewedIsMarked(lower, CommitRows(b, forms, ids), csv, names, cats, i);
    if OK(rows[i]) {
      NotUndated(csv, names, cats, lower, i);
      ImportedIsCommit(lower, Exact, b, rows, Scan(csv), ids);
      ExactImportIsIdempotent(lower, b, rows, Scan(csv), ids, i);
    }
  }

  /** The same sequence through the form as the template writes it: if anything was ticked, the second
      preview offers some row again that the first import was asked to create. */
  lemma ReimportMissesARow(lower: string -> string, b: Books, csv: seq<CsvRow>, names: seq<Named>, cats: seq<Named>,
                           ids: seq<Id>, t: nat)
    requires BooksOk(b) && KnownNames(b, names, cats) && NoZeroDates(csv) && t < |csv|
    requires |ids| == |FormsOf(MinorUnits, Previewed(csv, names, cats, b.txns, lower))| && FreshIds(b.txns, ids)
    requires Ticked(Previewed(csv, names, cats, b.txns, lower)[t])
    ensures var first := Previewed(csv, names, cats, b.txns, lower);
            var after := CommitRows(b, FormsOf(MinorUnits, first), ids);
            var second := Previewed(csv, names, cats, after.txns, lower);
            exists i :: 0 <= i < |csv| && Ticked(first[i]) && !second[i].duplicate
  {
    hide *;
    var rows := ResolveAll(csv, NameMap(names, lower), NameMap(cats, lower), lower);
    FileImportable(b, csv, names, cats, lower);
    NoZeroDateIsCovered(csv, NameMap(names, lower), NameMap(cats, lower), lower);
    PreviewedIsMarked(lower, b, csv, names, cats, t);
    var after := CommitRows(b, FormsOf(MinorUnits, Previewed(csv, names, cats, b.txns, lower)), ids);
    ImportedIsCommit(lower, MinorUnits, b, rows, Scan(csv), ids);
    SecondImportMissesARow(lower, b, rows, Scan(csv), ids, t);
    var i :| 0 <= i < |rows| && Ticked(Marked(lower, rows, Scan(csv), b.txns)[i])
             && !Flagged(lower, rows, Scan(csv), after.txns, i);
    PreviewedIsMarked(lower, after, csv, names, cats, i);
  }

  lemma PreviewedIsMarked(lower: string -> string, b: Books, csv: seq<CsvRow>, names: seq<Named>, cats: seq<Named>,
                          i: nat)
    requires i < |csv|
    ensures var rows := ResolveAll(csv, NameMap(names, lower), NameMap(cats, lower), lower);
            var out := Previewed(csv, names, cats, b.txns, lower);
            && out == Marked(lower, rows, Scan(csv), b.txns)
            && out[i] == rows[i].(duplicate := Flagged(lower, rows, Scan(csv), b.txns, i))
            && (OK(out[i]) <==> OK(rows[i]))
  {
    hide Flagged, Resolve, Scan, NameMap;
  }

  lemma ImportedIsCommit(lower: string -> string, h: HandOver, b: Books, rows: seq<ImportRow>, w: Import.Window,
                         ids: seq<Id>)
    requires |ids| == |FormsOf(h, Marked(lower, rows, w, b.txns))|
    ensures |ids| == |PostedForms(lower, h, b, rows, w)|
    ensures Imported(lower, h, b, rows, w, ids) == CommitRows(b, FormsOf(h, Marked(lower, rows, w, b.txns)), ids)
  {
    hide CommitRows, FormsOf, Marked;
  }

  lemma NotUndated(csv: seq<CsvRow>, names: seq<Named>, cats: seq<Named>, lower: string -> string, i: nat)
    requires NoZeroDates(csv) && i < |csv|
    requires OK(ResolveAll(csv, NameMap(names, lower), NameMap(cats, lower), lower)[i])
    ensures var r := ResolveAll(csv, NameMap(names, lower), NameMap(cats, lower), lower)[i];
            Rejected(r) <==> r.kind == "transfer" && r.toAccountId == r.accountId
  {
    hide Resolve, NameMap, FirstLayout;
    OKRow(csv[i], NameMap(names, lower), NameMap(cats, lower), lower);
  }
}
