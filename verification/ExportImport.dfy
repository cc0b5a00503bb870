/** Reading an export back: what a re-import of the application's own file recognises. */
module ExportImport {
  import opened Calendar
  import opened Domain
  import opened Text
  import opened Digits
  import opened Money
  import opened MoneyLaws
  import opened Ledger
  import opened CsvPort
  import opened RuleService
  import opened Import

  predicate Plain(s: string) {
    s != "" && forall i :: 0 <= i < |s| ==> 'a' <= s[i] <= 'z' || s[i] == '_'
  }

  /** All that is asked of lower-casing: it leaves plain lower-case words alone. */
  ghost predicate Lowers(lower: string -> string) {
    forall s :: Plain(s) ==> lower(s) == s
  }

  lemma PlainTrimmed(s: string)
    requires Plain(s)
    ensures TrimSpace(s) == s
  {
    hide TrimSpace;
    TrimmedUnchanged(s);
  }

  // ---- the columns ----

  predicate DistinctNames(header: seq<string>) {
    forall i, j :: 0 <= i < j < |header| ==> header[i] != header[j]
  }

  lemma {:induction false} ColumnAt(header: seq<string>, lower: string -> string, i: nat)
    requires Lowers(lower) && (forall k :: 0 <= k < |header| ==> Plain(header[k])) && DistinctNames(header)
    requires i < |header|
    ensures header[i] in ColumnsOf(header, lower) && ColumnsOf(header, lower)[header[i]] == i
    decreases |header|
  {
    hide Plain;
    var n := |header| - 1;
    PlainTrimmed(header[n]);
    if i < n { ColumnAt(header[..n], lower, i); }
  }

  lemma HeaderNames()
    ensures forall k :: 0 <= k < |HEADER| ==> Plain(HEADER[k])
    ensures DistinctNames(HEADER)
  {
    assert |HEADER[0]| == 4 && |HEADER[1]| == 4 && |HEADER[2]| == 6 && |HEADER[3]| == 7
        && |HEADER[4]| == 10 && |HEADER[5]| == 8 && |HEADER[6]| == 4;
    assert HEADER[0][0] == 'd' && HEADER[1][0] == 'k' && HEADER[6][0] == 'n';
  }

  lemma HeaderColumns(lower: string -> string)
    requires Lowers(lower)
    ensures var idx := ColumnsOf(HEADER, lower);
            && "date" in idx && idx["date"] == 0 && "kind" in idx && idx["kind"] == 1
            && "amount" in idx && idx["amount"] == 2 && "account" in idx && idx["account"] == 3
            && "to_account" in idx && idx["to_account"] == 4 && "category" in idx && idx["category"] == 5
            && "note" in idx && idx["note"] == 6
  {
    hide ColumnsOf, Lowers, DistinctNames;
    HeaderNames();
    forall i | 0 <= i < 7 ensures HEADER[i] in ColumnsOf(HEADER, lower) && ColumnsOf(HEADER, lower)[HEADER[i]] == i {
      ColumnAt(HEADER, lower, i);
    }
    assert HEADER[0] == "date" && HEADER[1] == "kind" && HEADER[2] == "amount" && HEADER[3] == "account"
        && HEADER[4] == "to_account" && HEADER[5] == "category" && HEADER[6] == "note";
  }

  // ---- one record ----

  /** The row read back from one exported transaction. */
  function ReadBack(l: ListedTx, lineNo: int): CsvRow
    requires MIN_INT64 <= l.tx.amount <= MAX_INT64
  {
    CsvRow(lineNo, FormatDate(l.tx.occurredAt), KindText(l.tx.kind), FormatText(l.tx.amount), TrimSpace(l.accountName),
           TrimSpace(l.toAccountName), TrimSpace(l.categoryName), TrimSpace(l.tx.note))
  }

  /** What the database and the form checks guarantee of an exported transaction. */
  predicate Exportable(l: ListedTx) {
    0 < l.tx.amount <= MAX_INT64 && FourDigitYear(l.tx.occurredAt)
  }

  lemma DateTextTrimmed(day: Day)
    requires FourDigitYear(day)
    ensures TrimSpace(FormatDate(day)) == FormatDate(day) && FormatDate(day) != ""
  {
    hide Civil, PadFour, TrimSpace;
    FourDigitYearIff(day);
    var c := Civil(day);
    PadFourIsFourDigits(c.y);
    TrimmedUnchanged(FormatDate(day));
  }

  lemma AmountTextTrimmed(m: int64)
    requires m >= 0
    ensures TrimSpace(FormatText(m)) == FormatText(m)
  {
    hide Group, Decimal, TrimSpace;
    GroupedNumeral(m / 100);
    NumberTextTrimmed(false, false, Group(Decimal(m / 100)));
  }

  lemma RecordReadBack(l: ListedTx, lower: string -> string, lineNo: int)
    requires Lowers(lower) && Exportable(l)
    ensures RowOf(ColumnsOf(HEADER, lower), RecordOf(l), lineNo) == ReadBack(l, lineNo)
  {
    hide ColumnsOf, Lowers, FormatDate, FormatText, TrimSpace, Civil;
    HeaderColumns(lower);
    DateTextTrimmed(l.tx.occurredAt);
    AmountTextTrimmed(l.tx.amount);
    KindTextPlain(l.tx.kind);
    PlainTrimmed(KindText(l.tx.kind));
  }

  lemma KindTextPlain(k: Kind)
    ensures Plain(KindText(k)) && ParseKind(KindText(k)) == Some(k)
  {
  }

  // ---- the whole file ----

  lemma {:induction false} JoinStartsWithFirst(rec: seq<string>)
    requires rec != []
    ensures rec[0] <= Join(rec)
    decreases |rec|
  {
    if |rec| > 1 { JoinStartsWithFirst(rec[..|rec| - 1]); }
  }

  lemma TrimKeepsNonSpace(s: string, i: nat)
    requires i < |s| && !IsSpace(s[i])
    ensures TrimSpace(s) != ""
  {
    TrimLeftKeeps(s, i);
    var t := TrimLeft(s);
    var k :| 0 <= k < |t| && !IsSpace(t[k]);
    TrimRightKeeps(t, k);
  }

  lemma {:induction false} TrimLeftKeeps(s: string, i: nat)
    requires i < |s| && !IsSpace(s[i])
    ensures exists k :: 0 <= k < |TrimLeft(s)| && !IsSpace(TrimLeft(s)[k])
    decreases |s|
  {
    if IsSpace(s[0]) {
      assert TrimLeft(s) == TrimLeft(s[1..]);
      TrimLeftKeeps(s[1..], i - 1);
    } else {
      assert TrimLeft(s) == s;
    }
  }

  lemma {:induction false} TrimRightKeeps(s: string, i: nat)
    requires i < |s| && !IsSpace(s[i])
    ensures TrimRight(s) != ""
    decreases |s|
  {
    if IsSpace(s[|s| - 1]) { TrimRightKeeps(s[..|s| - 1], i); }
  }

  lemma RecordNotBlank(l: ListedTx)
    requires Exportable(l)
    ensures !Blank(RecordOf(l))
  {
    hide TrimSpace, Join, Civil, FormatText, PadFour, IsSpace;
    var rec := RecordOf(l);
    JoinStartsWithFirst(rec);
    FourDigitYearIff(l.tx.occurredAt);
    var c := Civil(l.tx.occurredAt);
    PadFourIsFourDigits(c.y);
    DigitNotSpace(FourDigits(c.y)[0]);
    assert Join(rec)[0] == FourDigits(c.y)[0];
    TrimKeepsNonSpace(Join(rec), 0);
  }

  lemma DigitNotSpace(c: char)
    ensures IsDigit(c) ==> !IsSpace(c)
  {
  }

  /** Every exported transaction is one row of the parsed export, in order. */
  lemma ExportParses(ls: seq<ListedTx>, lower: string -> string)
    requires Lowers(lower) && forall k :: 0 <= k < |ls| ==> Exportable(ls[k])
    ensures Stored(ls)
    ensures ParseCsv(Exported(ls), lower) == Ok(seq(|ls|, k requires 0 <= k < |ls| => ReadBack(ls[k], k + 2)))
  {
    hide ColumnsOf, RowsOf, Lowers, RecordOf, Civil;
    var records := Exported(ls);
    HeaderColumns(lower);
    ExportedRows(ls, lower, |ls|);
    assert records[0] == HEADER;
  }

  lemma {:induction false} ExportedRows(ls: seq<ListedTx>, lower: string -> string, n: nat)
    requires Lowers(lower) && (forall k :: 0 <= k < |ls| ==> Exportable(ls[k])) && n <= |ls| && Stored(ls)
    ensures RowsOf(ColumnsOf(HEADER, lower), Exported(ls)[1..], n)
         == seq(n, k requires 0 <= k < n => ReadBack(ls[k], k + 2))
    decreases n
  {
    hide ColumnsOf, Lowers, RecordOf, Exportable, Blank, RowOf, ReadBack;
    if n == 0 {
    } else {
      ExportedRows(ls, lower, n - 1);
      assert Exported(ls)[1..][n - 1] == RecordOf(ls[n - 1]);
      RecordReadBack(ls[n - 1], lower, n + 1);
      RecordNotBlank(ls[n - 1]);
    }
  }

  // ---- back into the same ledger ----

  /** The names written can be looked up again. */
  predicate Resolvable(l: ListedTx, accs: map<string, Id>, cats: map<string, Id>, lower: string -> string) {
    && lower(TrimSpace(l.accountName)) in accs
    && (l.tx.kind == Transfer ==> lower(TrimSpace(l.toAccountName)) in accs)
    && (l.tx.kind != Transfer && TrimSpace(l.categoryName) != "" ==> lower(TrimSpace(l.categoryName)) in cats)
  }

  /** An exported transaction resolves again iff it is worth a whole unit; the export drops the sen. */
  lemma ReadBackResolves(l: ListedTx, lineNo: int, accs: map<string, Id>, cats: map<string, Id>,
                         lower: string -> string)
    requires Lowers(lower) && Exportable(l) && Resolvable(l, accs, cats, lower)
    ensures var r := Resolve(ReadBack(l, lineNo), accs, cats, lower);
            && (OK(r) <==> l.tx.amount >= 100)
            && (OK(r) ==> (r.kind == KindText(l.tx.kind) && r.amount == WholeUnits(l.tx.amount)
                           && r.occurredAt == l.tx.occurredAt && r.raw.note == TrimSpace(l.tx.note)))
  {
    hide Civil, FormatDate, FormatText, FirstLayout, ParseText, TrimSpace;
    KindTextPlain(l.tx.kind);
    DateRoundTrip(l.tx.occurredAt);
    RoundTrip(l.tx.amount);
  }

  lemma WholeUnitsMatch(m: int)
    requires m > 0
    ensures m >= 100 && WholeUnits(m) == m <==> m % 100 == 0
  {
  }

  /** The row read back has its transaction's key iff the transaction has no sen. */
  lemma ReadBackKey(l: ListedTx, lineNo: int, accs: map<string, Id>, cats: map<string, Id>, lower: string -> string)
    requires Lowers(lower) && Exportable(l) && Resolvable(l, accs, cats, lower)
    ensures var r := Resolve(ReadBack(l, lineNo), accs, cats, lower);
            OK(r) && KeyOf(lower, r) == TxKey(lower, l.tx) <==> l.tx.amount % 100 == 0
  {
    hide Civil, Resolve, Resolvable, Lowers, TrimSpace, DedupKey, NoBar, FormatDate, FormatText, KindText, WholeUnits;
    WholeUnitsMatch(l.tx.amount);
    ReadBackResolves(l, lineNo, accs, cats, lower);
    var r := Resolve(ReadBack(l, lineNo), accs, cats, lower);
    if OK(r) {
      TrimSpaceIdempotent(l.tx.note);
      KindHasNoBar(l.tx.kind);
      KeyIsInjective(lower, r.kind, r.amount, r.occurredAt, r.raw.note,
                     KindText(l.tx.kind), l.tx.amount, l.tx.occurredAt, l.tx.note);
    }
  }

  /** An export as the list query feeds it: live transactions, dated, with names that resolve. */
  predicate ExportOf(ls: seq<ListedTx>, txns: seq<TxRow>, accs: map<string, Id>, cats: map<string, Id>,
                     lower: string -> string) {
    forall k :: 0 <= k < |ls| ==>
      && Exportable(ls[k]) && ls[k].tx.occurredAt != ZERO_DAY && Resolvable(ls[k], accs, cats, lower)
      && exists i :: 0 <= i < |txns| && !txns[i].deleted && txns[i].tx == ls[k].tx
  }

  /** Previewing the application's own export offers no whole-unit transaction again: each such row is
      importable and flagged, while a transaction of less than one unit comes back as a bad amount. */
  lemma {:induction false} ExportIsRecognised(ls: seq<ListedTx>, txns: seq<TxRow>, names: seq<Named>, cats: seq<Named>,
                                              lower: string -> string, k: nat)
    requires Lowers(lower) && ExportOf(ls, txns, NameMap(names, lower), NameMap(cats, lower), lower) && k < |ls|
    ensures Stored(ls) && ParseCsv(Exported(ls), lower).Ok?
    ensures var csv := ParseCsv(Exported(ls), lower).value;
            && |csv| == |ls|
            && var out := Previewed(csv, names, cats, txns, lower)[k];
            && (OK(out) <==> ls[k].tx.amount >= 100)
            && (ls[k].tx.amount % 100 == 0 ==> OK(out) && out.duplicate)
  {
    hide Resolvable, Lowers, Resolve, KeyOf, TxKey, NameMap, Exported, ParseCsv, Scan, Flagged, Civil, ReadBack,
         Duplicate;
    ExportParses(ls, lower);
    var csv := ParseCsv(Exported(ls), lower).value;
    var accs, catIds := NameMap(names, lower), NameMap(cats, lower);
    forall j | 0 <= j < |csv| ensures FirstLayout(0, csv[j].date) == Some(ls[j].tx.occurredAt) {
      ReadBackDate(ls[j], j + 2);
    }
    NoZeroDateIsCovered(csv, accs, catIds, lower);
    ResolvedRows(csv, accs, catIds, lower);
    var rows := ResolveAll(csv, accs, catIds, lower);
    ReadBackResolves(ls[k], k + 2, accs, catIds, lower);
    if ls[k].tx.amount % 100 == 0 {
      ReadBackKey(ls[k], k + 2, accs, catIds, lower);
      LiveIsDuplicate(lower, rows, txns, k, ls[k].tx);
      CoveredMeansExact(lower, rows, Scan(csv), txns, k);
    }
  }

  lemma ReadBackDate(l: ListedTx, lineNo: int)
    requires Exportable(l)
    ensures FirstLayout(0, ReadBack(l, lineNo).date) == Some(l.tx.occurredAt)
  {
    hide Civil, FormatDate, FirstLayout, ParseLayout, TrimSpace, FormatText;
    DateRoundTrip(l.tx.occurredAt);
  }

  lemma LiveIsDuplicate(lower: string -> string, rows: seq<ImportRow>, txns: seq<TxRow>, k: nat, t: Tx)
    requires k < |rows| && KeyOf(lower, rows[k]) == TxKey(lower, t)
    requires exists i :: 0 <= i < |txns| && !txns[i].deleted && txns[i].tx == t
    ensures Duplicate(lower, rows, txns, k)
  {
    hide KeyOf, TxKey;
    var i :| 0 <= i < |txns| && !txns[i].deleted && txns[i].tx == t;
    assert TxKey(lower, txns[i].tx) == KeyOf(lower, rows[k]);
  }
}
