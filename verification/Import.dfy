/** Import preview, duplicate detection and the hand-over to the ledger. */
module Import {
  import opened Calendar
  import opened Domain
  import opened Digits
  import opened Money
  import opened MoneyLaws
  import opened Ledger
  import Filter
  import opened CsvPort
  import opened RuleService

  datatype RowError = NoError | BadDate | BadKind | BadAmount | NoAccount | NoToAccount | NoCategory

  /** A file row resolved against accounts and categories. */
  datatype ImportRow = ImportRow(
    raw: CsvRow,
    kind: string,
    amount: nat,
    accountId: Id,
    toAccountId: Id,
    categoryId: Id,
    occurredAt: Day,
    duplicate: bool,
    err: RowError)

  predicate OK(r: ImportRow) {
    r.err == NoError
  }

  datatype Named = Named(id: Id, name: string)

  /** Ids by lower-cased name; of several accounts with one name the last wins. */
  function NameMap(rows: seq<Named>, lower: string -> string): map<string, Id> {
    if rows == [] then map[]
    else NameMap(rows[..|rows| - 1], lower)[lower(rows[|rows| - 1].name) := rows[|rows| - 1].id]
  }

  method BuildNameMap(rows: seq<Named>, lower: string -> string) returns (m: map<string, Id>)
    ensures m == NameMap(rows, lower)
  {
    m := map[];
    var i := 0;
    while i < |rows|
      invariant 0 <= i <= |rows|
      invariant m == NameMap(rows[..i], lower)
    {
      assert rows[..i + 1][..i] == rows[..i];
      m := m[lower(rows[i].name) := rows[i].id];
      i := i + 1;
    }
    assert rows[..i] == rows;
  }

  /** Some row has this lower-cased name. */
  predicate HasName(rows: seq<Named>, lower: string -> string, name: string) {
    exists k :: 0 <= k < |rows| && lower(rows[k].name) == name
  }

  /** `id` belongs to the last row with this lower-cased name. */
  predicate IsLast(rows: seq<Named>, lower: string -> string, name: string, id: Id) {
    exists k :: 0 <= k < |rows| && lower(rows[k].name) == name && rows[k].id == id
      && forall j :: k < j < |rows| ==> lower(rows[j].name) != name
  }

  lemma HasNameStep(rows: seq<Named>, lower: string -> string, name: string)
    requires rows != []
    ensures var n := |rows| - 1;
            HasName(rows, lower, name) <==> HasName(rows[..n], lower, name) || lower(rows[n].name) == name
  {
    var n := |rows| - 1;
    if k :| 0 <= k < n && lower(rows[..n][k].name) == name { assert lower(rows[k].name) == name; }
    if k :| 0 <= k < |rows| && lower(rows[k].name) == name {
      if k < n { assert lower(rows[..n][k].name) == name; }
    }
  }

  lemma IsLastStep(rows: seq<Named>, lower: string -> string, name: string, id: Id)
    requires rows != []
    ensures var n := |rows| - 1;
            (if lower(rows[n].name) == name then rows[n].id == id else IsLast(rows[..n], lower, name, id)) ==>
              IsLast(rows, lower, name, id)
  {
    var n := |rows| - 1;
    if lower(rows[n].name) != name && IsLast(rows[..n], lower, name, id) {
      var k :| 0 <= k < n && lower(rows[..n][k].name) == name && rows[..n][k].id == id
               && forall j :: k < j < n ==> lower(rows[..n][j].name) != name;
      assert lower(rows[k].name) == name && rows[k].id == id;
      forall j | k < j < |rows| ensures lower(rows[j].name) != name {
        if j < n { assert rows[..n][j] == rows[j]; }
      }
    }
  }

  /** A name is found iff some row has it up to case, and then it means the last such row. */
  lemma {:induction false} NameMapIsLast(rows: seq<Named>, lower: string -> string, name: string)
    ensures name in NameMap(rows, lower) <==> HasName(rows, lower, name)
    ensures name in NameMap(rows, lower) ==> IsLast(rows, lower, name, NameMap(rows, lower)[name])
    decreases |rows|
  {
    hide HasName, IsLast;
    if rows == [] {
      NoNames(lower, name);
    } else {
      var n := |rows| - 1;
      NameMapIsLast(rows[..n], lower, name);
      HasNameStep(rows, lower, name);
      if name in NameMap(rows, lower) { IsLastStep(rows, lower, name, NameMap(rows, lower)[name]); }
    }
  }

  lemma NoNames(lower: string -> string, name: string)
    ensures !HasName([], lower, name)
  {
  }

  const UNRESOLVED: Day := ZERO_DAY

  /** One row, field by field; the first field that does not resolve is the row's error. */
  function Resolve(raw: CsvRow, accs: map<string, Id>, cats: map<string, Id>, lower: string -> string): ImportRow {
    var r0 := ImportRow(raw, "", 0, "", "", "", UNRESOLVED, false, NoError);
    var d := FirstLayout(0, raw.date);
    if d.None? then r0.(err := BadDate)
    else
      var r1 := r0.(occurredAt := d.value);
      var kind := lower(raw.kind);
      if ParseKind(kind).None? then r1.(err := BadKind)
      else
        var r2 := r1.(kind := kind);
        var amt := ParseText(raw.amount);
        if amt.Err? || amt.value <= 0 then r2.(err := BadAmount)
        else
          var r3 := r2.(amount := amt.value);
          if lower(raw.account) !in accs then r3.(err := NoAccount)
          else
            var r4 := r3.(accountId := accs[lower(raw.account)]);
            if kind == "transfer" then
              if lower(raw.toAccount) !in accs then r4.(err := NoToAccount)
              else r4.(toAccountId := accs[lower(raw.toAccount)])
            else if raw.category != "" then
              if lower(raw.category) !in cats then r4.(err := NoCategory)
              else r4.(categoryId := cats[lower(raw.category)])
            else r4
  }

  predicate DateReads(text: string) {
    exists k :: 0 <= k < LAYOUTS && ParseLayout(k, text).Some?
  }

  predicate AmountReads(text: string) {
    ParseText(text).Ok? && ParseText(text).value > 0
  }

  /** Some row has this name, up to case. */
  predicate NamedIn(rows: seq<Named>, lower: string -> string, text: string) {
    HasName(rows, lower, lower(text))
  }

  /** `id` belongs to the last row with this name, up to case. */
  predicate LastNamed(rows: seq<Named>, lower: string -> string, text: string, id: Id) {
    IsLast(rows, lower, lower(text), id)
  }

  lemma {:induction false} FirstLayoutReads(k: nat, s: string)
    requires k <= LAYOUTS
    ensures FirstLayout(k, s).Some? <==> exists j :: k <= j < LAYOUTS && ParseLayout(j, s).Some?
    decreases LAYOUTS - k
  {
    hide ParseLayout;
    if k == LAYOUTS {
    } else {
      FirstLayoutReads(k + 1, s);
    }
  }

  lemma NamedIff(rows: seq<Named>, lower: string -> string, text: string)
    ensures lower(text) in NameMap(rows, lower) <==> NamedIn(rows, lower, text)
    ensures lower(text) in NameMap(rows, lower) ==> LastNamed(rows, lower, text, NameMap(rows, lower)[lower(text)])
  {
    hide NameMap;
    NameMapIsLast(rows, lower, lower(text));
  }

  /** A row is importable if and only if every field it needs resolves; the error names the first one that
      does not; and the ids are those of the last account and category with the name. */
  lemma ResolvedIff(raw: CsvRow, names: seq<Named>, cats: seq<Named>, lower: string -> string)
    ensures
      var r := Resolve(raw, NameMap(names, lower), NameMap(cats, lower), lower);
      var transfer := lower(raw.kind) == "transfer";
      var dated, kindly := DateReads(raw.date), ParseKind(lower(raw.kind)).Some?;
      var priced, sourced := AmountReads(raw.amount), NamedIn(names, lower, raw.account);
      var aimed := !transfer || NamedIn(names, lower, raw.toAccount);
      var sorted := transfer || raw.category == "" || NamedIn(cats, lower, raw.category);
      && (OK(r) <==> dated && kindly && priced && sourced && aimed && sorted)
      && (r.err == BadDate <==> !dated)
      && (r.err == BadKind <==> dated && !kindly)
      && (r.err == BadAmount <==> dated && kindly && !priced)
      && (r.err == NoAccount <==> dated && kindly && priced && !sourced)
      && (r.err == NoToAccount <==> dated && kindly && priced && sourced && !aimed)
      && (r.err == NoCategory <==> dated && kindly && priced && sourced && !sorted)
      && (OK(r) ==> (r.kind == lower(raw.kind) && Ok(r.amount) == ParseText(raw.amount)
                     && FirstLayout(0, raw.date) == Some(r.occurredAt)))
      && (OK(r) ==> LastNamed(names, lower, raw.account, r.accountId))
      && (OK(r) && transfer ==> LastNamed(names, lower, raw.toAccount, r.toAccountId) && r.categoryId == "")
      && (OK(r) && !transfer ==> r.toAccountId == "")
      && (OK(r) && !transfer && raw.category == "" ==> r.categoryId == "")
      && (OK(r) && !transfer && raw.category != "" ==> LastNamed(cats, lower, raw.category, r.categoryId))
  {
    hide FirstLayout, ParseText, ParseKind, ParseLayout, NameMap, NamedIn, LastNamed;
    FirstLayoutReads(0, raw.date);
    NamedIff(names, lower, raw.account);
    NamedIff(names, lower, raw.toAccount);
    NamedIff(cats, lower, raw.category);
  }

  // ---- the date window ----

  datatype Window = Window(minD: Day, maxD: Day)

  const UNSET := Window(ZERO_DAY, ZERO_DAY)

  /** One row's date; the zero time doubles as "not set yet". */
  function Widen(w: Window, d: Day): Window {
    Window(if w.minD == ZERO_DAY || d < w.minD then d else w.minD,
           if w.maxD == ZERO_DAY || d > w.maxD then d else w.maxD)
  }

  function Scan(rows: seq<CsvRow>): Window {
    if rows == [] then UNSET
    else
      var w := Scan(rows[..|rows| - 1]);
      var d := FirstLayout(0, rows[|rows| - 1].date);
      if d.Some? then Widen(w, d.value) else w
  }

  /** The filter with which Preview lists the existing transactions. */
  function WindowFilter(w: Window): Filter.TxFilter {
    Filter.TxFilter(Some(w.minD), Some(w.maxD + 1), "", "", "", 0, 0)
  }

  function KeyOf(lower: string -> string, r: ImportRow): string {
    DedupKey(lower, r.kind, r.amount, r.occurredAt, r.raw.note)
  }

  function TxKey(lower: string -> string, t: Tx): string {
    DedupKey(lower, KindText(t.kind), t.amount, t.occurredAt, t.note)
  }

  predicate KeyListed(lower: string -> string, txns: seq<TxRow>, key: string) {
    exists i :: 0 <= i < |txns| && TxKey(lower, txns[i].tx) == key
  }

  /** Some live transaction has this key. */
  predicate InLedger(lower: string -> string, txns: seq<TxRow>, key: string) {
    exists i :: 0 <= i < |txns| && !txns[i].deleted && TxKey(lower, txns[i].tx) == key
  }

  /** An OK row before row i has the same key. */
  predicate SeenBefore(lower: string -> string, rows: seq<ImportRow>, i: nat)
    requires i < |rows|
  {
    exists j :: 0 <= j < i && OK(rows[j]) && KeyOf(lower, rows[j]) == KeyOf(lower, rows[i])
  }

  /** What Preview computes for row i. */
  predicate Flagged(lower: string -> string, rows: seq<ImportRow>, w: Window, txns: seq<TxRow>, i: nat)
    requires i < |rows|
  {
    && w.minD != ZERO_DAY
    && OK(rows[i])
    && (KeyListed(lower, Filter.Selected(WindowFilter(w), txns), KeyOf(lower, rows[i])) || SeenBefore(lower, rows, i))
  }

  /** What "duplicate" means: the full scan of ledger and file. */
  predicate Duplicate(lower: string -> string, rows: seq<ImportRow>, txns: seq<TxRow>, i: nat)
    requires i < |rows|
  {
    InLedger(lower, txns, KeyOf(lower, rows[i])) || SeenBefore(lower, rows, i)
  }

  function ResolveAll(rows: seq<CsvRow>, accs: map<string, Id>, cats: map<string, Id>,
                      lower: string -> string): (r: seq<ImportRow>)
    ensures |r| == |rows|
  {
    seq(|rows|, i requires 0 <= i < |rows| => Resolve(rows[i], accs, cats, lower))
  }

  function Marked(lower: string -> string, rows: seq<ImportRow>, w: Window, txns: seq<TxRow>): (r: seq<ImportRow>)
    ensures |r| == |rows|
  {
    seq(|rows|, i requires 0 <= i < |rows| => rows[i].(duplicate := Flagged(lower, rows, w, txns, i)))
  }

  // ---- sort.SliceStable by line number ----

  function InsertByLine(x: ImportRow, s: seq<ImportRow>): seq<ImportRow> {
    if s == [] || s[|s| - 1].raw.lineNo <= x.raw.lineNo then s + [x]
    else InsertByLine(x, s[..|s| - 1]) + [s[|s| - 1]]
  }

  function SortByLine(s: seq<ImportRow>): seq<ImportRow> {
    if s == [] then [] else InsertByLine(s[|s| - 1], SortByLine(s[..|s| - 1]))
  }

  predicate ByLine(s: seq<ImportRow>) {
    forall i, j :: 0 <= i < j < |s| ==> s[i].raw.lineNo <= s[j].raw.lineNo
  }

  lemma {:induction false} InsertIsPermutation(x: ImportRow, s: seq<ImportRow>)
    ensures multiset(InsertByLine(x, s)) == multiset(s) + multiset{x}
    decreases |s|
  {
    if s != [] && s[|s| - 1].raw.lineNo > x.raw.lineNo {
      InsertIsPermutation(x, s[..|s| - 1]);
      assert s == s[..|s| - 1] + [s[|s| - 1]];
    }
  }

  lemma {:induction false} InsertKeepsOrder(x: ImportRow, s: seq<ImportRow>)
    requires ByLine(s)
    ensures ByLine(InsertByLine(x, s))
    decreases |s|
  {
    hide ByLine, InsertByLine;
    if s == [] || s[|s| - 1].raw.lineNo <= x.raw.lineNo {
      InsertLast(x, s);
      AppendInOrder(s, x);
    } else {
      var front, last := s[..|s| - 1], s[|s| - 1];
      FrontInOrder(s);
      InsertKeepsOrder(x, front);
      InsertIsPermutation(x, front);
      InsertInside(x, s);
      var t := InsertByLine(x, front);
      forall i | 0 <= i < |t| ensures t[i].raw.lineNo <= last.raw.lineNo {
        assert t[i] in multiset(t);
        InsertedFrom(t[i], x, front);
      }
      AppendInOrder(t, last);
    }
  }

  lemma InsertInside(x: ImportRow, s: seq<ImportRow>)
    requires s != [] && s[|s| - 1].raw.lineNo > x.raw.lineNo
    ensures InsertByLine(x, s) == InsertByLine(x, s[..|s| - 1]) + [s[|s| - 1]]
  {
  }

  lemma FrontInOrder(s: seq<ImportRow>)
    requires s != [] && ByLine(s)
    ensures ByLine(s[..|s| - 1]) && forall i :: 0 <= i < |s| ==> s[i].raw.lineNo <= s[|s| - 1].raw.lineNo
  {
  }

  lemma AppendInOrder(s: seq<ImportRow>, x: ImportRow)
    requires ByLine(s)
    requires s == [] || s[|s| - 1].raw.lineNo <= x.raw.lineNo
    ensures ByLine(s + [x])
  {
  }

  lemma InsertedFrom(y: ImportRow, x: ImportRow, s: seq<ImportRow>)
    requires y in multiset(s) + multiset{x}
    ensures y == x || exists k :: 0 <= k < |s| && s[k] == y
  {
    if y != x { assert y in multiset(s); assert y in s; }
  }

  lemma InsertLast(x: ImportRow, s: seq<ImportRow>)
    requires s == [] || s[|s| - 1].raw.lineNo <= x.raw.lineNo
    ensures InsertByLine(x, s) == s + [x]
  {
  }

  /** The result is a permutation in line order, and a list already in order comes back as it was. */
  lemma {:induction false} SortSorts(s: seq<ImportRow>)
    ensures ByLine(SortByLine(s)) && multiset(SortByLine(s)) == multiset(s)
    ensures ByLine(s) ==> SortByLine(s) == s
    decreases |s|
  {
    hide InsertByLine;
    if s == [] {
    } else {
      var n := |s| - 1;
      SortSorts(s[..n]);
      var t := SortByLine(s[..n]);
      InsertKeepsOrder(s[n], t);
      InsertIsPermutation(s[n], t);
      if ByLine(s) { InsertLast(s[n], t); }
      assert s == s[..n] + [s[n]];
    }
  }

  // ---- Preview ----

  /** The resolution loop: rows resolved in order, and the span of the dates seen. */
  method ResolveRows(rows: seq<CsvRow>, accs: map<string, Id>, cats: map<string, Id>, lower: string -> string)
    returns (out: seq<ImportRow>, minD: Day, maxD: Day)
    ensures out == ResolveAll(rows, accs, cats, lower)
    ensures Window(minD, maxD) == Scan(rows)
  {
    hide FirstLayout, Resolve, Scan, ParseLayout;
    out, minD, maxD := [], ZERO_DAY, ZERO_DAY;
    ScanNothing();
    var i := 0;
    while i < |rows|
      invariant 0 <= i <= |rows| && |out| == i
      invariant forall j :: 0 <= j < i ==> out[j] == Resolve(rows[j], accs, cats, lower)
      invariant Window(minD, maxD) == Scan(rows[..i])
    {
      ScanStep(rows, i);
      var d := ParseCsvDate(rows[i].date);
      if d.Some? {
        if minD == ZERO_DAY || d.value < minD { minD := d.value; }
        if maxD == ZERO_DAY || d.value > maxD { maxD := d.value; }
      }
      var ir := ResolveRow(rows[i], d, accs, cats, lower);
      out := out + [ir];
      i := i + 1;
    }
    assert rows[..i] == rows;
  }

  lemma ScanNothing()
    ensures Scan([]) == Window(ZERO_DAY, ZERO_DAY)
  {
  }

  lemma ScanStep(rows: seq<CsvRow>, i: nat)
    requires i < |rows|
    ensures var d := FirstLayout(0, rows[i].date);
            Scan(rows[..i + 1]) == if d.Some? then Widen(Scan(rows[..i]), d.value) else Scan(rows[..i])
  {
    hide FirstLayout, Widen;
    assert rows[..i + 1][..i] == rows[..i];
  }

  /** The body of the resolution loop after the date. */
  method ResolveRow(raw: CsvRow, d: Option<Day>, accs: map<string, Id>, cats: map<string, Id>, lower: string -> string)
    returns (ir: ImportRow)
    requires d == FirstLayout(0, raw.date)
    ensures ir == Resolve(raw, accs, cats, lower)
  {
    hide FirstLayout, ParseText;
    ir := ImportRow(raw, "", 0, "", "", "", UNRESOLVED, false, NoError);
    if d.None? { return ir.(err := BadDate); }
    ir := ir.(occurredAt := d.value);
    var kind := lower(raw.kind);
    if ParseKind(kind).None? { return ir.(err := BadKind); }
    ir := ir.(kind := kind);
    var amt := Parse(raw.amount);
    if amt.Err? || amt.value <= 0 { return ir.(err := BadAmount); }
    ir := ir.(amount := amt.value);
    if lower(raw.account) !in accs { return ir.(err := NoAccount); }
    ir := ir.(accountId := accs[lower(raw.account)]);
    if kind == "transfer" {
      if lower(raw.toAccount) !in accs { return ir.(err := NoToAccount); }
      ir := ir.(toAccountId := accs[lower(raw.toAccount)]);
    } else if raw.category != "" {
      if lower(raw.category) !in cats { return ir.(err := NoCategory); }
      ir := ir.(categoryId := cats[lower(raw.category)]);
    }
  }

  function KeysBefore(lower: string -> string, rows: seq<ImportRow>, n: nat): set<string>
    requires n <= |rows|
  {
    set j | 0 <= j < n && OK(rows[j]) :: KeyOf(lower, rows[j])
  }

  function ListedKeys(lower: string -> string, txns: seq<TxRow>): set<string> {
    set i | 0 <= i < |txns| :: TxKey(lower, txns[i].tx)
  }

  /** The dedup loop with its growing seen-set. */
  method MarkDuplicates(rows: seq<ImportRow>, existing: seq<TxRow>,
                        lower: string -> string) returns (out: seq<ImportRow>)
    requires forall i :: 0 <= i < |rows| ==> !rows[i].duplicate
    ensures |out| == |rows|
    ensures forall i :: 0 <= i < |rows| ==>
              out[i] == rows[i].(duplicate := OK(rows[i])
                && (KeyListed(lower, existing, KeyOf(lower, rows[i])) || SeenBefore(lower, rows, i)))
  {
    hide DedupKey, KeyOf, TxKey;
    out := rows;
    var seen: set<string> := {};
    var k := 0;
    while k < |existing|
      invariant 0 <= k <= |existing|
      invariant seen == ListedKeys(lower, existing[..k])
    {
      ListedKeysGrow(lower, existing, k);
      seen := seen + {TxKey(lower, existing[k].tx)};
      k := k + 1;
    }
    assert existing[..k] == existing;
    var i := 0;
    while i < |rows|
      invariant 0 <= i <= |rows| && |out| == |rows|
      invariant seen == ListedKeys(lower, existing) + KeysBefore(lower, rows, i)
      invariant forall j :: i <= j < |rows| ==> out[j] == rows[j]
      invariant forall j :: 0 <= j < i ==>
        out[j] == rows[j].(duplicate := OK(rows[j])
          && (KeyListed(lower, existing, KeyOf(lower, rows[j])) || SeenBefore(lower, rows, j)))
    {
      KeysBeforeGrow(lower, rows, i);
      if OK(out[i]) {
        var key := KeyOf(lower, out[i]);
        SeenMeansListed(lower, existing, rows, i, key);
        if key in seen { out := out[i := out[i].(duplicate := true)]; }
        seen := seen + {key};
      }
      i := i + 1;
    }
  }

  lemma ListedKeysGrow(lower: string -> string, txns: seq<TxRow>, k: nat)
    requires k < |txns|
    ensures ListedKeys(lower, txns[..k + 1]) == ListedKeys(lower, txns[..k]) + {TxKey(lower, txns[k].tx)}
  {
    hide TxKey;
    var a, b := txns[..k + 1], txns[..k];
    assert forall i :: 0 <= i < k ==> a[i] == b[i] == txns[i];
    assert a[k] == txns[k];
    forall x | x in ListedKeys(lower, b) ensures x in ListedKeys(lower, a) {
      var i :| 0 <= i < k && TxKey(lower, b[i].tx) == x;
      assert TxKey(lower, a[i].tx) == x;
    }
  }

  lemma KeysBeforeGrow(lower: string -> string, rows: seq<ImportRow>, i: nat)
    requires i < |rows|
    ensures KeysBefore(lower, rows, i + 1)
         == KeysBefore(lower, rows, i) + (if OK(rows[i]) then {KeyOf(lower, rows[i])} else {})
  {
    hide KeyOf;
  }

  lemma SeenMeansListed(lower: string -> string, existing: seq<TxRow>, rows: seq<ImportRow>, i: nat, key: string)
    requires i < |rows| && key == KeyOf(lower, rows[i])
    ensures key in ListedKeys(lower, existing) + KeysBefore(lower, rows, i)
       <==> KeyListed(lower, existing, key) || SeenBefore(lower, rows, i)
  {
    hide KeyOf, TxKey;
  }

  method Preview(rows: seq<CsvRow>, accounts: seq<Named>, categories: seq<Named>, txns: seq<TxRow>,
                 lower: string -> string)
    returns (out: seq<ImportRow>)
    ensures out == SortByLine(Previewed(rows, accounts, categories, txns, lower))
  {
    hide Resolve, KeyOf, TxKey, Scan, NameMap;
    var accByName := BuildNameMap(accounts, lower);
    var catByName := BuildNameMap(categories, lower);
    var minD, maxD;
    out, minD, maxD := ResolveRows(rows, accByName, catByName, lower);
    ghost var resolved := out;
    UnmarkedAtFirst(rows, accByName, catByName, lower);
    if minD != ZERO_DAY {
      var to := maxD + 1;
      var existing := Filter.Selected(Filter.TxFilter(Some(minD), Some(to), "", "", "", 0, 0), txns);
      out := MarkDuplicates(out, existing, lower);
    }
    assert out == Marked(lower, resolved, Scan(rows), txns);
    out := SortByLine(out);
  }

  lemma UnmarkedAtFirst(rows: seq<CsvRow>, accs: map<string, Id>, cats: map<string, Id>, lower: string -> string)
    ensures forall i :: 0 <= i < |rows| ==> !ResolveAll(rows, accs, cats, lower)[i].duplicate
  {
    hide FirstLayout, ParseText, ParseKind;
  }

  /** Preview's rows before the final sort. */
  function Previewed(rows: seq<CsvRow>, accounts: seq<Named>, categories: seq<Named>, txns: seq<TxRow>,
                     lower: string -> string): (r: seq<ImportRow>)
    ensures |r| == |rows|
  {
    Marked(lower, ResolveAll(rows, NameMap(accounts, lower), NameMap(categories, lower), lower), Scan(rows), txns)
  }

  /** A parsed file is in line order already, so Preview answers row for row. */
  lemma PreviewKeepsFileOrder(rows: seq<CsvRow>, accounts: seq<Named>, categories: seq<Named>, txns: seq<TxRow>,
                              lower: string -> string)
    requires LinesAscend(rows)
    ensures var out := Previewed(rows, accounts, categories, txns, lower); SortByLine(out) == out
  {
    hide Flagged, SortByLine, FirstLayout, ParseText, ParseKind, Scan;
    var out := Previewed(rows, accounts, categories, txns, lower);
    forall i | 0 <= i < |rows| ensures out[i].raw == rows[i] {
      ResolveKeepsRaw(rows[i], NameMap(accounts, lower), NameMap(categories, lower), lower);
    }
    SortSorts(out);
  }

  lemma ResolveKeepsRaw(raw: CsvRow, accs: map<string, Id>, cats: map<string, Id>, lower: string -> string)
    ensures Resolve(raw, accs, cats, lower).raw == raw
  {
    hide FirstLayout, ParseText, ParseKind;
  }

  // ---- when the window loses nothing ----

  /** Every importable row lies in the scanned span, and the span is set. */
  predicate Covered(rows: seq<ImportRow>, w: Window) {
    forall i :: 0 <= i < |rows| && OK(rows[i]) ==>
      w.minD != ZERO_DAY && w.minD <= rows[i].occurredAt <= w.maxD + 1
  }

  lemma OKRow(raw: CsvRow, accs: map<string, Id>, cats: map<string, Id>, lower: string -> string)
    requires OK(Resolve(raw, accs, cats, lower))
    ensures var r := Resolve(raw, accs, cats, lower);
            && FirstLayout(0, raw.date) == Some(r.occurredAt)
            && ParseKind(r.kind).Some? && r.amount > 0
  {
    hide FirstLayout, ParseText;
  }

  /** Only the three kind names are kinds. */
  lemma KindOfText(s: string)
    requires ParseKind(s).Some?
    ensures KindText(ParseKind(s).value) == s && NoBar(s)
  {
  }

  lemma KindHasNoBar(k: Kind)
    ensures NoBar(KindText(k))
  {
  }

  lemma {:induction false} SelectedIsFilter(f: Filter.TxFilter, txns: seq<TxRow>, row: TxRow)
    ensures row in Filter.Selected(f, txns) <==> row in txns && !row.deleted && Filter.Matches(f, row.tx)
    decreases |txns|
  {
    hide Filter.Matches;
    if txns == [] {
    } else {
      var n := |txns| - 1;
      SelectedIsFilter(f, txns[..n], row);
      assert txns == txns[..n] + [txns[n]];
    }
  }

  /** The windowed list has a key iff some live transaction in the window has it. */
  lemma ListedIffInWindow(lower: string -> string, w: Window, txns: seq<TxRow>, key: string)
    ensures KeyListed(lower, Filter.Selected(WindowFilter(w), txns), key) <==>
            exists i :: 0 <= i < |txns| && !txns[i].deleted && TxKey(lower, txns[i].tx) == key
                        && w.minD <= txns[i].tx.occurredAt <= w.maxD + 1
  {
    hide TxKey, Filter.Selected;
    var sel := Filter.Selected(WindowFilter(w), txns);
    if KeyListed(lower, sel, key) {
      var k :| 0 <= k < |sel| && TxKey(lower, sel[k].tx) == key;
      SelectedIsFilter(WindowFilter(w), txns, sel[k]);
      var i :| 0 <= i < |txns| && txns[i] == sel[k];
      assert !txns[i].deleted && TxKey(lower, txns[i].tx) == key;
    }
    if i :| 0 <= i < |txns| && !txns[i].deleted && TxKey(lower, txns[i].tx) == key
            && w.minD <= txns[i].tx.occurredAt <= w.maxD + 1 {
      SelectedIsFilter(WindowFilter(w), txns, txns[i]);
      var k :| 0 <= k < |sel| && sel[k] == txns[i];
      assert TxKey(lower, sel[k].tx) == key;
    }
  }

  /** Rows as Preview resolves them. */
  predicate AllResolved(rows: seq<ImportRow>) {
    forall i :: 0 <= i < |rows| && OK(rows[i]) ==>
      ParseKind(rows[i].kind).Some? && rows[i].amount > 0
  }

  lemma ResolvedRows(rows: seq<CsvRow>, accs: map<string, Id>, cats: map<string, Id>, lower: string -> string)
    ensures AllResolved(ResolveAll(rows, accs, cats, lower))
  {
    hide Resolve, ParseKind;
    var out := ResolveAll(rows, accs, cats, lower);
    forall i | 0 <= i < |rows| && OK(out[i])
      ensures ParseKind(out[i].kind).Some? && out[i].amount > 0
    {
      OKRow(rows[i], accs, cats, lower);
    }
  }

  lemma SameKeySameDay(lower: string -> string, r: ImportRow, t: Tx)
    requires ParseKind(r.kind).Some?
    requires TxKey(lower, t) == KeyOf(lower, r)
    ensures t.occurredAt == r.occurredAt
  {
    hide DedupKey, ParseKind;
    KindHasNoBar(t.kind);
    KindOfText(r.kind);
    KeyIsInjective(lower, KindText(t.kind), t.amount, t.occurredAt, t.note, r.kind, r.amount, r.occurredAt, r.raw.note);
  }

  /** When the span covers the importable rows, the windowed seen-set check is the full scan. */
  lemma CoveredMeansExact(lower: string -> string, rows: seq<ImportRow>, w: Window, txns: seq<TxRow>, i: nat)
    requires i < |rows| && OK(rows[i]) && AllResolved(rows) && Covered(rows, w)
    ensures Flagged(lower, rows, w, txns, i) <==> Duplicate(lower, rows, txns, i)
  {
    hide TxKey, KeyOf, ParseKind, SeenBefore;
    var key := KeyOf(lower, rows[i]);
    ListedIffInWindow(lower, w, txns, key);
    forall k | 0 <= k < |txns| && TxKey(lower, txns[k].tx) == key ensures txns[k].tx.occurredAt == rows[i].occurredAt {
      SameKeySameDay(lower, rows[i], txns[k].tx);
    }
  }

  /** A ledger transaction that the file's row duplicates. */
  function Twin(r: ImportRow): TxRow
    requires ParseKind(r.kind).Some?
  {
    var kind := ParseKind(r.kind).value;
    var to := if kind == Transfer then Some("b") else None;
    TxRow("twin", Tx(kind, r.amount, "a", to, None, r.occurredAt, r.raw.note), false)
  }

  /** The first importable row outside the span, if there is one. */
  lemma {:induction false} FirstUncovered(rows: seq<ImportRow>, w: Window, n: nat) returns (i: nat)
    requires n <= |rows| && !Covered(rows[..n], w)
    ensures i < n && OK(rows[i]) && !(w.minD != ZERO_DAY && w.minD <= rows[i].occurredAt <= w.maxD + 1)
    ensures Covered(rows[..i], w)
    decreases n
  {
    if Covered(rows[..n - 1], w) {
      i := n - 1;
      var k :| 0 <= k < n && OK(rows[..n][k])
               && !(w.minD != ZERO_DAY && w.minD <= rows[..n][k].occurredAt <= w.maxD + 1);
      assert rows[..n - 1] == rows[..n][..n - 1];
    } else {
      i := FirstUncovered(rows, w, n - 1);
    }
  }

  /** And when it does not cover them, some well-formed ledger exposes it: a row that is a plain
      duplicate goes unflagged. */
  lemma UncoveredMissesDuplicate(lower: string -> string, rows: seq<ImportRow>, w: Window)
    returns (txns: seq<TxRow>, i: nat)
    requires AllResolved(rows) && !Covered(rows, w)
    ensures |txns| == 1 && ShapeOk(txns[0].tx)
    ensures i < |rows| && OK(rows[i]) && Duplicate(lower, rows, txns, i) && !Flagged(lower, rows, w, txns, i)
  {
    hide TxKey, KeyOf, ParseKind;
    assert rows[..|rows|] == rows;
    i := FirstUncovered(rows, w, |rows|);
    var r := rows[i];
    txns := [Twin(r)];
    TwinHasKey(lower, r);
    assert !txns[0].deleted && TxKey(lower, txns[0].tx) == KeyOf(lower, r);
    ListedIffInWindow(lower, w, txns, KeyOf(lower, r));
    if w.minD != ZERO_DAY && SeenBefore(lower, rows, i) {
      var j :| 0 <= j < i && OK(rows[j]) && KeyOf(lower, rows[j]) == KeyOf(lower, r);
      assert OK(rows[..i][j]);
      TwinHasKey(lower, rows[j]);
      SameKeySameDay(lower, r, Twin(rows[j]).tx);
    }
  }

  lemma TwinHasKey(lower: string -> string, r: ImportRow)
    requires ParseKind(r.kind).Some? && r.amount > 0
    ensures TxKey(lower, Twin(r).tx) == KeyOf(lower, r) && ShapeOk(Twin(r).tx) && Twin(r).tx.occurredAt == r.occurredAt
  {
    hide DedupKey, ParseKind, KindText;
    KindOfText(r.kind);
  }

  /** The windowed prefilter refines the full scan on every ledger if and only if the scanned span
      covers the importable rows, which is known before any transaction is read. */
  lemma WindowedDedupIff(lower: string -> string, rows: seq<ImportRow>, w: Window)
    requires AllResolved(rows)
    ensures (forall txns: seq<TxRow>, i: nat :: i < |rows| && OK(rows[i]) ==>
               (Flagged(lower, rows, w, txns, i) <==> Duplicate(lower, rows, txns, i)))
       <==> Covered(rows, w)
  {
    hide Flagged, Duplicate, AllResolved, ShapeOk;
    if Covered(rows, w) {
      forall txns: seq<TxRow>, i: nat | i < |rows| && OK(rows[i])
        ensures Flagged(lower, rows, w, txns, i) <==> Duplicate(lower, rows, txns, i)
      {
        CoveredMeansExact(lower, rows, w, txns, i);
      }
    } else {
      var txns, i := UncoveredMissesDuplicate(lower, rows, w);
    }
  }

  lemma {:induction false} ScanBounds(rows: seq<CsvRow>, i: nat)
    requires i < |rows| && FirstLayout(0, rows[i].date).Some?
    requires forall k :: 0 <= k < |rows| ==> FirstLayout(0, rows[k].date) != Some(ZERO_DAY)
    ensures Scan(rows).minD != ZERO_DAY && Scan(rows).maxD != ZERO_DAY
    ensures Scan(rows).minD <= FirstLayout(0, rows[i].date).value <= Scan(rows).maxD
    decreases |rows|
  {
    hide FirstLayout;
    var n := |rows| - 1;
    assert forall k :: 0 <= k < n ==> rows[..n][k] == rows[k];
    if i < n {
      ScanBounds(rows[..n], i);
    } else {
      ScanSetOrUnset(rows[..n]);
    }
  }

  lemma {:induction false} ScanSetOrUnset(rows: seq<CsvRow>)
    requires forall k :: 0 <= k < |rows| ==> FirstLayout(0, rows[k].date) != Some(ZERO_DAY)
    ensures Scan(rows) == UNSET || (Scan(rows).minD != ZERO_DAY && Scan(rows).maxD != ZERO_DAY)
    decreases |rows|
  {
    hide FirstLayout;
    if rows == [] {
    } else {
      var n := |rows| - 1;
      assert forall k :: 0 <= k < n ==> rows[..n][k] == rows[k];
      ScanSetOrUnset(rows[..n]);
    }
  }

  predicate NoZeroDates(csv: seq<CsvRow>) {
    forall k :: 0 <= k < |csv| ==> FirstLayout(0, csv[k].date) != Some(ZERO_DAY)
  }

  /** A file without a row dated 0001-01-01, the zero time, is always covered. */
  lemma NoZeroDateIsCovered(rows: seq<CsvRow>, accs: map<string, Id>, cats: map<string, Id>, lower: string -> string)
    requires NoZeroDates(rows)
    ensures Covered(ResolveAll(rows, accs, cats, lower), Scan(rows))
  {
    hide FirstLayout, Resolve, Scan;
    var out := ResolveAll(rows, accs, cats, lower);
    forall i | 0 <= i < |out| && OK(out[i])
      ensures Scan(rows).minD != ZERO_DAY && Scan(rows).minD <= out[i].occurredAt <= Scan(rows).maxD + 1
    {
      OKRow(rows[i], accs, cats, lower);
      ScanBounds(rows, i);
    }
  }

  const UNDATED_ROW := CsvRow(2, "0001-01-01", "income", "1", "cash", "", "", "")

  /** A file that is not covered: its one row is importable and dated on the zero time, so no span is
      ever set, the ledger is not read, and nothing is flagged. */
  lemma ZeroDateFileIsUncovered(lower: string -> string)
    requires lower("income") == "income"
    ensures var csv, names := [UNDATED_ROW], [Named("id", "cash")];
            var rows := ResolveAll(csv, NameMap(names, lower), map[], lower);
            OK(rows[0]) && Scan(csv) == UNSET && !Covered(rows, Scan(csv))
  {
    hide FirstLayout, ParseText, ParseKind, Scan;
    var csv, names := [UNDATED_ROW], [Named("id", "cash")];
    UndatedFields();
    OneNamed(names[0], lower);
    ScanStep(csv, 0);
    assert csv[..1] == csv && csv[..0] == [];
    ScanNothing();
    var rows := ResolveAll(csv, NameMap(names, lower), map[], lower);
    assert OK(rows[0]);
  }

  const DATED_ROW := CsvRow(2, "2024-05-01", "income", "1", "cash", "", "", "")

  /** 2024-05-01. */
  const DATED: Day := 739007

  /** A file that exposes it on an ordinary ledger: the row dated on the zero time resets the start of the span,
      so the ledger is not read, and the ordinary row before it goes unflagged though it was imported already. */
  lemma ZeroDateHidesDuplicate(lower: string -> string)
    requires lower("income") == "income"
    ensures var csv, names := [DATED_ROW, UNDATED_ROW.(lineNo := 3)], [Named("id", "cash")];
            var rows := ResolveAll(csv, NameMap(names, lower), map[], lower);
            var txns := [TxRow("tx", Tx(Income, 100, "id", None, None, DATED, ""), false)];
            && OK(rows[0]) && rows[0].occurredAt == DATED && ShapeOk(txns[0].tx)
            && Duplicate(lower, rows, txns, 0) && !Flagged(lower, rows, Scan(csv), txns, 0)
  {
    hide FirstLayout, ParseText, ParseKind, Scan, DedupKey, KeyListed;
    var csv, names := [DATED_ROW, UNDATED_ROW.(lineNo := 3)], [Named("id", "cash")];
    UndatedFields();
    DatedFields();
    OneNamed(names[0], lower);
    ScanStep(csv, 0);
    ScanStep(csv, 1);
    assert csv[..2] == csv && csv[..0] == [];
    ScanNothing();
    var rows := ResolveAll(csv, NameMap(names, lower), map[], lower);
    assert OK(rows[0]) && rows[0].kind == "income" && rows[0].amount == 100;
    var txns := [TxRow("tx", Tx(Income, 100, "id", None, None, DATED, ""), false)];
    assert !txns[0].deleted && TxKey(lower, txns[0].tx) == KeyOf(lower, rows[0]);
  }

  lemma DatedFields()
    ensures FirstLayout(0, DATED_ROW.date) == Some(DATED)
  {
    hide ParseLayout, Digits2, Ordinal;
    var s := "2024-05-01";
    TwoDigits(s, 0); TwoDigits(s, 2); TwoDigits(s, 5); TwoDigits(s, 8);
    IsoText(s);
    MayDay();
  }

  lemma MayDay()
    ensures ValidDate(RawDate(2024, 5, 1)) && Ordinal(RawDate(2024, 5, 1)) == DATED
  {
  }

  lemma UndatedFields()
    ensures FirstLayout(0, UNDATED_ROW.date) == Some(ZERO_DAY) && ParseText(UNDATED_ROW.amount) == Ok(100)
    ensures ParseKind("income") == Some(Income)
  {
    hide ParseText, ParseLayout, Wrap;
    UndatedDate();
    ParseOfDecimal(1);
    WrapIsExactIffInRange(100);
    DecimalOne(1);
    IncomeIsAKind();
  }

  lemma UndatedDate()
    ensures ParseLayout(0, "0001-01-01") == Some(ZERO_DAY)
  {
    hide ParseLayout, Digits2, Ordinal;
    var s := "0001-01-01";
    TwoDigits(s, 0); TwoDigits(s, 2); TwoDigits(s, 5); TwoDigits(s, 8);
    IsoText(s);
    FirstDay();
  }

  lemma TwoDigits(s: string, i: nat)
    requires i + 2 <= |s| && IsDigit(s[i]) && IsDigit(s[i + 1])
    ensures Digits2(s, i) == Some(10 * DigitValue(s[i]) + DigitValue(s[i + 1]))
  {
  }

  lemma IsoText(s: string)
    requires |s| == 10 && s[4] == '-' && s[7] == '-'
    ensures ParseLayout(0, s) == DateOfFields(Digits4(s, 0), Digits2(s, 5), Digits2(s, 8))
  {
    hide Digits4, Digits2, DateOfFields;
  }

  lemma FirstDay()
    ensures ValidDate(RawDate(1, 1, 1)) && Ordinal(RawDate(1, 1, 1)) == ZERO_DAY
  {
  }

  lemma OneNamed(n: Named, lower: string -> string)
    ensures lower(n.name) in NameMap([n], lower)
  {
    assert [n][..0] == [];
  }

  lemma IncomeIsAKind()
    ensures ParseKind("income") == Some(Income)
  {
  }

  /** The rows ticked by default: importable and not flagged. */
  predicate Ticked(r: ImportRow) {
    OK(r) && !r.duplicate
  }

  /** Ticked rows have pairwise distinct keys, none of them in the ledger. */
  lemma TickedRowsAreNew(lower: string -> string, rows: seq<ImportRow>, w: Window, txns: seq<TxRow>, i: nat, j: nat)
    requires AllResolved(rows) && Covered(rows, w) && i < j < |rows|
    requires Ticked(Marked(lower, rows, w, txns)[i]) && Ticked(Marked(lower, rows, w, txns)[j])
    ensures KeyOf(lower, rows[i]) != KeyOf(lower, rows[j])
    ensures !InLedger(lower, txns, KeyOf(lower, rows[i]))
  {
    hide KeyOf, InLedger, AllResolved, Covered, Flagged;
    CoveredMeansExact(lower, rows, w, txns, i);
    CoveredMeansExact(lower, rows, w, txns, j);
  }
}
