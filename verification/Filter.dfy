/** The transaction filter compiled to SQL text with positional placeholders. */
module Filter {
  import opened Calendar
  import opened Domain
  import opened Digits
  import opened Ledger
  import opened Sql

  datatype TxFilter = TxFilter(
    from: Option<Day>,
    to: Option<Day>,
    accountId: string,
    categoryId: string,
    kind: string,
    limit: int,
    offset: int)

  /** The date half of the filter. */
  predicate DatesMatch(f: TxFilter, t: Tx) {
    && (f.from.Some? ==> t.occurredAt >= f.from.value)
    && (f.to.Some? ==> t.occurredAt <= f.to.value)
  }

  /** The column half of the filter. */
  predicate ColumnsMatch(f: TxFilter, t: Tx) {
    && (f.accountId != "" ==> t.account == f.accountId || t.toAccount == Some(f.accountId))
    && (f.categoryId != "" ==> t.category == Some(f.categoryId))
    && (f.kind != "" ==> KindText(t.kind) == f.kind)
  }

  /** What the filter means: five optional tests. */
  predicate Matches(f: TxFilter, t: Tx) {
    DatesMatch(f, t) && ColumnsMatch(f, t)
  }

  // ---- the compiler ----

  const FROM_COND := "t.occurred_at >="
  const TO_COND := "t.occurred_at <="
  const CATEGORY_COND := "t.category_id ="
  const KIND_COND := "t.kind ="

  /** fmt.Fprintf(&b, " AND %s $%d", cond, n). */
  function CondText(cond: string, n: nat): string {
    " AND " + cond + " $" + Decimal(n)
  }

  function AccountText(n: nat): string {
    " AND (t.account_id = $" + Decimal(n) + " OR t.to_account_id = $" + Decimal(n) + ")"
  }

  /** The `add` closure. */
  method Add(cond: string, val: Arg, args: seq<Arg>, b: string) returns (args': seq<Arg>, b': string)
    ensures args' == args + [val] && b' == b + CondText(cond, |args| + 1)
  {
    args' := args + [val];
    b' := b + CondText(cond, |args'|);
  }

  /** The two date tests. */
  method WhereDates(f: TxFilter, args0: seq<Arg>) returns (args: seq<Arg>, b: string)
    ensures args == args0 + DateArgs(f)
    ensures b == RenderAll(DateConds(f, |args0|))
  {
    hide RenderAll, DateConds, CondText;
    args, b := args0, "";
    RenderTwo(f, |args0|);
    if f.from.Some? {
      args, b := Add(FROM_COND, DateArg(f.from.value), args, b);
    }
    if f.to.Some? {
      args, b := Add(TO_COND, DateArg(f.to.value), args, b);
    }
  }

  /** The three equality tests. */
  method WhereColumns(f: TxFilter, args0: seq<Arg>) returns (args: seq<Arg>, b: string)
    ensures args == args0 + ColumnArgs(f)
    ensures b == RenderAll(ColumnConds(f, |args0|))
  {
    hide RenderAll, ColumnConds, CondText, AccountText, ColumnArgs;
    args, b := args0, "";
    RenderThree(f, |args0|);
    if f.accountId != "" {
      args := args + [TextArg(f.accountId)];
      var n := |args|;
      b := b + AccountText(n);
    }
    ghost var a1 := args;
    assert a1 == args0 + Opt(f.accountId != "", TextArg(f.accountId));
    if f.categoryId != "" {
      args, b := Add(CATEGORY_COND, TextArg(f.categoryId), args, b);
    }
    ghost var a2 := args;
    assert a2 == a1 + Opt(f.categoryId != "", TextArg(f.categoryId));
    if f.kind != "" {
      args, b := Add(KIND_COND, TextArg(f.kind), args, b);
    }
    assert args == a2 + Opt(f.kind != "", TextArg(f.kind));
    ColumnArgsAssociate(f, args0);
  }

  lemma ColumnArgsAssociate(f: TxFilter, args0: seq<Arg>)
    ensures args0 + Opt(f.accountId != "", TextArg(f.accountId)) + Opt(f.categoryId != "", TextArg(f.categoryId))
            + Opt(f.kind != "", TextArg(f.kind)) == args0 + ColumnArgs(f)
  {
    hide Opt;
  }

  method TxWhere(f: TxFilter, args0: seq<Arg>) returns (args: seq<Arg>, b: string)
    ensures args == args0 + WhereArgs(f)
    ensures b == RenderAll(WhereConds(f, |args0|))
  {
    hide RenderAll, DateConds, DateArgs, ColumnConds, ColumnArgs;
    var dates, columns;
    args, dates := WhereDates(f, args0);
    RenderConcat(DateConds(f, |args0|), ColumnConds(f, |args|));
    args, columns := WhereColumns(f, args);
    DateArgCount(f, |args0|);
    b := dates + columns;
  }

  // ---- the tests it writes ----

  function OccurredFrom(n: nat): Cond {
    Simple(Comparison(OccurredAtColumn, AtLeast, n))
  }

  function OccurredTo(n: nat): Cond {
    Simple(Comparison(OccurredAtColumn, AtMost, n))
  }

  function AccountIs(n: nat): Cond {
    Either(Comparison(AccountColumn, Equals, n), Comparison(ToAccountColumn, Equals, n))
  }

  function CategoryIs(n: nat): Cond {
    Simple(Comparison(CategoryColumn, Equals, n))
  }

  function KindIs(n: nat): Cond {
    Simple(Comparison(KindColumn, Equals, n))
  }

  lemma SimpleText(cond: string, column: Column, op: Operator, n: nat)
    requires cond + " $" == Name(column) + Symbol(op)
    ensures CondText(cond, n) == Render(Simple(Comparison(column, op, n)))
  {
    hide Name, Symbol, Decimal;
    assert CondText(cond, n) == " AND " + ((cond + " $") + Decimal(n));
  }

  /** The compiler's texts are these tests in SQL. */
  lemma TextsAreTests(n: nat)
    ensures CondText(FROM_COND, n) == Render(OccurredFrom(n)) && CondText(TO_COND, n) == Render(OccurredTo(n))
    ensures CondText(CATEGORY_COND, n) == Render(CategoryIs(n)) && CondText(KIND_COND, n) == Render(KindIs(n))
  {
    hide CondText, Render;
    SimpleText(FROM_COND, OccurredAtColumn, AtLeast, n);
    SimpleText(TO_COND, OccurredAtColumn, AtMost, n);
    SimpleText(CATEGORY_COND, CategoryColumn, Equals, n);
    SimpleText(KIND_COND, KindColumn, Equals, n);
  }

  lemma Regroup(open: string, a: string, d: string, or: string, b: string, close: string, eq: string)
    ensures open + (a + eq) + d + (or + (b + eq)) + d + close
         == open + ((a + (eq + d)) + (or + ((b + (eq + d)) + close)))
  {
  }

  lemma AccountTextIsTest(n: nat)
    ensures AccountText(n) == Render(AccountIs(n))
  {
    hide Decimal;
    Regroup(" AND (", "t.account_id", Decimal(n), " OR ", "t.to_account_id", ")", " = $");
    assert " AND (t.account_id = $" == " AND (" + ("t.account_id" + " = $");
    assert " OR t.to_account_id = $" == " OR " + ("t.to_account_id" + " = $");
  }

  lemma {:induction false} RenderConcat(a: seq<Cond>, b: seq<Cond>)
    ensures RenderAll(a + b) == RenderAll(a) + RenderAll(b)
    decreases |a|
  {
    hide Render;
    if a == [] {
      assert a + b == b;
    } else {
      assert (a + b)[1..] == a[1..] + b;
      RenderConcat(a[1..], b);
    }
  }

  function OptText(present: bool, c: Cond): string {
    if present then Render(c) else ""
  }

  lemma RenderOpt(present: bool, c: Cond)
    ensures RenderAll(Opt(present, c)) == OptText(present, c)
  {
    hide Render;
    assert [c][1..] == [];
  }

  function Opt<T>(present: bool, x: T): seq<T> {
    if present then [x] else []
  }

  function One(present: bool): nat {
    if present then 1 else 0
  }

  function DateConds(f: TxFilter, k: nat): seq<Cond> {
    var n1 := k + One(f.from.Some?);
    var n2 := n1 + One(f.to.Some?);
    Opt(f.from.Some?, OccurredFrom(n1)) + Opt(f.to.Some?, OccurredTo(n2))
  }

  function ColumnConds(f: TxFilter, k: nat): seq<Cond> {
    var n3 := k + One(f.accountId != "");
    var n4 := n3 + One(f.categoryId != "");
    var n5 := n4 + One(f.kind != "");
    Opt(f.accountId != "", AccountIs(n3)) + (Opt(f.categoryId != "", CategoryIs(n4)) + Opt(f.kind != "", KindIs(n5)))
  }

  function DateArgs(f: TxFilter): seq<Arg> {
    (if f.from.Some? then [DateArg(f.from.value)] else []) + (if f.to.Some? then [DateArg(f.to.value)] else [])
  }

  function ColumnArgs(f: TxFilter): seq<Arg> {
    Opt(f.accountId != "", TextArg(f.accountId))
    + (Opt(f.categoryId != "", TextArg(f.categoryId)) + Opt(f.kind != "", TextArg(f.kind)))
  }

  function WhereConds(f: TxFilter, k: nat): seq<Cond> {
    DateConds(f, k) + ColumnConds(f, k + |DateArgs(f)|)
  }

  function WhereArgs(f: TxFilter): seq<Arg> {
    DateArgs(f) + ColumnArgs(f)
  }

  lemma DateArgCount(f: TxFilter, k: nat)
    ensures |DateArgs(f)| == One(f.from.Some?) + One(f.to.Some?)
  {
  }

  lemma RenderTwo(f: TxFilter, k: nat)
    ensures var n1 := k + One(f.from.Some?);
            var n2 := n1 + One(f.to.Some?);
            RenderAll(DateConds(f, k))
            == (if f.from.Some? then CondText(FROM_COND, n1) else "")
             + (if f.to.Some? then CondText(TO_COND, n2) else "")
  {
    hide RenderAll, CondText, Render;
    TextsAreTests(k + One(f.from.Some?));
    TextsAreTests(k + One(f.from.Some?) + One(f.to.Some?));
    var n1 := k + One(f.from.Some?);
    var n2 := n1 + One(f.to.Some?);
    RenderConcat(Opt(f.from.Some?, OccurredFrom(n1)), Opt(f.to.Some?, OccurredTo(n2)));
    RenderOpt(f.from.Some?, OccurredFrom(n1));
    RenderOpt(f.to.Some?, OccurredTo(n2));
  }

  /** Text written only if its test is present. */
  function Piece(present: bool, text: string): string {
    if present then text else ""
  }

  lemma RenderThree(f: TxFilter, k: nat)
    ensures var n3 := k + One(f.accountId != "");
            var n4 := n3 + One(f.categoryId != "");
            RenderAll(ColumnConds(f, k))
            == Piece(f.accountId != "", AccountText(k + 1))
             + Piece(f.categoryId != "", CondText(CATEGORY_COND, n3 + 1))
             + Piece(f.kind != "", CondText(KIND_COND, n4 + 1))
  {
    hide RenderAll, CondText, AccountText, Render;
    AccountTextIsTest(k + One(f.accountId != ""));
    TextsAreTests(k + One(f.accountId != "") + One(f.categoryId != ""));
    TextsAreTests(k + One(f.accountId != "") + One(f.categoryId != "") + One(f.kind != ""));
    var n3 := k + One(f.accountId != "");
    var n4 := n3 + One(f.categoryId != "");
    var n5 := n4 + One(f.kind != "");
    var a, b := Opt(f.accountId != "", AccountIs(n3)), Opt(f.categoryId != "", CategoryIs(n4));
    var c := Opt(f.kind != "", KindIs(n5));
    assert a + (b + c) == a + b + c;
    RenderConcat(a + b, c);
    RenderConcat(a, b);
    RenderOpt(f.accountId != "", AccountIs(n3));
    RenderOpt(f.categoryId != "", CategoryIs(n4));
    RenderOpt(f.kind != "", KindIs(n5));
  }

  // ---- what the text means to the database ----

  lemma DatesMean(f: TxFilter, args: seq<Arg>, k: nat, t: Tx)
    requires k + |DateArgs(f)| <= |args| && args[k..k + |DateArgs(f)|] == DateArgs(f)
    ensures AllBound(DateConds(f, k), args)
    ensures AllHold(DateConds(f, k), args, t) <==> DatesMatch(f, t)
  {
    forall i | 0 <= i < |DateArgs(f)| ensures args[k + i] == DateArgs(f)[i] {
      assert args[k..k + |DateArgs(f)|][i] == args[k + i];
    }
    if f.from.Some? { assert args[k + 0] == DateArg(f.from.value); }
    if f.to.Some? { assert args[k + One(f.from.Some?)] == DateArg(f.to.value); }
    var conds := DateConds(f, k);
    if f.from.Some? { assert conds[0] == OccurredFrom(k + 1); }
    if f.to.Some? { assert conds[One(f.from.Some?)] == OccurredTo(k + One(f.from.Some?) + 1); }
  }

  lemma AllHoldConcat(a: seq<Cond>, b: seq<Cond>, args: seq<Arg>, t: Tx)
    requires AllBound(a, args) && AllBound(b, args)
    ensures AllBound(a + b, args)
    ensures AllHold(a + b, args, t) <==> AllHold(a, args, t) && AllHold(b, args, t)
  {
    hide Bound, Holds;
    if AllHold(a + b, args, t) {
      forall i | 0 <= i < |a| ensures Holds(a[i], args, t) { assert (a + b)[i] == a[i]; }
      forall i | 0 <= i < |b| ensures Holds(b[i], args, t) { assert (a + b)[|a| + i] == b[i]; }
    }
  }

  lemma ArgAt(args: seq<Arg>, k: nat, part: seq<Arg>, i: nat)
    requires k + |part| <= |args| && args[k..k + |part|] == part && i < |part|
    ensures args[k + i] == part[i]
  {
    assert args[k..k + |part|][i] == args[k + i];
  }

  lemma OptHolds(present: bool, c: Cond, args: seq<Arg>, t: Tx)
    requires present ==> Bound(c, args)
    ensures AllBound(Opt(present, c), args)
    ensures AllHold(Opt(present, c), args, t) <==> (present ==> Holds(c, args, t))
  {
    hide Bound, Holds;
    if present { assert Opt(present, c)[0] == c; }
  }

  /** Each column test finds its own argument at its placeholder. */
  lemma ColumnArgsPlaced(f: TxFilter, args: seq<Arg>, k: nat)
    requires k + |ColumnArgs(f)| <= |args| && args[k..k + |ColumnArgs(f)|] == ColumnArgs(f)
    ensures var n3 := k + One(f.accountId != "");
            var n4 := n3 + One(f.categoryId != "");
            var n5 := n4 + One(f.kind != "");
            && n5 <= |args|
            && (f.accountId != "" ==> n3 > 0 && args[n3 - 1] == TextArg(f.accountId))
            && (f.categoryId != "" ==> n4 > 0 && args[n4 - 1] == TextArg(f.categoryId))
            && (f.kind != "" ==> n5 > 0 && args[n5 - 1] == TextArg(f.kind))
  {
    var i, j := One(f.accountId != ""), One(f.accountId != "") + One(f.categoryId != "");
    if f.accountId != "" { ArgAt(args, k, ColumnArgs(f), 0); }
    if f.categoryId != "" { ArgAt(args, k, ColumnArgs(f), i); }
    if f.kind != "" { ArgAt(args, k, ColumnArgs(f), j); }
  }

  lemma ColumnsMean(f: TxFilter, args: seq<Arg>, k: nat, t: Tx)
    requires k + |ColumnArgs(f)| <= |args| && args[k..k + |ColumnArgs(f)|] == ColumnArgs(f)
    ensures AllBound(ColumnConds(f, k), args)
    ensures AllHold(ColumnConds(f, k), args, t) <==> ColumnsMatch(f, t)
  {
    hide KindText, AllBound, AllHold, ColumnArgs, Opt;
    var n3 := k + One(f.accountId != "");
    var n4 := n3 + One(f.categoryId != "");
    var n5 := n4 + One(f.kind != "");
    ColumnArgsPlaced(f, args, k);
    OptHolds(f.accountId != "", AccountIs(n3), args, t);
    OptHolds(f.categoryId != "", CategoryIs(n4), args, t);
    OptHolds(f.kind != "", KindIs(n5), args, t);
    AllHoldConcat(Opt(f.categoryId != "", CategoryIs(n4)), Opt(f.kind != "", KindIs(n5)), args, t);
    AllHoldConcat(Opt(f.accountId != "", AccountIs(n3)),
                  Opt(f.categoryId != "", CategoryIs(n4)) + Opt(f.kind != "", KindIs(n5)), args, t);
  }

  lemma CondsMeanFilter(f: TxFilter, args0: seq<Arg>, more: seq<Arg>, t: Tx)
    ensures var args := args0 + WhereArgs(f) + more;
            var conds := WhereConds(f, |args0|);
            && AllBound(conds, args)
            && (AllHold(conds, args, t) <==> Matches(f, t))
  {
    hide DateConds, ColumnConds, DateArgs, ColumnArgs, AllBound, AllHold;
    var args := args0 + WhereArgs(f) + more;
    var k := |args0| + |DateArgs(f)|;
    assert args[|args0|..k] == DateArgs(f);
    assert args[k..k + |ColumnArgs(f)|] == ColumnArgs(f);
    DatesMean(f, args, |args0|, t);
    ColumnsMean(f, args, k, t);
    AllHoldConcat(DateConds(f, |args0|), ColumnConds(f, k), args, t);
  }

  /** The compiled text, read by the database with its final argument list (LIMIT and OFFSET
      appended or not), is the filter's direct meaning, with every placeholder in range. */
  lemma CompilationPreservesMeaning(f: TxFilter, args0: seq<Arg>, more: seq<Arg>, t: Tx)
    ensures var args := args0 + WhereArgs(f) + more;
            var text := RenderAll(WhereConds(f, |args0|));
            && ReadAll(text).Some?
            && AllBound(ReadAll(text).value, args)
            && (AllHold(ReadAll(text).value, args, t) <==> Matches(f, t))
  {
    hide ReadAll, RenderAll, WhereConds, WhereArgs, AllBound, AllHold, Matches;
    ReadsAll(WhereConds(f, |args0|));
    CondsMeanFilter(f, args0, more, t);
  }

  // ---- the page window of List ----

  const ORDER_BY := " ORDER BY " + "t.occurred_at DESC" + ", t.created_at DESC"
  const LIMIT := " LIMIT $"
  const OFFSET := " OFFSET $"

  function WindowText(f: TxFilter, k: nat): string {
    if f.limit > 0 then LIMIT + Decimal(k + 1) + OFFSET + Decimal(k + 2) else ""
  }

  function WindowArgs(f: TxFilter): seq<Arg> {
    if f.limit > 0 then [IntArg(f.limit), IntArg(f.offset)] else []
  }

  /** List's query after its fixed SELECT, and its arguments. */
  method ListQuery(f: TxFilter) returns (args: seq<Arg>, q: string)
    ensures args == WhereArgs(f) + WindowArgs(f)
    ensures q == RenderAll(WhereConds(f, 0)) + ORDER_BY + WindowText(f, |WhereArgs(f)|)
  {
    hide RenderAll, WhereConds, WhereArgs, Decimal;
    args, q := TxWhere(f, []);
    q := q + ORDER_BY;
    if f.limit > 0 {
      args := args + [IntArg(f.limit)];
      var tail := LIMIT + Decimal(|args|);
      args := args + [IntArg(f.offset)];
      tail := tail + OFFSET + Decimal(|args|);
      q := q + tail;
    }
  }

  /** The limit and offset the database reads; without a LIMIT clause everything is listed. */
  function ReadWindow(s: string, args: seq<Arg>): Option<(int, int)> {
    if s == "" then Some((0, 0))
    else if !(LIMIT <= s) then None
    else
      var l := ReadNumber(s[|LIMIT|..]);
      if l.None? || !(OFFSET <= l.value.rest) then None
      else
        var o := ReadNumber(l.value.rest[|OFFSET|..]);
        if o.None? || o.value.rest != "" then None
        else
          var m, n := l.value.value, o.value.value;
          if 1 <= m <= |args| && 1 <= n <= |args| && args[m - 1].IntArg? && args[n - 1].IntArg?
          then Some((args[m - 1].n, args[n - 1].n))
          else None
  }

  /** The database pages by exactly the filter's limit and offset: the last two placeholders are in
      range, of the right type, and not exchanged. */
  lemma WindowArrives(f: TxFilter)
    ensures ReadWindow(WindowText(f, |WhereArgs(f)|), WhereArgs(f) + WindowArgs(f))
         == Some(if f.limit > 0 then (f.limit, f.offset) else (0, 0))
    ensures EndsOrder(WindowText(f, |WhereArgs(f)|))
  {
    hide ReadNumber, Decimal, WhereArgs, Delimited;
    if f.limit > 0 {
      var k := |WhereArgs(f)|;
      var tail := OFFSET + Decimal(k + 2);
      assert WindowText(f, k) == LIMIT + (Decimal(k + 1) + tail);
      StartsWith(LIMIT, Decimal(k + 1) + tail);
      StartsWith(OFFSET, Decimal(k + 2));
      assert Decimal(k + 2) + "" == Decimal(k + 2);
      DelimitedText(tail);
      NothingIsDelimited();
      ReadsNumber(k + 1, tail);
      ReadsNumber(k + 2, "");
      NotPrefix(" DESC", LIMIT, Decimal(k + 1) + tail, 1);
      NotPrefix(", ", LIMIT, Decimal(k + 1) + tail, 0);
    }
  }

  datatype Query = Query(conds: seq<Cond>, order: seq<SortKey>, window: (int, int))

  const BY := " ORDER BY "

  /** The database's reading of everything List sends after the fixed SELECT: tests up to the ORDER BY,
      the order, then the window. */
  function ReadQuery(s: string, args: seq<Arg>): Option<Query>
    decreases |s|
  {
    if BY <= s then
      var o := ReadSortKeys(s[|BY|..]);
      if o.None? then None
      else
        var w := ReadWindow(o.value.rest, args);
        if w.None? then None else Some(Query([], o.value.value, w.value))
    else
      var c := ReadCond(s);
      if c.None? || |c.value.rest| >= |s| then None
      else
        var rest := ReadQuery(c.value.rest, args);
        if rest.None? then None else Some(rest.value.(conds := [c.value.value] + rest.value.conds))
  }

  /** Newest date first, and within a date the newest row first. */
  const NEWEST_FIRST := [SortKey(OccurredAtColumn, true), SortKey(CreatedAtColumn, true)]

  lemma OrderIsText()
    ensures ORDER_BY == BY + SortKeysText(NEWEST_FIRST)
  {
    assert NEWEST_FIRST[1..] == [SortKey(CreatedAtColumn, true)];
    assert SortKeysText(NEWEST_FIRST) == "t.occurred_at" + " DESC" + (", " + ("t.created_at" + " DESC"));
    assert "t.occurred_at DESC" == "t.occurred_at" + " DESC";
    assert ", t.created_at DESC" == ", " + ("t.created_at" + " DESC");
  }

  /** A test starts with " A", the order with " O". */
  lemma TestIsNotOrder(c: Cond, rest: string)
    requires |Render(c)| > 1 && Render(c)[1] == 'A'
    ensures !(BY <= Render(c) + rest)
  {
    hide Render;
    NotPrefix(BY, Render(c), rest, 1);
  }

  lemma ReadsOrder(w: string, args: seq<Arg>)
    requires ReadWindow(w, args).Some? && EndsOrder(w)
    ensures ReadQuery(ORDER_BY + w, args) == Some(Query([], NEWEST_FIRST, ReadWindow(w, args).value))
    ensures Delimited(ORDER_BY + w)
  {
    hide ReadSortKeys, SortKeysText, ReadWindow;
    OrderIsText();
    var rest := SortKeysText(NEWEST_FIRST) + w;
    assert ORDER_BY + w == BY + rest;
    StartsWith(BY, rest);
    ReadsSortKeys(NEWEST_FIRST, w);
    assert (ORDER_BY + w)[0] == ' ';
    DelimitedText(ORDER_BY + w);
  }

  lemma QueryStep(c: Cond, tail: string, args: seq<Arg>)
    requires ReadQuery(tail, args).Some? && Delimited(tail)
    ensures var q := ReadQuery(tail, args).value;
            ReadQuery(Render(c) + tail, args) == Some(q.(conds := [c] + q.conds))
    ensures Delimited(Render(c) + tail)
  {
    hide ReadCond, Render, Delimited, ReadWindow, ReadSortKeys;
    ReadsCond(c, tail);
    TestIsNotOrder(c, tail);
  }

  lemma {:induction false} ReadsBefore(conds: seq<Cond>, tail: string, args: seq<Arg>)
    requires ReadQuery(tail, args).Some? && ReadQuery(tail, args).value.conds == [] && Delimited(tail)
    ensures ReadQuery(RenderAll(conds) + tail, args) == Some(ReadQuery(tail, args).value.(conds := conds))
    ensures Delimited(RenderAll(conds) + tail)
    decreases |conds|
  {
    hide ReadQuery, Render, Delimited, RenderAll;
    if conds == [] {
      NothingRendered();
      assert "" + tail == tail;
    } else {
      ReadsBefore(conds[1..], tail, args);
      RenderedFirst(conds);
      QueryStep(conds[0], RenderAll(conds[1..]) + tail, args);
      assert (Render(conds[0]) + RenderAll(conds[1..])) + tail == Render(conds[0]) + (RenderAll(conds[1..]) + tail);
      assert conds == [conds[0]] + conds[1..];
    }
  }

  lemma ReadsQuery(conds: seq<Cond>, w: string, args: seq<Arg>)
    requires ReadWindow(w, args).Some? && EndsOrder(w)
    ensures var s := RenderAll(conds) + (ORDER_BY + w);
            ReadQuery(s, args) == Some(Query(conds, NEWEST_FIRST, ReadWindow(w, args).value))
  {
    hide ReadQuery, Render, Delimited, ReadWindow, RenderAll, EndsOrder;
    ReadsOrder(w, args);
    ReadsBefore(conds, ORDER_BY + w, args);
  }

  lemma NothingRendered()
    ensures RenderAll([]) == ""
  {
  }

  lemma RenderedFirst(conds: seq<Cond>)
    requires conds != []
    ensures RenderAll(conds) == Render(conds[0]) + RenderAll(conds[1..])
  {
    hide Render;
  }

  /** The query as it is sent, read with the arguments as they are sent: its tests hold of a transaction exactly
      when the filter matches it, it orders by date and then by insertion, newest first, and it pages by exactly
      the filter's limit and offset. */
  lemma ListQueryMeansFilter(f: TxFilter, t: Tx)
    ensures var args := WhereArgs(f) + WindowArgs(f);
            var q := RenderAll(WhereConds(f, 0)) + ORDER_BY + WindowText(f, |WhereArgs(f)|);
            && ReadQuery(q, args).Some?
            && var read := ReadQuery(q, args).value;
               && AllBound(read.conds, args)
               && (AllHold(read.conds, args, t) <==> Matches(f, t))
               && read.order == [SortKey(OccurredAtColumn, true), SortKey(CreatedAtColumn, true)]
               && read.window == if f.limit > 0 then (f.limit, f.offset) else (0, 0)
  {
    hide ReadQuery, RenderAll, WhereConds, WhereArgs, AllBound, AllHold, Matches, ReadWindow, WindowText, WindowArgs,
         EndsOrder;
    var args := WhereArgs(f) + WindowArgs(f);
    var w := WindowText(f, |WhereArgs(f)|);
    WindowArrives(f);
    ReadsQuery(WhereConds(f, 0), w, args);
    assert RenderAll(WhereConds(f, 0)) + (ORDER_BY + w) == RenderAll(WhereConds(f, 0)) + ORDER_BY + w;
    CondsMeanFilter(f, [], WindowArgs(f), t);
    assert [] + WhereArgs(f) + WindowArgs(f) == args;
  }

  // ---- List and Count ----

  /** The rows a query's WHERE clause keeps. */
  function Selected(f: TxFilter, txns: seq<TxRow>): seq<TxRow> {
    if txns == [] then []
    else
      var last := txns[|txns| - 1];
      Selected(f, txns[..|txns| - 1]) + if !last.deleted && Matches(f, last.tx) then [last] else []
  }

  /** COUNT(*) reads the transactions table alone. */
  function Count(f: TxFilter, txns: seq<TxRow>): nat {
    |Selected(f, txns)|
  }

  function CountAccounts(accounts: seq<AccountRow>, id: Id): nat {
    if accounts == [] then 0
    else CountAccounts(accounts[..|accounts| - 1], id) + if accounts[|accounts| - 1].id == id then 1 else 0
  }

  function CountIds(ids: seq<Id>, id: Id): nat {
    if ids == [] then 0 else CountIds(ids[..|ids| - 1], id) + if ids[|ids| - 1] == id then 1 else 0
  }

  /** A LEFT JOIN keeps a row that finds no partner. */
  function AtLeastOne(n: nat): nat {
    if n == 0 then 1 else n
  }

  /** How often the listing's three joins repeat a transaction; 0 if the inner join drops it. */
  function JoinCopies(accounts: seq<AccountRow>, categories: seq<Id>, t: Tx): nat {
    CountAccounts(accounts, t.account)
    * AtLeastOne(if t.toAccount.Some? then CountAccounts(accounts, t.toAccount.value) else 0)
    * AtLeastOne(if t.category.Some? then CountIds(categories, t.category.value) else 0)
  }

  function Repeat(row: TxRow, n: nat): (s: seq<TxRow>)
    ensures |s| == n
  {
    seq(n, _ => row)
  }

  /** The joined, filtered listing before ordering and paging. */
  function Listing(f: TxFilter, b: Books, categories: seq<Id>, txns: seq<TxRow>): seq<TxRow> {
    if txns == [] then []
    else
      var last := txns[|txns| - 1];
      Listing(f, b, categories, txns[..|txns| - 1])
      + if !last.deleted && Matches(f, last.tx) then Repeat(last, JoinCopies(b.accounts, categories, last.tx)) else []
  }

  lemma {:induction false} AccountsCountedOnce(accounts: seq<AccountRow>, id: Id)
    requires UniqueAccounts(accounts)
    ensures CountAccounts(accounts, id) == if FindAccount(accounts, id).Some? then 1 else 0
    decreases |accounts|
  {
    if accounts == [] {
    } else {
      var front := accounts[..|accounts| - 1];
      AccountsCountedOnce(front, id);
      FindAccountFinds(front, id);
      assert forall i :: 0 <= i < |front| ==> front[i] == accounts[i];
    }
  }

  lemma {:induction false} IdsCountedOnce(ids: seq<Id>, id: Id)
    requires forall i, j :: 0 <= i < j < |ids| ==> ids[i] != ids[j]
    ensures CountIds(ids, id) <= 1
    ensures id !in ids ==> CountIds(ids, id) == 0
    decreases |ids|
  {
    if ids == [] {
    } else {
      var front := ids[..|ids| - 1];
      IdsCountedOnce(front, id);
      assert forall i :: 0 <= i < |front| ==> front[i] == ids[i];
      assert ids[|ids| - 1] !in front;
    }
  }

  /** The category rows in some order; the id is the primary key. */
  predicate CategoryTable(b: Books, categories: seq<Id>) {
    && (forall i, j :: 0 <= i < j < |categories| ==> categories[i] != categories[j])
    && (forall id :: id in b.categories ==> id in categories)
  }

  /** By the foreign keys and the primary keys, the joins neither drop nor repeat a transaction. */
  lemma JoinedOnce(b: Books, categories: seq<Id>, t: Tx)
    requires UniqueAccounts(b.accounts) && References(b, t)
    requires CategoryTable(b, categories)
    ensures JoinCopies(b.accounts, categories, t) == 1
  {
    hide CountAccounts, CountIds, FindAccount;
    AccountsCountedOnce(b.accounts, t.account);
    if t.toAccount.Some? { AccountsCountedOnce(b.accounts, t.toAccount.value); }
    if t.category.Some? { IdsCountedOnce(categories, t.category.value); }
  }

  /** So the unlimited listing is the filtered table, and Count is its length. */
  lemma {:induction false} ListIsSelection(f: TxFilter, b: Books, categories: seq<Id>, txns: seq<TxRow>)
    requires UniqueAccounts(b.accounts) && forall i :: 0 <= i < |txns| ==> References(b, txns[i].tx)
    requires CategoryTable(b, categories)
    ensures Listing(f, b, categories, txns) == Selected(f, txns)
    ensures |Listing(f, b, categories, txns)| == Count(f, txns)
    decreases |txns|
  {
    hide JoinCopies, Matches, References;
    if txns == [] {
    } else {
      ListIsSelection(f, b, categories, txns[..|txns| - 1]);
      JoinedOnce(b, categories, txns[|txns| - 1].tx);
    }
  }
}
