/** The part of SQL that the transaction queries use: how the database reads it, and what it means. */
module Sql {
  import opened Calendar
  import opened Digits
  import opened Domain

  /** A query argument. */
  datatype Arg = DateArg(day: Day) | TextArg(text: string) | IntArg(n: int)

  // ---- tests ----

  datatype Column = OccurredAtColumn | CreatedAtColumn | AccountColumn | ToAccountColumn | CategoryColumn | KindColumn

  datatype Operator = AtLeast | AtMost | Above | Below | Equals

  /** A column compared with the n-th argument. */
  datatype Comparison = Comparison(column: Column, op: Operator, n: nat)

  /** One conjunct: a comparison, or a choice of two. */
  datatype Cond = Simple(only: Comparison) | Either(left: Comparison, right: Comparison)

  function Name(c: Column): string {
    match c
    case OccurredAtColumn => "t.occurred_at"
    case CreatedAtColumn => "t.created_at"
    case AccountColumn => "t.account_id"
    case ToAccountColumn => "t.to_account_id"
    case CategoryColumn => "t.category_id"
    case KindColumn => "t.kind"
  }

  /** An operator with its spaces and the sign of a placeholder. */
  function Symbol(op: Operator): string {
    match op
    case AtLeast => " >= $"
    case AtMost => " <= $"
    case Above => " > $"
    case Below => " < $"
    case Equals => " = $"
  }

  function ComparisonText(p: Comparison): string {
    Name(p.column) + (Symbol(p.op) + Decimal(p.n))
  }

  function Render(c: Cond): string {
    match c
    case Simple(p) => " AND " + ComparisonText(p)
    case Either(a, b) => " AND (" + (ComparisonText(a) + (" OR " + (ComparisonText(b) + ")")))
  }

  function RenderAll(conds: seq<Cond>): string {
    if conds == [] then "" else Render(conds[0]) + RenderAll(conds[1..])
  }

  /** A comparison decides only if its placeholder has an argument of the column's type; text columns are
      compared for equality alone. */
  predicate ComparisonBound(p: Comparison, args: seq<Arg>) {
    && 1 <= p.n <= |args|
    && match p.column
       case OccurredAtColumn => args[p.n - 1].DateArg?
       case CreatedAtColumn => false
       case _ => args[p.n - 1].TextArg? && p.op == Equals
  }

  predicate Compares(op: Operator, x: int, y: int) {
    match op
    case AtLeast => x >= y
    case AtMost => x <= y
    case Above => x > y
    case Below => x < y
    case Equals => x == y
  }

  predicate ComparisonHolds(p: Comparison, args: seq<Arg>, t: Tx)
    requires ComparisonBound(p, args)
  {
    var arg := args[p.n - 1];
    match p.column
    case OccurredAtColumn => Compares(p.op, t.occurredAt, arg.day)
    case AccountColumn => t.account == arg.text
    case ToAccountColumn => t.toAccount == Some(arg.text)
    case CategoryColumn => t.category == Some(arg.text)
    case KindColumn => KindText(t.kind) == arg.text
  }

  predicate Bound(c: Cond, args: seq<Arg>) {
    match c
    case Simple(p) => ComparisonBound(p, args)
    case Either(a, b) => ComparisonBound(a, args) && ComparisonBound(b, args)
  }

  predicate Holds(c: Cond, args: seq<Arg>, t: Tx)
    requires Bound(c, args)
  {
    match c
    case Simple(p) => ComparisonHolds(p, args, t)
    case Either(a, b) => ComparisonHolds(a, args, t) || ComparisonHolds(b, args, t)
  }

  ghost predicate AllBound(conds: seq<Cond>, args: seq<Arg>) {
    forall i :: 0 <= i < |conds| ==> Bound(conds[i], args)
  }

  ghost predicate AllHold(conds: seq<Cond>, args: seq<Arg>, t: Tx)
    requires AllBound(conds, args)
  {
    forall i :: 0 <= i < |conds| ==> Holds(conds[i], args, t)
  }

  // ---- reading them ----

  /** The text after a given start. */
  function After(start: string, s: string): Option<string> {
    if start <= s then Some(s[|start|..]) else None
  }

  datatype Read<+T> = Read(value: T, rest: string)

  function ReadName(s: string): Option<Read<Column>> {
    if Name(OccurredAtColumn) <= s then Some(Read(OccurredAtColumn, s[|Name(OccurredAtColumn)|..]))
    else if Name(CreatedAtColumn) <= s then Some(Read(CreatedAtColumn, s[|Name(CreatedAtColumn)|..]))
    else if Name(AccountColumn) <= s then Some(Read(AccountColumn, s[|Name(AccountColumn)|..]))
    else if Name(ToAccountColumn) <= s then Some(Read(ToAccountColumn, s[|Name(ToAccountColumn)|..]))
    else if Name(CategoryColumn) <= s then Some(Read(CategoryColumn, s[|Name(CategoryColumn)|..]))
    else if Name(KindColumn) <= s then Some(Read(KindColumn, s[|Name(KindColumn)|..]))
    else None
  }

  function ReadSymbol(s: string): Option<Read<Operator>> {
    if Symbol(AtLeast) <= s then Some(Read(AtLeast, s[|Symbol(AtLeast)|..]))
    else if Symbol(AtMost) <= s then Some(Read(AtMost, s[|Symbol(AtMost)|..]))
    else if Symbol(Above) <= s then Some(Read(Above, s[|Symbol(Above)|..]))
    else if Symbol(Below) <= s then Some(Read(Below, s[|Symbol(Below)|..]))
    else if Symbol(Equals) <= s then Some(Read(Equals, s[|Symbol(Equals)|..]))
    else None
  }

  /** The leading digits of a text. */
  function Leading(s: string): nat
    ensures Leading(s) <= |s|
  {
    if s != [] && IsDigit(s[0]) then 1 + Leading(s[1..]) else 0
  }

  function ReadNumber(s: string): Option<Read<int>> {
    if Leading(s) == 0 then None else Some(Read(Val(s[..Leading(s)]), s[Leading(s)..]))
  }

  function ReadComparison(s: string): Option<Read<Comparison>> {
    var name := ReadName(s);
    if name.None? then None
    else
      var op := ReadSymbol(name.value.rest);
      if op.None? then None
      else
        var n := ReadNumber(op.value.rest);
        if n.None? || n.value.value < 0 then None
        else Some(Read(Comparison(name.value.value, op.value.value, n.value.value), n.value.rest))
  }

  function ReadEither(s: string): Option<Read<Cond>> {
    var a := ReadComparison(s);
    if a.None? then None
    else
      var between := After(" OR ", a.value.rest);
      if between.None? then None
      else
        var b := ReadComparison(between.value);
        if b.None? then None
        else
          var end := After(")", b.value.rest);
          if end.None? then None else Some(Read(Either(a.value.value, b.value.value), end.value))
  }

  function ReadCond(s: string): Option<Read<Cond>> {
    if " AND (" <= s then ReadEither(s[6..])
    else if " AND " <= s then
      var p := ReadComparison(s[5..]);
      if p.None? then None else Some(Read(Simple(p.value.value), p.value.rest))
    else None
  }

  /** The conjunction a WHERE tail denotes, if it is one. */
  function ReadAll(s: string): Option<seq<Cond>>
    decreases |s|
  {
    if s == "" then Some([])
    else
      var c := ReadCond(s);
      if c.None? || |c.value.rest| >= |s| then None
      else
        var rest := ReadAll(c.value.rest);
        if rest.None? then None else Some([c.value.value] + rest.value)
  }

  // ---- what is written is what is read ----

  lemma NotPrefix(start: string, own: string, tail: string, i: nat)
    requires i < |start| && i < |own| && start[i] != own[i]
    ensures !(start <= own + tail)
  {
    assert (own + tail)[i] == own[i];
  }

  lemma StartsWith(own: string, tail: string)
    ensures own <= own + tail && (own + tail)[|own|..] == tail
  {
  }

  /** Two column names first differ at their third or fourth letter. */
  lemma NamesDiffer(c: Column, d: Column)
    requires c != d
    ensures |Name(c)| > 3 && |Name(d)| > 3 && (Name(c)[2] != Name(d)[2] || Name(c)[3] != Name(d)[3])
  {
  }

  lemma OtherName(c: Column, d: Column, tail: string)
    requires c != d
    ensures !(Name(d) <= Name(c) + tail)
  {
    hide Name;
    NamesDiffer(c, d);
    NotPrefix(Name(d), Name(c), tail, if Name(c)[2] != Name(d)[2] then 2 else 3);
  }

  lemma ReadsName(c: Column, tail: string)
    ensures ReadName(Name(c) + tail) == Some(Read(c, tail))
  {
    hide Name;
    StartsWith(Name(c), tail);
    forall d: Column | d != c ensures !(Name(d) <= Name(c) + tail) { OtherName(c, d, tail); }
  }

  lemma SymbolsDiffer(a: Operator, b: Operator)
    requires a != b
    ensures |Symbol(a)| > 2 && |Symbol(b)| > 2 && (Symbol(a)[1] != Symbol(b)[1] || Symbol(a)[2] != Symbol(b)[2])
  {
  }

  lemma ReadsSymbol(op: Operator, tail: string)
    ensures ReadSymbol(Symbol(op) + tail) == Some(Read(op, tail))
  {
    hide Symbol;
    StartsWith(Symbol(op), tail);
    forall d: Operator | d != op ensures !(Symbol(d) <= Symbol(op) + tail) {
      SymbolsDiffer(op, d);
      NotPrefix(Symbol(d), Symbol(op), tail, if Symbol(op)[1] != Symbol(d)[1] then 1 else 2);
    }
  }

  lemma {:induction false} LeadingOfDigits(d: string, rest: string)
    requires AllDigits(d) && (rest != "" ==> !IsDigit(rest[0]))
    ensures Leading(d + rest) == |d|
    decreases |d|
  {
    if d == "" {
      assert d + rest == rest;
    } else {
      assert (d + rest)[1..] == d[1..] + rest;
      LeadingOfDigits(d[1..], rest);
    }
  }

  /** A number before this text ends where the text begins. */
  predicate Delimited(rest: string) {
    rest != "" ==> !IsDigit(rest[0])
  }

  lemma ReadsNumber(n: nat, rest: string)
    requires Delimited(rest)
    ensures ReadNumber(Decimal(n) + rest) == Some(Read(n, rest))
  {
    hide Decimal, Val, Leading;
    DecimalIsNumeral(n);
    LeadingOfDigits(Decimal(n), rest);
    StartsWith(Decimal(n), rest);
    assert (Decimal(n) + rest)[..|Decimal(n)|] == Decimal(n);
  }

  lemma ReadsComparison(p: Comparison, rest: string)
    requires Delimited(rest)
    ensures ReadComparison(ComparisonText(p) + rest) == Some(Read(p, rest))
    ensures ComparisonText(p) != "" && ComparisonText(p)[0] == 't'
  {
    hide Name, Symbol, Decimal, ReadName, ReadSymbol, ReadNumber, Delimited;
    var number := Decimal(p.n) + rest;
    var op := Symbol(p.op) + number;
    assert ComparisonText(p) + rest == Name(p.column) + op by {
      assert (Symbol(p.op) + Decimal(p.n)) + rest == op;
    }
    ReadsName(p.column, op);
    ReadsSymbol(p.op, number);
    ReadsNumber(p.n, rest);
    NameStarts(p.column);
  }

  lemma NameStarts(c: Column)
    ensures Name(c) != "" && Name(c)[0] == 't'
  {
  }

  lemma DelimitedText(s: string)
    requires s != "" && (s[0] == ' ' || s[0] == ')')
    ensures Delimited(s)
  {
  }

  lemma NothingIsDelimited()
    ensures Delimited("")
  {
  }

  lemma ReadsEither(a: Comparison, b: Comparison, rest: string)
    requires Delimited(rest)
    ensures ReadEither(ComparisonText(a) + (" OR " + (ComparisonText(b) + ")")) + rest)
         == Some(Read(Either(a, b), rest))
  {
    hide ComparisonText, ReadComparison, Delimited;
    var close := ")" + rest;
    var second := ComparisonText(b) + close;
    var between := " OR " + second;
    assert ComparisonText(a) + (" OR " + (ComparisonText(b) + ")")) + rest == ComparisonText(a) + between;
    StartsWith(" OR ", second);
    StartsWith(")", rest);
    DelimitedText(between);
    DelimitedText(close);
    ReadsComparison(a, between);
    ReadsComparison(b, close);
  }

  lemma ReadsCond(c: Cond, rest: string)
    requires Delimited(rest)
    ensures ReadCond(Render(c) + rest) == Some(Read(c, rest))
    ensures Delimited(Render(c) + rest) && |Render(c)| > 1 && Render(c)[0] == ' ' && Render(c)[1] == 'A'
  {
    hide ComparisonText, ReadComparison, ReadEither, Delimited;
    var s := Render(c) + rest;
    assert s[0] == ' ';
    DelimitedText(s);
    match c
    case Simple(p) =>
      assert s == " AND " + (ComparisonText(p) + rest);
      StartsWith(" AND ", ComparisonText(p) + rest);
      ReadsComparison(p, rest);
      assert s[5] == 't';
      NotPrefix(" AND (", " AND t", s[6..], 5);
      assert s == " AND t" + s[6..];
    case Either(a, b) =>
      var inside := ComparisonText(a) + (" OR " + (ComparisonText(b) + ")"));
      assert s == " AND (" + (inside + rest);
      StartsWith(" AND (", inside + rest);
      ReadsEither(a, b, rest);
  }

  /** The database reads back exactly the tests that were written. */
  lemma {:induction false} ReadsAll(conds: seq<Cond>)
    ensures ReadAll(RenderAll(conds)) == Some(conds) && Delimited(RenderAll(conds))
    decreases |conds|
  {
    hide ReadCond, Render, Delimited;
    if conds == [] {
      NothingIsDelimited();
    } else {
      ReadsAll(conds[1..]);
      ReadsCond(conds[0], RenderAll(conds[1..]));
      assert RenderAll(conds) == Render(conds[0]) + RenderAll(conds[1..]);
      assert conds == [conds[0]] + conds[1..];
    }
  }

  // ---- ORDER BY ----

  /** One column of an order; without DESC it is ascending. */
  datatype SortKey = SortKey(column: Column, descending: bool)

  function SortKeyText(k: SortKey): string {
    Name(k.column) + if k.descending then " DESC" else ""
  }

  function SortKeysText(keys: seq<SortKey>): string
    requires keys != []
  {
    if |keys| == 1 then SortKeyText(keys[0]) else SortKeyText(keys[0]) + (", " + SortKeysText(keys[1..]))
  }

  function ReadSortKey(s: string): Option<Read<SortKey>> {
    var name := ReadName(s);
    if name.None? then None
    else
      var after := After(" DESC", name.value.rest);
      Some(if after.Some? then Read(SortKey(name.value.value, true), after.value)
           else Read(SortKey(name.value.value, false), name.value.rest))
  }

  function ReadSortKeys(s: string): Option<Read<seq<SortKey>>>
    decreases |s|
  {
    var k := ReadSortKey(s);
    if k.None? then None
    else
      var more := After(", ", k.value.rest);
      if more.None? then Some(Read([k.value.value], k.value.rest))
      else if |more.value| >= |s| then None
      else
        var keys := ReadSortKeys(more.value);
        if keys.None? then None else Some(Read([k.value.value] + keys.value.value, keys.value.rest))
  }

  lemma ReadsSortKey(k: SortKey, rest: string)
    requires !(" DESC" <= rest)
    ensures ReadSortKey(SortKeyText(k) + rest) == Some(Read(k, rest))
    ensures |SortKeyText(k)| > 0
  {
    hide Name, ReadName;
    NameStarts(k.column);
    var dir := (if k.descending then " DESC" else "") + rest;
    assert SortKeyText(k) + rest == Name(k.column) + dir;
    ReadsName(k.column, dir);
    if k.descending { StartsWith(" DESC", rest); } else { assert dir == rest; }
  }

  /** What follows an order in a query does not continue it. */
  predicate EndsOrder(rest: string) {
    !(" DESC" <= rest) && !(", " <= rest)
  }

  lemma {:induction false} ReadsSortKeys(keys: seq<SortKey>, rest: string)
    requires keys != [] && EndsOrder(rest)
    ensures ReadSortKeys(SortKeysText(keys) + rest) == Some(Read(keys, rest))
    decreases |keys|
  {
    hide ReadSortKey, SortKeyText;
    if |keys| == 1 {
      ReadsSortKey(keys[0], rest);
      assert keys == [keys[0]];
    } else {
      var tail := SortKeysText(keys[1..]) + rest;
      assert SortKeysText(keys) + rest == SortKeyText(keys[0]) + (", " + tail);
      NotPrefix(" DESC", ", ", tail, 0);
      ReadsSortKey(keys[0], ", " + tail);
      StartsWith(", ", tail);
      ReadsSortKeys(keys[1..], rest);
      assert keys == [keys[0]] + keys[1..];
    }
  }
}
