/** Pages of the transaction list: each request sorts anew by (occurred_at, created_at), newest first, and rows
    that agree on both may come in any order. */
module Paging {
  import opened Catchup
  import opened Domain
  import opened Filter
  import opened Ledger
  import opened Recurrence
  import opened Runner
  import opened Sql

  /** A transactions row with its created_at. All rows inserted by one database transaction share it. */
  datatype Stamped = Stamped(row: TxRow, createdAt: int)

  function Rows(table: seq<Stamped>): (rows: seq<TxRow>)
    ensures |rows| == |table|
  {
    seq(|table|, i requires 0 <= i < |table| => table[i].row)
  }

  /** The rows the WHERE clause keeps. */
  function Kept(f: TxFilter, table: seq<Stamped>): seq<Stamped> {
    if table == [] then []
    else
      var last := table[|table| - 1];
      Kept(f, table[..|table| - 1]) + if !last.row.deleted && Matches(f, last.row.tx) then [last] else []
  }

  predicate UniqueRows(list: seq<Stamped>) {
    forall i, j :: 0 <= i < j < |list| ==> list[i].row.id != list[j].row.id
  }

  lemma {:induction false} KeptIsSelected(f: TxFilter, table: seq<Stamped>)
    ensures Rows(Kept(f, table)) == Selected(f, Rows(table))
    ensures |Kept(f, table)| == Count(f, Rows(table))
    decreases |table|
  {
    hide Matches;
    if table == [] {
    } else {
      var n := |table| - 1;
      KeptIsSelected(f, table[..n]);
      assert Rows(table)[..n] == Rows(table[..n]);
    }
  }

  lemma {:induction false} KeptIsUnique(f: TxFilter, table: seq<Stamped>)
    requires UniqueRows(table)
    ensures UniqueRows(Kept(f, table))
    ensures forall x :: x in Kept(f, table) ==> x in table
    decreases |table|
  {
    hide Matches;
    if table == [] {
    } else {
      var n := |table| - 1;
      assert forall i :: 0 <= i < n ==> table[..n][i] == table[i];
      KeptIsUnique(f, table[..n]);
      var front := Kept(f, table[..n]);
      forall i | 0 <= i < |front| ensures front[i].row.id != table[n].row.id { assert front[i] in table[..n]; }
    }
  }

  // ---- ORDER BY occurred_at DESC, created_at DESC ----

  predicate Ahead(a: Stamped, b: Stamped) {
    || a.row.tx.occurredAt > b.row.tx.occurredAt
    || (a.row.tx.occurredAt == b.row.tx.occurredAt && a.createdAt > b.createdAt)
  }

  predicate Tied(a: Stamped, b: Stamped) {
    a.row.tx.occurredAt == b.row.tx.occurredAt && a.createdAt == b.createdAt
  }

  predicate Sorted(o: seq<Stamped>) {
    forall i, j :: 0 <= i < j < |o| ==> !Ahead(o[j], o[i])
  }

  /** One order in which the database may answer. */
  predicate OrderOf(list: seq<Stamped>, o: seq<Stamped>) {
    multiset(o) == multiset(list) && Sorted(o)
  }

  /** The value a row is sorted by. Only the two time columns are ever used. */
  function SortValue(row: Stamped, c: Column): int {
    match c
    case OccurredAtColumn => row.row.tx.occurredAt
    case CreatedAtColumn => row.createdAt
    case _ => 0
  }

  /** What an ORDER BY means: the first key in which two rows differ decides. */
  predicate ComesBefore(keys: seq<SortKey>, a: Stamped, b: Stamped) {
    if keys == [] then false
    else
      var x, y := SortValue(a, keys[0].column), SortValue(b, keys[0].column);
      if x == y then ComesBefore(keys[1..], a, b) else if keys[0].descending then x > y else x < y
  }

  /** The order that List asks for, as the database reads it from the query. */
  lemma AheadIsOrderOfList(f: TxFilter, a: Stamped, b: Stamped)
    ensures var args := WhereArgs(f) + WindowArgs(f);
            var q := RenderAll(WhereConds(f, 0)) + ORDER_BY + WindowText(f, |WhereArgs(f)|);
            && ReadQuery(q, args).Some?
            && (Ahead(a, b) <==> ComesBefore(ReadQuery(q, args).value.order, a, b))
  {
    hide ReadQuery, RenderAll, WhereConds, WhereArgs, AllBound, AllHold, Matches, WindowText, WindowArgs,
         ComesBefore, Ahead;
    ListQueryMeansFilter(f, a.row.tx);
    AheadIsNewestFirst(a, b);
  }

  lemma AheadIsNewestFirst(a: Stamped, b: Stamped)
    ensures Ahead(a, b) <==> ComesBefore([SortKey(OccurredAtColumn, true), SortKey(CreatedAtColumn, true)], a, b)
  {
    var keys := [SortKey(OccurredAtColumn, true), SortKey(CreatedAtColumn, true)];
    var second := keys[1..];
    assert second == [SortKey(CreatedAtColumn, true)] && second[1..] == [];
    assert ComesBefore(second, a, b) <==> a.createdAt > b.createdAt;
  }

  function Insert(x: Stamped, o: seq<Stamped>): seq<Stamped> {
    if o == [] || !Ahead(x, o[|o| - 1]) then o + [x] else Insert(x, o[..|o| - 1]) + [o[|o| - 1]]
  }

  function Sort(list: seq<Stamped>): seq<Stamped> {
    if list == [] then [] else Insert(list[|list| - 1], Sort(list[..|list| - 1]))
  }

  lemma {:induction false} InsertSorts(x: Stamped, o: seq<Stamped>)
    requires Sorted(o)
    ensures Sorted(Insert(x, o)) && multiset(Insert(x, o)) == multiset(o) + multiset{x}
    decreases |o|
  {
    hide Sorted, Insert, Ahead;
    if o == [] || !Ahead(x, o[|o| - 1]) {
      InsertAtEnd(x, o);
      AppendSorted(o, x);
    } else {
      var n := |o| - 1;
      FrontSorted(o);
      InsertSorts(x, o[..n]);
      InsertInside(x, o);
      assert o == o[..n] + [o[n]];
      var t := Insert(x, o[..n]);
      NotAheadBack(x, o[n]);
      forall i | 0 <= i < |t| ensures !Ahead(o[n], t[i]) {
        assert t[i] in multiset(t);
        InsertedFrom(t[i], x, o[..n]);
        if t[i] != x { LastIsBehind(o, t[i]); }
      }
      AppendSorted(t, o[n]);
    }
  }

  lemma InsertAtEnd(x: Stamped, o: seq<Stamped>)
    requires o == [] || !Ahead(x, o[|o| - 1])
    ensures Insert(x, o) == o + [x]
  {
    hide Ahead;
  }

  lemma InsertInside(x: Stamped, o: seq<Stamped>)
    requires o != [] && Ahead(x, o[|o| - 1])
    ensures Insert(x, o) == Insert(x, o[..|o| - 1]) + [o[|o| - 1]]
  {
    hide Ahead;
  }

  lemma NotAheadBack(a: Stamped, b: Stamped)
    requires Ahead(a, b)
    ensures !Ahead(b, a)
  {
  }

  lemma FrontSorted(o: seq<Stamped>)
    requires o != [] && Sorted(o)
    ensures Sorted(o[..|o| - 1])
  {
    hide Ahead;
  }

  lemma LastIsBehind(o: seq<Stamped>, y: Stamped)
    requires o != [] && Sorted(o) && y in o[..|o| - 1]
    ensures !Ahead(o[|o| - 1], y)
  {
    hide Ahead;
  }

  lemma InsertedFrom(y: Stamped, x: Stamped, o: seq<Stamped>)
    requires y in multiset(o) + multiset{x}
    ensures y == x || y in o
  {
    if y != x { assert y in multiset(o); }
  }

  /** Following the last element is enough: what is not before it is before nothing. */
  lemma AppendSorted(o: seq<Stamped>, x: Stamped)
    requires Sorted(o) && (o == [] || !Ahead(x, o[|o| - 1]))
    ensures Sorted(o + [x])
  {
    forall i | 0 <= i < |o| ensures !Ahead(x, o[i]) {
      if i < |o| - 1 { NotAheadTransitive(x, o[|o| - 1], o[i]); }
    }
  }

  lemma NotAheadTransitive(a: Stamped, b: Stamped, c: Stamped)
    requires !Ahead(a, b) && !Ahead(b, c)
    ensures !Ahead(a, c)
  {
  }

  /** Some order always exists. */
  lemma {:induction false} SortOrders(list: seq<Stamped>)
    ensures OrderOf(list, Sort(list))
    decreases |list|
  {
    hide Insert;
    if list == [] {
    } else {
      var n := |list| - 1;
      SortOrders(list[..n]);
      InsertSorts(list[n], Sort(list[..n]));
      assert list == list[..n] + [list[n]];
    }
  }

  // ---- pages ----

  const PAGE_SIZE: nat := 25

  /** The handler's number of pages. */
  function Pages(total: nat): nat {
    if total <= 0 then 1 else (total + PAGE_SIZE - 1) / PAGE_SIZE
  }

  /** LIMIT and OFFSET on an ordered result; a limit of 0 means all of it. */
  function Page(o: seq<Stamped>, limit: nat, offset: nat): seq<Stamped> {
    if limit == 0 then o
    else if offset >= |o| then []
    else if offset + limit >= |o| then o[offset..]
    else o[offset..offset + limit]
  }

  /** Page after page, the p-th one cut from the order that its own request saw. */
  function Shown(orders: seq<seq<Stamped>>): seq<Stamped> {
    if orders == [] then []
    else
      var p := |orders| - 1;
      Shown(orders[..p]) + Page(orders[p], PAGE_SIZE, p * PAGE_SIZE)
  }

  /** One order for each page the handler offers. */
  predicate Requests(list: seq<Stamped>, orders: seq<seq<Stamped>>) {
    |orders| == Pages(|list|) && forall p :: 0 <= p < |orders| ==> OrderOf(list, orders[p])
  }

  /** Rows strictly before x in every order, and rows before or tied with it. */
  function AheadOf(list: seq<Stamped>, x: Stamped): set<Stamped> {
    set y | y in list && Ahead(y, x)
  }

  function UpTo(list: seq<Stamped>, x: Stamped): set<Stamped> {
    set y | y in list && !Ahead(x, y)
  }

  /** The rows tied with x begin before position n and end after it. */
  predicate Straddles(list: seq<Stamped>, x: Stamped, n: nat) {
    |AheadOf(list, x)| < n < |UpTo(list, x)|
  }

  /** No class of tied rows lies across a page boundary. */
  ghost predicate NoStraddle(list: seq<Stamped>) {
    forall x, p: nat :: x in list ==> !Straddles(list, x, p * PAGE_SIZE)
  }

  // ---- what all orders share ----

  function Members(o: seq<Stamped>): set<Stamped> {
    set x | x in o
  }

  lemma {:induction false} MembersCount(o: seq<Stamped>)
    requires UniqueRows(o)
    ensures |Members(o)| == |o|
    decreases |o|
  {
    if o == [] {
    } else {
      var n := |o| - 1;
      assert forall i :: 0 <= i < n ==> o[..n][i] == o[i];
      MembersCount(o[..n]);
      assert o == o[..n] + [o[n]];
      assert Members(o) == Members(o[..n]) + {o[n]};
      assert o[n] !in o[..n];
    }
  }

  lemma UniquePart(o: seq<Stamped>, n: nat)
    requires UniqueRows(o) && n <= |o|
    ensures UniqueRows(o[..n])
    ensures forall i :: 0 <= i < |o| ==> (o[i] in o[..n] <==> i < n)
  {
    assert forall i :: 0 <= i < n ==> o[..n][i] == o[i];
  }

  /** Distinct rows in the same set are the same rows. */
  lemma SameMembers(a: seq<Stamped>, b: seq<Stamped>)
    requires UniqueRows(a) && UniqueRows(b) && Members(a) == Members(b)
    ensures multiset(a) == multiset(b)
  {
    forall x ensures multiset(a)[x] == multiset(b)[x] {
      CountsOnce(a, x);
      CountsOnce(b, x);
      assert x in a <==> x in Members(a);
      assert x in b <==> x in Members(b);
    }
  }

  lemma {:induction false} CountsOnce(a: seq<Stamped>, x: Stamped)
    requires UniqueRows(a)
    ensures multiset(a)[x] == if x in a then 1 else 0
    decreases |a|
  {
    if a == [] {
    } else {
      var n := |a| - 1;
      UniquePart(a, n);
      CountsOnce(a[..n], x);
      assert a == a[..n] + [a[n]];
    }
  }

  lemma OrderIsUnique(list: seq<Stamped>, o: seq<Stamped>)
    requires UniqueRows(list) && OrderOf(list, o)
    ensures |o| == |list| && UniqueRows(o) && (forall x :: x in o <==> x in list)
  {
    assert |multiset(o)| == |o| && |multiset(list)| == |list|;
    forall x ensures x in o <==> x in list { assert x in multiset(o) <==> x in multiset(list); }
    forall i, j | 0 <= i < j < |o| ensures o[i].row.id != o[j].row.id {
      if o[i] == o[j] {
        TwiceMeansTwo(o, i, j);
        CountsOnce(list, o[i]);
      } else {
        DistinctIds(list, o[i], o[j]);
      }
    }
  }

  lemma TwiceMeansTwo(o: seq<Stamped>, i: nat, j: nat)
    requires i < j < |o| && o[i] == o[j]
    ensures multiset(o)[o[i]] >= 2
  {
    assert o == o[..i] + [o[i]] + o[i + 1..j] + [o[j]] + o[j + 1..];
  }

  lemma DistinctIds(list: seq<Stamped>, x: Stamped, y: Stamped)
    requires UniqueRows(list) && x in list && y in list && x != y
    ensures x.row.id != y.row.id
  {
  }

  /** In an order, a set of rows closed towards the front is a prefix. */
  lemma {:induction false} FrontIsPrefix(o: seq<Stamped>, front: set<Stamped>)
    requires UniqueRows(o) && front <= Members(o)
    requires forall i, j :: 0 <= i < j < |o| && o[j] in front ==> o[i] in front
    ensures |front| <= |o| && front == Members(o[..|front|])
    decreases |o|
  {
    MembersCount(o);
    if o == [] {
      assert front == {};
    } else {
      var n := |o| - 1;
      if o[n] in front {
        assert front == Members(o);
        assert o[..|o|] == o;
      } else {
        UniquePart(o, n);
        assert o == o[..n] + [o[n]];
        assert front <= Members(o[..n]);
        FrontIsPrefix(o[..n], front);
        assert o[..n][..|front|] == o[..|front|];
      }
    }
  }

  /** In every order, the rows ahead of x come first, then the rows tied with it, then the others. */
  lemma ClassesInOrder(list: seq<Stamped>, o: seq<Stamped>, x: Stamped)
    requires UniqueRows(list) && OrderOf(list, o)
    ensures |o| == |list| && UniqueRows(o)
    ensures |AheadOf(list, x)| <= |o| && |UpTo(list, x)| <= |o|
    ensures forall i :: 0 <= i < |o| ==> (i < |AheadOf(list, x)| <==> Ahead(o[i], x))
    ensures forall i :: 0 <= i < |o| ==> (i < |UpTo(list, x)| <==> !Ahead(x, o[i]))
  {
    OrderIsUnique(list, o);
    var front, upTo := AheadOf(list, x), UpTo(list, x);
    FrontIsPrefix(o, front);
    FrontIsPrefix(o, upTo);
    UniquePart(o, |front|);
    UniquePart(o, |upTo|);
    forall i | 0 <= i < |o| ensures i < |front| <==> Ahead(o[i], x) {
      assert o[i] in Members(o[..|front|]) <==> o[i] in o[..|front|];
    }
    forall i | 0 <= i < |o| ensures i < |upTo| <==> !Ahead(x, o[i]) {
      assert o[i] in Members(o[..|upTo|]) <==> o[i] in o[..|upTo|];
    }
  }

  /** A class lies across position n exactly when the rows on both sides of it are tied. */
  lemma StraddleIsTie(list: seq<Stamped>, o: seq<Stamped>, n: nat)
    requires UniqueRows(list) && OrderOf(list, o) && 0 < n < |list|
    ensures |o| == |list|
    ensures Tied(o[n - 1], o[n]) <==> exists x :: x in list && Straddles(list, x, n)
  {
    hide OrderOf, UniqueRows, AheadOf, UpTo;
    OrderHasRows(list, o);
    if Tied(o[n - 1], o[n]) {
      ClassesInOrder(list, o, o[n]);
      assert Straddles(list, o[n], n);
    }
    if x :| x in list && Straddles(list, x, n) {
      ClassesInOrder(list, o, x);
    }
  }

  lemma OrderHasRows(list: seq<Stamped>, o: seq<Stamped>)
    requires UniqueRows(list) && OrderOf(list, o)
    ensures |o| == |list| && forall i :: 0 <= i < |o| ==> o[i] in list
  {
    OrderIsUnique(list, o);
  }

  /** At a position that no class lies across, all orders have the same rows before it. */
  lemma CutDetermined(list: seq<Stamped>, o1: seq<Stamped>, o2: seq<Stamped>, n: nat)
    requires UniqueRows(list) && OrderOf(list, o1) && OrderOf(list, o2) && n <= |list|
    requires forall x :: x in list ==> !Straddles(list, x, n)
    ensures |o1| == |o2| == |list| && multiset(o1[..n]) == multiset(o2[..n])
  {
    hide Straddles, AheadOf;
    OrderIsUnique(list, o1);
    OrderIsUnique(list, o2);
    if n == |list| {
      assert o1[..n] == o1 && o2[..n] == o2;
    } else if n > 0 {
      StraddleIsTie(list, o1, n);
      var x := o1[n];
      ClassesInOrder(list, o1, x);
      ClassesInOrder(list, o2, x);
      assert Ahead(o1[n - 1], x) && !Ahead(x, x);
      assert |AheadOf(list, x)| == n;
      PrefixMembers(list, o1, x, n);
      PrefixMembers(list, o2, x, n);
      UniquePart(o1, n);
      UniquePart(o2, n);
      SameMembers(o1[..n], o2[..n]);
    }
  }

  lemma PrefixMembers(list: seq<Stamped>, o: seq<Stamped>, x: Stamped, n: nat)
    requires n <= |o| && forall y :: y in o <==> y in list
    requires forall i :: 0 <= i < |o| ==> (i < n <==> Ahead(o[i], x))
    ensures Members(o[..n]) == AheadOf(list, x)
  {
    forall y ensures y in Members(o[..n]) <==> y in AheadOf(list, x) {
      if y in AheadOf(list, x) {
        var i :| 0 <= i < |o| && o[i] == y;
        assert o[..n][i] == y;
      }
    }
  }

  /** The number of pages: one for nothing, and else the least that hold 25 rows each. */
  lemma PagesOf25(total: nat)
    ensures PAGE_SIZE == 25
    ensures total == 0 ==> Pages(total) == 1
    ensures total > 0 ==> (Pages(total) - 1) * 25 < total <= Pages(total) * 25
  {
  }

  // ---- when the pages make up the list ----

  lemma PageIsSlice(o: seq<Stamped>, p: nat)
    ensures Page(o, PAGE_SIZE, p * PAGE_SIZE)
         == o[Min(p * PAGE_SIZE, |o|)..Min((p + 1) * PAGE_SIZE, |o|)]
  {
  }

  lemma NoCutAtEnd(list: seq<Stamped>, n: nat)
    requires n == |list| && UniqueRows(list)
    ensures forall x :: x in list ==> !Straddles(list, x, n)
  {
    SortOrders(list);
    forall x | x in list ensures !Straddles(list, x, n) { ClassesInOrder(list, Sort(list), x); }
  }

  /** Without a straddling class, the first q pages show exactly the first q page lengths of any order. */
  lemma {:induction false} PagesShowPrefix(list: seq<Stamped>, orders: seq<seq<Stamped>>, o: seq<Stamped>)
    requires UniqueRows(list) && NoStraddle(list) && OrderOf(list, o)
    requires forall p :: 0 <= p < |orders| ==> OrderOf(list, orders[p])
    ensures |o| == |list|
    ensures multiset(Shown(orders)) == multiset(o[..Min(|orders| * PAGE_SIZE, |list|)])
    decreases |orders|
  {
    hide OrderOf, Straddles, NoStraddle, UniqueRows, Page;
    OrderHasRows(list, o);
    if orders == [] {
    } else {
      var p := |orders| - 1;
      assert forall k :: 0 <= k < p ==> orders[..p][k] == orders[k];
      PagesShowPrefix(list, orders[..p], o);
      PageContinues(list, orders[p], o, p);
    }
  }

  /** The p-th page, whatever order it is cut from, continues the first p pages of any other order. */
  lemma PageContinues(list: seq<Stamped>, o': seq<Stamped>, o: seq<Stamped>, p: nat)
    requires UniqueRows(list) && NoStraddle(list) && OrderOf(list, o) && OrderOf(list, o')
    ensures |o| == |list|
    ensures multiset(o[..Min(p * PAGE_SIZE, |list|)]) + multiset(Page(o', PAGE_SIZE, p * PAGE_SIZE))
         == multiset(o[..Min((p + 1) * PAGE_SIZE, |list|)])
  {
    hide OrderOf, Straddles, NoStraddle, UniqueRows, Page;
    OrderHasRows(list, o);
    OrderHasRows(list, o');
    PageIsSlice(o', p);
    var m, n := Min(p * PAGE_SIZE, |list|), Min((p + 1) * PAGE_SIZE, |list|);
    BoundaryFree(list, p);
    BoundaryFree(list, p + 1);
    CutDetermined(list, o', o, m);
    CutDetermined(list, o', o, n);
    assert o'[..n] == o'[..m] + o'[m..n];
  }

  lemma BoundaryFree(list: seq<Stamped>, p: nat)
    requires UniqueRows(list) && NoStraddle(list)
    ensures forall x :: x in list ==> !Straddles(list, x, Min(p * PAGE_SIZE, |list|))
  {
    hide Straddles;
    if p * PAGE_SIZE >= |list| { NoCutAtEnd(list, |list|); }
  }

  lemma NoStraddleCovers(list: seq<Stamped>, orders: seq<seq<Stamped>>)
    requires UniqueRows(list) && NoStraddle(list) && Requests(list, orders)
    ensures multiset(Shown(orders)) == multiset(list)
  {
    hide OrderOf, NoStraddle, Shown;
    SortOrders(list);
    var o := Sort(list);
    PagesShowPrefix(list, orders, o);
    assert Pages(|list|) * PAGE_SIZE >= |list|;
    assert o[..|list|] == o;
    OrderIsPermutation(list, o);
  }

  lemma OrderIsPermutation(list: seq<Stamped>, o: seq<Stamped>)
    requires OrderOf(list, o)
    ensures multiset(o) == multiset(list)
  {
  }

  /** Exchanging two neighbours that are tied gives another order. */
  lemma SwapTied(list: seq<Stamped>, o: seq<Stamped>, n: nat)
    requires OrderOf(list, o) && 0 < n < |o| && Tied(o[n - 1], o[n])
    ensures OrderOf(list, o[n - 1 := o[n]][n := o[n - 1]])
  {
    var o' := o[n - 1 := o[n]][n := o[n - 1]];
    assert o == o[..n - 1] + [o[n - 1]] + [o[n]] + o[n + 1..];
    assert o' == o[..n - 1] + [o[n]] + [o[n - 1]] + o[n + 1..];
    forall i, j | 0 <= i < j < |o'| ensures !Ahead(o'[j], o'[i]) {
      var a, b := Exchanged(i, n), Exchanged(j, n);
      assert o'[i] == o[a] && o'[j] == o[b];
    }
  }

  function Exchanged(i: int, n: int): int {
    if i == n - 1 then n else if i == n then n - 1 else i
  }

  /** A straddling class: the request before the boundary and the one after it may both show the same row. */
  lemma StraddleRepeats(list: seq<Stamped>, p: nat) returns (orders: seq<seq<Stamped>>)
    requires UniqueRows(list) && 0 < p && p * PAGE_SIZE < |list|
    requires exists x :: x in list && Straddles(list, x, p * PAGE_SIZE)
    ensures Requests(list, orders) && multiset(Shown(orders)) != multiset(list)
  {
    hide OrderOf, Straddles, Page, Shown, UniqueRows, Pages, Sort, Tied;
    var o, n := Sort(list), p * PAGE_SIZE;
    SortOrders(list);
    StraddleIsTie(list, o, n);
    OrderHasRows(list, o);
    SwapTied(list, o, n);
    var o' := o[n - 1 := o[n]][n := o[n - 1]];
    orders := seq(Pages(|list|), k => if k == p then o' else o);
    PagesEnough(|list|, p);
    BothShow(o, o', p);
    ShownTwice(orders, p, o[n - 1]);
    CountsOnce(list, o[n - 1]);
  }

  lemma PagesEnough(total: nat, p: nat)
    requires p * PAGE_SIZE < total
    ensures p < Pages(total)
  {
  }

  /** The last row before the boundary is also the first one after it, once exchanged with its neighbour. */
  lemma BothShow(o: seq<Stamped>, o': seq<Stamped>, p: nat)
    requires 0 < p && p * PAGE_SIZE < |o| && |o'| == |o| && o'[p * PAGE_SIZE] == o[p * PAGE_SIZE - 1]
    ensures o[p * PAGE_SIZE - 1] in Page(o, PAGE_SIZE, (p - 1) * PAGE_SIZE)
    ensures o[p * PAGE_SIZE - 1] in Page(o', PAGE_SIZE, p * PAGE_SIZE)
  {
    hide Page;
    var n := p * PAGE_SIZE;
    PageIsSlice(o, p - 1);
    PageIsSlice(o', p);
    assert o[n - PAGE_SIZE..n][PAGE_SIZE - 1] == o[n - 1];
    assert o'[n..Min((p + 1) * PAGE_SIZE, |o'|)][0] == o'[n];
  }

  lemma {:induction false} ShownTwice(orders: seq<seq<Stamped>>, p: nat, x: Stamped)
    requires 0 < p < |orders|
    requires x in Page(orders[p - 1], PAGE_SIZE, (p - 1) * PAGE_SIZE) && x in Page(orders[p], PAGE_SIZE, p * PAGE_SIZE)
    ensures multiset(Shown(orders))[x] >= 2
    decreases |orders|
  {
    hide Page;
    var q := |orders| - 1;
    assert forall k :: 0 <= k < q ==> orders[..q][k] == orders[k];
    if p == q {
      assert orders[..q][..q - 1] == orders[..q - 1];
      assert Shown(orders[..q]) == Shown(orders[..q - 1]) + Page(orders[q - 1], PAGE_SIZE, (q - 1) * PAGE_SIZE);
    } else {
      ShownTwice(orders[..q], p, x);
    }
  }

  /** Whatever orders the page requests see, the pages together are the filtered list with nothing missing and
      nothing twice, if and only if no class of rows tied on (occurred_at, created_at) lies across a boundary. */
  lemma PagesCoverIff(f: TxFilter, table: seq<Stamped>)
    requires UniqueRows(table)
    ensures var list := Kept(f, table);
            && Rows(list) == Selected(f, Rows(table)) && Pages(|list|) == Pages(Count(f, Rows(table)))
            && ((forall orders: seq<seq<Stamped>> ::
                   Requests(list, orders) ==> multiset(Shown(orders)) == multiset(list))
                <==> NoStraddle(list))
  {
    hide Requests, Shown, Straddles, UniqueRows, Kept, Selected;
    KeptIsSelected(f, table);
    KeptIsUnique(f, table);
    var list := Kept(f, table);
    if NoStraddle(list) {
      forall orders: seq<seq<Stamped>> | Requests(list, orders) ensures multiset(Shown(orders)) == multiset(list) {
        NoStraddleCovers(list, orders);
      }
    } else {
      var x, p: nat :| x in list && Straddles(list, x, p * PAGE_SIZE);
      StraddleInside(list, x, p * PAGE_SIZE);
      var orders := StraddleRepeats(list, p);
    }
  }

  lemma StraddleInside(list: seq<Stamped>, x: Stamped, n: nat)
    requires UniqueRows(list) && x in list && Straddles(list, x, n)
    ensures 0 < n < |list|
  {
    SortOrders(list);
    ClassesInOrder(list, Sort(list), x);
  }

  /** Rows that are never tied page reliably. */
  lemma NoTiesNoStraddle(list: seq<Stamped>)
    requires UniqueRows(list) && forall x, y :: x in list && y in list && Tied(x, y) ==> x == y
    ensures NoStraddle(list)
  {
    hide Straddles, UniqueRows, Sort;
    SortOrders(list);
    var o := Sort(list);
    OrderIsUnique(list, o);
    forall x, p: nat | x in list ensures !Straddles(list, x, p * PAGE_SIZE) {
      var n := p * PAGE_SIZE;
      if Straddles(list, x, n) {
        StraddleInside(list, x, n);
        StraddleIsTie(list, o, n);
        UniquePart(o, n);
      }
    }
  }

  lemma {:induction false} OneOrderPrefix(o: seq<Stamped>, orders: seq<seq<Stamped>>)
    requires forall p :: 0 <= p < |orders| ==> orders[p] == o
    ensures Shown(orders) == o[..Min(|orders| * PAGE_SIZE, |o|)]
    decreases |orders|
  {
    hide Page;
    if orders == [] {
    } else {
      var p := |orders| - 1;
      assert forall k :: 0 <= k < p ==> orders[..p][k] == orders[k];
      OneOrderPrefix(o, orders[..p]);
      PageIsSlice(o, p);
      SliceContinues(o, Min(p * PAGE_SIZE, |o|), Min((p + 1) * PAGE_SIZE, |o|));
    }
  }

  lemma SliceContinues(o: seq<Stamped>, m: nat, n: nat)
    requires m <= n <= |o|
    ensures o[..m] + o[m..n] == o[..n]
  {
  }

  /** If all requests see one order, the pages are exactly that order, and the last page is not empty
      unless there is nothing to list. */
  lemma OneOrderCovers(o: seq<Stamped>, orders: seq<seq<Stamped>>)
    requires |orders| == Pages(|o|) && forall p :: 0 <= p < |orders| ==> orders[p] == o
    ensures Shown(orders) == o
    ensures o != [] ==> Page(o, PAGE_SIZE, (Pages(|o|) - 1) * PAGE_SIZE) != []
  {
    hide Shown;
    OneOrderPrefix(o, orders);
    assert o[..|o|] == o;
  }

  // ---- rows of one run ----

  const BATCH_DAY := 10
  const BATCH_RULE := Rule("rent", Expense, 100, "cash", None, None, "", Daily, 1, None, BATCH_DAY, None, true)

  function BatchId(i: nat): Id {
    seq(i, _ => 'x')
  }

  /** n rules due on one day. */
  function BatchRules(n: nat): RuleTable {
    map i | 0 <= i < n :: BatchId(i) := RuleRow(BATCH_RULE, false)
  }

  function BatchDue(n: nat): seq<DueRow> {
    seq(n, i requires 0 <= i => DueRow(BatchId(i), BATCH_RULE))
  }

  /** Rows inserted by one database transaction, for which now() is a constant. */
  function InsertedAt(txs: seq<Tx>, now: int): (rows: seq<Stamped>)
    ensures |rows| == |txs|
  {
    seq(|txs|, i requires 0 <= i < |txs| => Stamped(TxRow(BatchId(i), txs[i], false), now))
  }

  lemma BatchIdsDiffer()
    ensures forall i: nat, j: nat :: i < j ==> BatchId(i) != BatchId(j)
  {
    assert forall i: nat :: |BatchId(i)| == i;
  }

  lemma BatchSelected(n: nat)
    ensures Selection(BatchRules(n), BatchDue(n), BATCH_DAY)
  {
    hide BatchId;
    BatchIdsDiffer();
    var rules, due := BatchRules(n), BatchDue(n);
    forall id | id in DueIds(rules, BATCH_DAY) ensures Includes(due, id) {
      var i :| 0 <= i < n && id == BatchId(i);
      assert due[i].id == id;
    }
    forall k | 0 <= k < n ensures BatchId(k) in rules && rules[BatchId(k)] == RuleRow(BATCH_RULE, false) {
    }
  }

  /** One occurrence each. */
  lemma {:induction false} BatchPosts(n: nat)
    ensures |Inserted(BatchDue(n), BATCH_DAY)| == n
    ensures forall i :: 0 <= i < n ==> Inserted(BatchDue(n), BATCH_DAY)[i] == Instantiate(BATCH_RULE, BATCH_DAY)
    decreases n
  {
    hide CatchUp, BatchId;
    if n == 0 {
    } else {
      BatchPosts(n - 1);
      assert BatchDue(n)[..n - 1] == BatchDue(n - 1);
      BatchOnce();
    }
  }

  lemma BatchOnce()
    ensures CatchUp(BATCH_RULE, BATCH_DAY, BATCH_DAY, CAP).dates == [BATCH_DAY]
  {
    hide Advance, CatchUp;
    AdvanceByDays(BATCH_RULE, BATCH_DAY);
    CatchUpRound(BATCH_RULE, BATCH_DAY, BATCH_DAY, CAP);
    CatchUpStops(BATCH_RULE, BATCH_DAY + 1, BATCH_DAY, CAP - 1);
  }

  /** One run of 26 rules due on one day: the rows it inserts agree on date and created_at, so two page requests
      may show one of them twice and another not at all. */
  lemma OneBatchStraddles(now: int) returns (rules: RuleTable, due: seq<DueRow>, orders: seq<seq<Stamped>>)
    ensures Selection(rules, due, BATCH_DAY) && |Inserted(due, BATCH_DAY)| == PAGE_SIZE + 1
    ensures var table := InsertedAt(Inserted(due, BATCH_DAY), now);
            && UniqueRows(table) && !NoStraddle(table)
            && Requests(table, orders) && multiset(Shown(orders)) != multiset(table)
  {
    hide Straddles, Requests, Shown, Sort, BatchId, Selection, Inserted, BatchRules, BatchDue;
    rules, due := BatchRules(PAGE_SIZE + 1), BatchDue(PAGE_SIZE + 1);
    BatchSelected(PAGE_SIZE + 1);
    BatchPosts(PAGE_SIZE + 1);
    BatchIdsDiffer();
    var table := InsertedAt(Inserted(due, BATCH_DAY), now);
    SortOrders(table);
    OrderHasRows(table, Sort(table));
    StraddleIsTie(table, Sort(table), PAGE_SIZE);
    var x :| x in table && Straddles(table, x, PAGE_SIZE);
    assert Straddles(table, x, 1 * PAGE_SIZE);
    orders := StraddleRepeats(table, 1);
  }
}
