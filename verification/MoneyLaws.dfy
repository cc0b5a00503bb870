/** Parser and printers of amounts, taken together. */
module MoneyLaws {
  import opened Domain
  import opened Text
  import opened Digits
  import opened Money

  /** Digits and dots, with a digit at both ends. */
  predicate NumberText(g: string) {
    && g != [] && IsDigit(g[0]) && IsDigit(g[|g| - 1])
    && forall i :: 0 <= i < |g| ==> IsDigit(g[i]) || g[i] == '.'
  }

  function Sign(neg: bool): string {
    if neg then "-" else ""
  }

  function Currency(shown: bool): string {
    if shown then "Rp" else ""
  }

  lemma NumberTextTrimmed(neg: bool, shown: bool, g: string)
    requires g != [] && IsDigit(g[0]) && !IsSpace(g[|g| - 1])
    ensures TrimSpace(Sign(neg) + Currency(shown) + g) == Sign(neg) + Currency(shown) + g
    ensures TrimSpace(g) == g
  {
    hide TrimSpace;
    TrimmedUnchanged(g);
    TrimmedUnchanged(Sign(neg) + Currency(shown) + g);
  }

  lemma PrefixesRemoved(neg: bool, shown: bool, g: string)
    requires g != [] && IsDigit(g[0])
    ensures "-" <= Sign(neg) + Currency(shown) + g <==> neg
    ensures TrimPrefix(TrimPrefix(Sign(neg) + Currency(shown) + g, "-"), "Rp") == g
  {
    var t := Sign(neg) + Currency(shown) + g;
    var u := Currency(shown) + g;
    if neg {
      assert t == "-" + u;
      assert "-" <= t && t[1..] == u;
    } else {
      assert t == u;
      assert t[0] != '-';
    }
    assert TrimPrefix(t, "-") == u;
    if shown {
      assert "Rp" <= u && u[2..] == g;
    } else {
      assert u == g && g[0] != 'R';
    }
  }

  lemma {:induction false} NoComma(s: string)
    requires forall i :: 0 <= i < |s| ==> s[i] != ','
    ensures IndexByte(s, ',') == -1
    decreases |s|
  {
    if s == [] {
    } else {
      NoComma(s[1..]);
    }
  }

  /** Signed, with or without currency, grouped anyhow: the text of a number parses to it. */
  lemma ParsesNumber(neg: bool, shown: bool, g: string, k: nat)
    requires NumberText(g) && RemoveDots(g) == Decimal(k)
    ensures ParseText(Sign(neg) + Currency(shown) + g) == Ok(Wrap(if neg then -(100 * k) else 100 * k))
  {
    hide TrimSpace, TrimPrefix, RemoveDots, Decimal, Wrap, Sign, Currency;
    var t := Sign(neg) + Currency(shown) + g;
    NumberTextTrimmed(neg, shown, g);
    PrefixesRemoved(neg, shown, g);
    DecimalIsNumeral(k);
    NoComma(Decimal(k));
    assert Body(t) == Decimal(k);
    assert Whole(Body(t)) == Decimal(k) && Fraction(Body(t)) == "";
  }

  lemma GroupedNumeral(k: nat)
    ensures NumberText(Group(Decimal(k))) && RemoveDots(Group(Decimal(k))) == Decimal(k)
  {
    hide Group, RemoveDots, Decimal;
    DecimalIsNumeral(k);
    GroupEnds(Decimal(k));
    UngroupGroup(Decimal(k));
  }

  /** The amount without its sen, dropped toward zero. */
  function WholeUnits(m: int): int {
    100 * TruncDiv(m, 100)
  }

  lemma WholeUnitsOf(m: int64)
    requires m != MIN_INT64
    ensures var k := Magnitude(m) / 100;
            var v := if m < 0 then -(100 * k) else 100 * k;
            WholeUnits(m) == v && Wrap(v) == v
  {
  }

  /** Parsing what either printer wrote gives the amount back without its sen, for every amount
      but the most negative one. */
  lemma RoundTrip(m: int64)
    ensures ParseText(FormatText(m)) == Ok(WholeUnits(m)) <==> m != MIN_INT64
    ensures ParseText(RupiahText(m)) == Ok(WholeUnits(m)) <==> m != MIN_INT64
  {
    if m == MIN_INT64 {
      hide ParseText, Group, Decimal;
      BareSignParses();
      MostNegativeRupiah();
    } else {
      RoundTripBelow(m);
    }
  }

  lemma RoundTripBelow(m: int64)
    requires m != MIN_INT64
    ensures ParseText(FormatText(m)) == Ok(WholeUnits(m))
    ensures ParseText(RupiahText(m)) == Ok(WholeUnits(m))
  {
    hide ParseText, Group, Decimal, Wrap, WholeUnits, Magnitude, NumberText;
    var k := Magnitude(m) / 100;
    GroupedNumeral(k);
    ParsesNumber(m < 0, false, Group(Decimal(k)), k);
    ParsesNumber(m < 0, true, Group(Decimal(k)), k);
    assert Sign(m < 0) + Currency(false) + Group(Decimal(k)) == FormatText(m);
    assert Sign(m < 0) + Currency(true) + Group(Decimal(k)) == RupiahText(m);
    WholeUnitsOf(m);
  }

  /** Format prints the most negative amount as "-", and Parse reads that as zero. */
  lemma BareSignParses()
    ensures FormatText(MIN_INT64) == "-" && ParseText("-") == Ok(0)
  {
    assert TrimSpace("-") == "-" by { TrimmedUnchanged("-"); }
    assert TrimPrefix("-", "-") == "" && TrimPrefix("", "Rp") == "";
    assert Body("-") == "";
    assert Val("") == 0;
    WrapOfZero();
  }

  /** The template printer puts a second sign inside, which Parse rejects. */
  lemma MostNegativeRupiah()
    ensures ParseText(RupiahText(MIN_INT64)) == Err(Invalid)
  {
    hide TrimSpace, RemoveDots, Group, Decimal;
    var d := SprintD(TruncDiv(MIN_INT64, 100));
    var k := 92_233_720_368_547_758;
    assert d == "-" + Decimal(k);
    DecimalIsNumeral(k);
    assert d[0] == '-';
    assert forall i :: 0 <= i < |d| ==> d[i] == '-' || IsDigit(d[i]);
    UngroupGroup(d);
    GroupEnds(d);
    var g := Group(d);
    var t := "-Rp" + g;
    TrimmedUnchanged(t);
    TrimmedUnchanged(g);
    assert TrimPrefix(t, "-") == "Rp" + g;
    assert TrimPrefix("Rp" + g, "Rp") == g;
    NoComma(d);
    assert Body(t) == d;
    assert !IsDigit(Whole(Body(t))[0]);
  }

  /** Printing again gives the same text, except for amounts that lose their sign with their sen. */
  lemma ReformatIsStable(m: int64)
    ensures ParseText(FormatText(m)).Ok?
    ensures FormatText(ParseText(FormatText(m)).value) == FormatText(m) <==> m != MIN_INT64 && !(-100 < m < 0)
  {
    hide ParseText, Group, Decimal, FormatText, RupiahText, WholeUnits;
    RoundTrip(m);
    Printed(0);
    GroupedNumeral(0);
    assert "" + Group(Decimal(0)) == Group(Decimal(0));
    assert FormatText(0)[0] != '-';
    if m == MIN_INT64 {
      BareSignParses();
    } else {
      UnitsOfUnits(m);
      Printed(m);
      Printed(WholeUnits(m));
    }
  }

  /** Dropping the sen keeps the whole units, and the sign unless nothing is left. */
  lemma UnitsOfUnits(m: int64)
    requires m != MIN_INT64
    ensures var v := WholeUnits(m);
            && MIN_INT64 < v <= MAX_INT64 && (v < 0 <==> m <= -100)
            && (if v < 0 then -v else v) / 100 == (if m < 0 then -m else m) / 100
            && (-100 < m < 0 ==> v == 0)
  {
  }

  /** A plain numeral is read as whole units, in int64: the value is exact iff 100 n fits. */
  lemma ParseOfDecimal(n: nat)
    ensures ParseText(Decimal(n)) == Ok(Wrap(100 * n))
    ensures Wrap(100 * n) == 100 * n <==> 100 * n <= MAX_INT64
  {
    hide ParseText, RemoveDots, Decimal;
    DecimalIsNumeral(n);
    RemoveNoDots(Decimal(n));
    ParsesNumber(false, false, Decimal(n), n);
    assert Sign(false) + Currency(false) + Decimal(n) == Decimal(n);
    WrapIsExactIffInRange(100 * n);
  }

  /** Whatever is accepted is read modulo 2^64; the value is the written one iff that fits in int64. */
  lemma ParseIsExactIffInRange(s: string)
    requires Parses(s)
    ensures ParseText(s) == Ok(Meaning(s)) <==> MIN_INT64 <= Meaning(s) <= MAX_INT64
  {
    hide Parses, Meaning;
    WrapIsExactIffInRange(Meaning(s));
  }

  // ---- sen ----

  lemma {:induction false} CommaAt(a: string, b: string)
    requires AllDigits(a)
    ensures IndexByte(a + "," + b, ',') == |a|
    decreases |a|
  {
    if a == [] {
      assert (a + "," + b)[0] == ',';
    } else {
      assert (a + "," + b)[1..] == a[1..] + "," + b;
      CommaAt(a[1..], b);
    }
  }

  /** What the text after the comma is worth: one digit counts tens of sen, of two or more the first two count. */
  function Sen(f: string): int
    requires f != ""
  {
    10 * DigitValue(f[0]) + if |f| >= 2 then DigitValue(f[1]) else 0
  }

  /** A number with a comma: accepted if and only if the first two characters after it are digits (or the only one
      is), whatever follows them; the amount is exact in whole units and sen. */
  lemma ParsesDecimals(neg: bool, shown: bool, g: string, k: nat, f: string)
    requires NumberText(g) && RemoveDots(g) == Decimal(k)
    requires f != "" && !IsSpace(f[|f| - 1]) && forall i :: 0 <= i < |f| ==> f[i] != '.'
    ensures var text := Sign(neg) + Currency(shown) + (g + "," + f);
            if IsDigit(f[0]) && (|f| >= 2 ==> IsDigit(f[1]))
            then ParseText(text) == Ok(Wrap(if neg then -(100 * k + Sen(f)) else 100 * k + Sen(f)))
            else ParseText(text) == Err(Invalid)
  {
    hide TrimSpace, TrimPrefix, RemoveDots, Decimal, Wrap, Sign, Currency, IndexByte, IsSpace, Val;
    var h := g + "," + f;
    var text := Sign(neg) + Currency(shown) + h;
    assert h[|h| - 1] == f[|f| - 1];
    NumberTextTrimmed(neg, shown, h);
    PrefixesRemoved(neg, shown, h);
    DecimalIsNumeral(k);
    BodyOfDecimals(g, k, f);
    CommaAt(Decimal(k), f);
    assert Body(text) == Decimal(k) + "," + f;
    assert Whole(Body(text)) == Decimal(k) && Fraction(Body(text)) == f;
    CentsOf(f);
    SomeText(neg, shown, h);
  }

  lemma SomeText(neg: bool, shown: bool, h: string)
    requires h != ""
    ensures Sign(neg) + Currency(shown) + h != ""
  {
  }

  lemma BodyOfDecimals(g: string, k: nat, f: string)
    requires RemoveDots(g) == Decimal(k) && forall i :: 0 <= i < |f| ==> f[i] != '.'
    ensures RemoveDots(g + "," + f) == Decimal(k) + "," + f
  {
    hide RemoveDots, Decimal;
    RemoveDotsConcat(g + ",", f);
    RemoveDotsConcat(g, ",");
    RemoveNoDots(f);
    RemoveNoDots(",");
  }

  lemma CentsOf(f: string)
    requires f != ""
    ensures AllDigits(Cents(f)) <==> IsDigit(f[0]) && (|f| >= 2 ==> IsDigit(f[1]))
    ensures CentsValue(f) == Sen(f)
  {
    if |f| > 2 { assert Cents(f)[0] == f[0] && Cents(f)[1] == f[1]; }
  }

  /** Spaces after the currency do not matter. */
  lemma ParsesSpaced(neg: bool, gap: string, g: string, k: nat)
    requires NumberText(g) && RemoveDots(g) == Decimal(k) && forall i :: 0 <= i < |gap| ==> IsSpace(gap[i])
    ensures ParseText(Sign(neg) + Currency(true) + (gap + g)) == Ok(Wrap(if neg then -(100 * k) else 100 * k))
  {
    hide TrimSpace, TrimPrefix, RemoveDots, Decimal, Wrap, IsSpace, IndexByte, Val;
    var h := gap + g;
    var text := Sign(neg) + Currency(true) + h;
    NumberEnds(g);
    CurrencyEnds();
    assert text[0] == (if neg then '-' else 'R') && text[|text| - 1] == g[|g| - 1];
    TrimmedUnchanged(text);
    CurrencyRemoved(neg, h);
    TrimmedAfterSpace(gap, g);
    DecimalIsNumeral(k);
    NoComma(Decimal(k));
    assert Body(text) == Decimal(k);
    assert Whole(Body(text)) == Decimal(k) && Fraction(Body(text)) == "";
  }

  lemma NumberEnds(g: string)
    requires NumberText(g)
    ensures !IsSpace(g[0]) && !IsSpace(g[|g| - 1])
  {
  }

  lemma CurrencyEnds()
    ensures !IsSpace('-') && !IsSpace('R')
  {
  }

  lemma CurrencyRemoved(neg: bool, h: string)
    ensures "-" <= Sign(neg) + Currency(true) + h <==> neg
    ensures TrimPrefix(TrimPrefix(Sign(neg) + Currency(true) + h, "-"), "Rp") == h
  {
    var t, u := Sign(neg) + Currency(true) + h, Currency(true) + h;
    if neg { assert t == "-" + u && t[1..] == u; } else { assert t == u && t[0] != '-'; }
    assert "Rp" <= u && u[2..] == h;
  }

  lemma {:induction false} TrimmedAfterSpace(gap: string, g: string)
    requires NumberText(g) && forall i :: 0 <= i < |gap| ==> IsSpace(gap[i])
    ensures TrimSpace(gap + g) == g
    decreases |gap|
  {
    hide IsSpace, TrimRight, NumberText;
    NumberEnds(g);
    if gap == "" {
      assert gap + g == g;
      TrimmedUnchanged(g);
    } else {
      assert (gap + g)[1..] == gap[1..] + g && (gap + g)[0] == gap[0];
      TrimmedAfterSpace(gap[1..], g);
      LeadingSpace(gap + g);
    }
  }

  lemma LeadingSpace(s: string)
    requires s != "" && IsSpace(s[0])
    ensures TrimSpace(s) == TrimSpace(s[1..])
  {
  }

  // ---- the documented cases ----

  lemma Numerals()
    ensures Decimal(150000) == "150000" && Decimal(1500) == "1500"
    ensures Decimal(5000) == "5000" && Decimal(10000) == "10000"
    ensures Decimal(1234567) == "1234567" && Decimal(0) == "0" && Decimal(1) == "1"
  {
    hide Decimal;
    OneDigit(0, "0"); OneDigit(1, "1"); OneDigit(5, "5");
    NextDigit(1, "1", 5, "15");
    NextDigit(15, "15", 0, "150");
    NextDigit(150, "150", 0, "1500");
    NextDigit(1500, "1500", 0, "15000");
    NextDigit(15000, "15000", 0, "150000");
    NextDigit(5, "5", 0, "50");
    NextDigit(50, "50", 0, "500");
    NextDigit(500, "500", 0, "5000");
    NextDigit(1, "1", 0, "10");
    NextDigit(10, "10", 0, "100");
    NextDigit(100, "100", 0, "1000");
    NextDigit(1000, "1000", 0, "10000");
    NextDigit(1, "1", 2, "12");
    NextDigit(12, "12", 3, "123");
    NextDigit(123, "123", 4, "1234");
    NextDigit(1234, "1234", 5, "12345");
    NextDigit(12345, "12345", 6, "123456");
    NextDigit(123456, "123456", 7, "1234567");
  }

  lemma OneDigit(n: nat, s: string)
    requires n < 10 && s == [DigitChar(n)]
    ensures Decimal(n) == s
  {
  }

  lemma NextDigit(n: nat, s: string, d: nat, t: string)
    requires n > 0 && Decimal(n) == s && d < 10 && t == s + [DigitChar(d)]
    ensures Decimal(10 * n + d) == t
  {
    hide DigitChar;
    assert (10 * n + d) / 10 == n && (10 * n + d) % 10 == d;
  }

  lemma Groups()
    ensures Group("150000") == "150.000" && Group("1234567") == "1.234.567" && Group("5000") == "5.000"
    ensures Group("10000") == "10.000" && Group("0") == "0" && Group("1") == "1"
  {
    hide Group;
    Ungrouped("150"); Ungrouped("1"); Ungrouped("5"); Ungrouped("10"); Ungrouped("0");
    OneGroup("150", "000", "150000", "150.000");
    OneGroup("1", "234", "1234", "1.234");
    OneGroup("1234", "567", "1234567", "1.234.567");
    OneGroup("5", "000", "5000", "5.000");
    OneGroup("10", "000", "10000", "10.000");
  }

  lemma Ungrouped(s: string)
    requires |s| <= 3
    ensures Group(s) == s
  {
  }

  lemma OneGroup(front: string, last: string, s: string, grouped: string)
    requires front != "" && |last| == 3 && s == front + last && grouped == Group(front) + "." + last
    ensures Group(s) == grouped
  {
    assert s[..|s| - 3] == front && s[|s| - 3..] == last;
  }

  /** The amounts that the parser's tests list. */
  lemma ParseCases()
    ensures ParseText("150000") == Ok(15000000) && ParseText("150.000") == Ok(15000000)
    ensures ParseText("150.000,50") == Ok(15000050) && ParseText("1500,5") == Ok(150050)
    ensures ParseText("0") == Ok(0) && ParseText("-5000") == Ok(-500000) && ParseText("Rp 10.000") == Ok(1000000)
    ensures ParseText("abc") == Err(Invalid) && ParseText("") == Err(Invalid)
  {
    hide ParseText, Decimal, RemoveDots, Wrap, Group;
    Numerals();
    Groups();
    SmallWraps();
    Plainly("150000", 150000); Plainly("1500", 1500); Plainly("0", 0); Plainly("5000", 5000);
    GroupedNumeral(150000); GroupedNumeral(10000);
    ParsesNumber(false, false, "150000", 150000);
    ParsesNumber(false, false, "150.000", 150000);
    ParsesDecimals(false, false, "150.000", 150000, "50");
    ParsesDecimals(false, false, "1500", 1500, "5");
    ParsesNumber(false, false, "0", 0);
    ParsesNumber(true, false, "5000", 5000);
    ParsesSpaced(false, " ", "10.000", 10000);
    assert Sign(false) + Currency(false) + "150000" == "150000";
    assert Sign(false) + Currency(false) + "150.000" == "150.000";
    assert Sign(false) + Currency(false) + ("150.000" + "," + "50") == "150.000,50";
    assert Sign(false) + Currency(false) + ("1500" + "," + "5") == "1500,5";
    assert Sign(false) + Currency(false) + "0" == "0";
    assert Sign(true) + Currency(false) + "5000" == "-5000";
    assert Sign(false) + Currency(true) + (" " + "10.000") == "Rp 10.000";
    NotAmounts();
  }

  lemma SmallWraps()
    ensures Wrap(15000000) == 15000000 && Wrap(15000050) == 15000050 && Wrap(150050) == 150050 && Wrap(0) == 0
    ensures Wrap(-500000) == -500000 && Wrap(1000000) == 1000000
  {
  }

  lemma Plainly(s: string, n: nat)
    requires s == Decimal(n)
    ensures NumberText(s) && RemoveDots(s) == Decimal(n)
  {
    hide Decimal, RemoveDots;
    DecimalIsNumeral(n);
    RemoveNoDots(s);
  }

  lemma NotAmounts()
    ensures ParseText("abc") == Err(Invalid) && ParseText("") == Err(Invalid)
  {
    hide TrimSpace, RemoveDots;
    TrimmedUnchanged("abc");
    TrimmedUnchanged("");
    RemoveNoDots("abc");
    NoComma("abc");
    assert TrimPrefix("abc", "-") == "abc" && TrimPrefix("abc", "Rp") == "abc";
    assert Whole(Body("abc")) == "abc" && !IsDigit("abc"[0]);
  }

  /** The texts that the printers' tests list. */
  lemma FormatCases()
    ensures FormatText(0) == "0" && FormatText(15000000) == "150.000" && FormatText(123456789) == "1.234.567"
    ensures FormatText(-500000) == "-5.000"
    ensures RupiahText(0) == "Rp0" && RupiahText(100) == "Rp1" && RupiahText(123456789) == "Rp1.234.567"
    ensures RupiahText(-500000) == "-Rp5.000"
  {
    hide Decimal, Group, FormatText, RupiahText;
    Numerals();
    Groups();
    Printed(0); Printed(15000000); Printed(123456789); Printed(-500000); Printed(100);
  }

  lemma Printed(m: int64)
    requires m != MIN_INT64
    ensures var g := Group(Decimal((if m < 0 then -m else m) / 100));
            && FormatText(m) == (if m < 0 then "-" else "") + g
            && RupiahText(m) == (if m < 0 then "-Rp" else "Rp") + g
  {
    hide Decimal, Group;
  }
}
