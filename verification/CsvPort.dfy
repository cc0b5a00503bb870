/** CSV rows, their dates and the key that recognises an already imported transaction. */
module CsvPort {
  import opened Calendar
  import opened Domain
  import opened Text
  import opened Digits
  import opened Money

  // ---- dates as text ----

  function Two(n: int): string
    requires 0 <= n < 100
  {
    [DigitChar(n / 10), DigitChar(n % 10)]
  }

  /** At least four digits. */
  function PadFour(n: nat): string {
    if n < 10 then "000" + Decimal(n)
    else if n < 100 then "00" + Decimal(n)
    else if n < 1000 then "0" + Decimal(n)
    else Decimal(n)
  }

  function YearText(y: int): string {
    if y < 0 then "-" + PadFour(-y) else PadFour(y)
  }

  /** time.Format("2006-01-02"). */
  function FormatDate(day: Day): string {
    var c := Civil(day);
    YearText(c.y) + "-" + Two(c.m) + "-" + Two(c.d)
  }

  function Digits2(s: string, i: nat): Option<int>
    requires i + 2 <= |s|
  {
    if IsDigit(s[i]) && IsDigit(s[i + 1]) then Some(10 * DigitValue(s[i]) + DigitValue(s[i + 1])) else None
  }

  function Digits4(s: string, i: nat): Option<int>
    requires i + 4 <= |s|
  {
    var a, b := Digits2(s, i), Digits2(s, i + 2);
    if a.Some? && b.Some? then Some(100 * a.value + b.value) else None
  }

  function DateOfFields(y: Option<int>, m: Option<int>, d: Option<int>): Option<Day> {
    if y.Some? && m.Some? && d.Some? && ValidDate(RawDate(y.value, m.value, d.value))
    then Some(Ordinal(RawDate(y.value, m.value, d.value)))
    else None
  }

  /** dateLayouts: ISO, day first, month first, ISO with slashes, day first with dashes. */
  const LAYOUTS: nat := 5

  /** time.Parse with the k-th layout: every field has its full width and nothing may follow. */
  function ParseLayout(k: nat, s: string): Option<Day> {
    if |s| != 10 then None
    else if k == 0 then
      if s[4] == '-' && s[7] == '-' then DateOfFields(Digits4(s, 0), Digits2(s, 5), Digits2(s, 8)) else None
    else if k == 1 then
      if s[2] == '/' && s[5] == '/' then DateOfFields(Digits4(s, 6), Digits2(s, 3), Digits2(s, 0)) else None
    else if k == 2 then
      if s[2] == '/' && s[5] == '/' then DateOfFields(Digits4(s, 6), Digits2(s, 0), Digits2(s, 3)) else None
    else if k == 3 then
      if s[4] == '/' && s[7] == '/' then DateOfFields(Digits4(s, 0), Digits2(s, 5), Digits2(s, 8)) else None
    else if k == 4 then
      if s[2] == '-' && s[5] == '-' then DateOfFields(Digits4(s, 6), Digits2(s, 3), Digits2(s, 0)) else None
    else None
  }

  /** The date of the first layout from k on that accepts the text. */
  function FirstLayout(k: nat, s: string): Option<Day>
    decreases LAYOUTS - k
  {
    if k >= LAYOUTS then None
    else if ParseLayout(k, s).Some? then ParseLayout(k, s)
    else FirstLayout(k + 1, s)
  }

  method ParseCsvDate(s: string) returns (d: Option<Day>)
    ensures d == FirstLayout(0, s)
    ensures d.Some? ==> exists k :: 0 <= k < LAYOUTS && ParseLayout(k, s) == d
                          && forall j :: 0 <= j < k ==> ParseLayout(j, s) == None
    ensures d.None? ==> forall k :: 0 <= k < LAYOUTS ==> ParseLayout(k, s) == None
  {
    hide ParseLayout;
    var k := 0;
    while k < 5
      invariant 0 <= k <= LAYOUTS
      invariant forall j :: 0 <= j < k ==> ParseLayout(j, s) == None
      invariant FirstLayout(0, s) == FirstLayout(k, s)
    {
      var t := ParseLayout(k, s);
      if t.Some? { return t; }
      k := k + 1;
    }
    return None;
  }

  lemma TwoReads(n: int)
    requires 0 <= n < 100
    ensures |Two(n)| == 2 && Digits2(Two(n), 0) == Some(n)
  {
  }

  /** The four digits of a number below 10000. */
  function FourDigits(n: nat): string
    requires n < 10000
  {
    [DigitChar(n / 1000), DigitChar((n / 100) % 10), DigitChar((n / 10) % 10), DigitChar(n % 10)]
  }

  lemma DecimalOne(n: nat)
    requires n < 10
    ensures Decimal(n) == [DigitChar(n)]
  {
  }

  lemma DecimalMore(n: nat)
    requires n >= 10
    ensures Decimal(n) == Decimal(n / 10) + [DigitChar(n % 10)]
  {
  }

  lemma PadFourIsFourDigits(n: nat)
    requires n < 10000
    ensures PadFour(n) == FourDigits(n)
  {
    hide Decimal, DigitChar;
    assert n / 10 / 10 == n / 100 && n / 100 / 10 == n / 1000;
    if n < 10 {
      DecimalOne(n);
    } else if n < 100 {
      DecimalMore(n); DecimalOne(n / 10);
    } else if n < 1000 {
      DecimalMore(n); DecimalMore(n / 10); DecimalOne(n / 100);
    } else {
      DecimalMore(n); DecimalMore(n / 10); DecimalMore(n / 100); DecimalOne(n / 1000);
    }
  }

  /** Numbers below 10000 take exactly four digits, which read back. */
  lemma PadFourReads(n: nat)
    requires n < 10000
    ensures |PadFour(n)| == 4 && Digits4(PadFour(n), 0) == Some(n)
  {
    hide PadFour;
    PadFourIsFourDigits(n);
    FourDigitsSplit(n);
  }

  lemma FourDigitsSplit(n: nat)
    requires n < 10000
    ensures Digits4(FourDigits(n), 0) == Some(n)
  {
    hide DigitChar, Digits4;
    SplitByTens(n);
    ReadsFour(n / 1000, (n / 100) % 10, (n / 10) % 10, n % 10);
  }

  lemma SplitByTens(n: nat)
    requires n < 10000
    ensures n == 1000 * (n / 1000) + 100 * ((n / 100) % 10) + 10 * ((n / 10) % 10) + n % 10
  {
    var p, q := n / 10, n / 100;
    assert q == p / 10 && n / 1000 == q / 10;
    assert p == 10 * q + p % 10 && q == 10 * (n / 1000) + q % 10;
  }

  lemma ReadsFour(a: int, b: int, c: int, d: int)
    requires 0 <= a < 10 && 0 <= b < 10 && 0 <= c < 10 && 0 <= d < 10
    ensures Digits4([DigitChar(a), DigitChar(b), DigitChar(c), DigitChar(d)], 0)
         == Some(1000 * a + 100 * b + 10 * c + d)
  {
    hide DigitChar;
    DigitReads(a); DigitReads(b); DigitReads(c); DigitReads(d);
  }

  lemma DigitReads(d: int)
    requires 0 <= d < 10
    ensures IsDigit(DigitChar(d)) && DigitValue(DigitChar(d)) == d
  {
  }

  /** 0000-01-01 and 9999-12-31: the dates whose year takes four digits. */
  const FIRST_WRITABLE: Day := -365
  const LAST_WRITABLE: Day := 3652059

  predicate FourDigitYear(day: Day) {
    FIRST_WRITABLE <= day <= LAST_WRITABLE
  }

  lemma FourDigitYearIff(day: Day)
    ensures FourDigitYear(day) <==> 0 <= Civil(day).y < 10000
  {
    hide Civil, Ordinal;
    WritableBounds();
    var c := Civil(day);
    OrdinalIsChronological(c, RawDate(0, 1, 1));
    OrdinalIsChronological(RawDate(9999, 12, 31), c);
  }

  lemma WritableBounds()
    ensures Ordinal(RawDate(0, 1, 1)) == FIRST_WRITABLE && Ordinal(RawDate(9999, 12, 31)) == LAST_WRITABLE
  {
  }

  /** Every date of a four-digit year that is written out is read back by the first layout. */
  lemma DateRoundTrip(day: Day)
    requires FourDigitYear(day)
    ensures ParseLayout(0, FormatDate(day)) == Some(day) && FirstLayout(0, FormatDate(day)) == Some(day)
  {
    hide Civil, PadFour, Two, Ordinal, Digits2;
    FourDigitYearIff(day);
    var c := Civil(day);
    PadFourReads(c.y); TwoReads(c.m); TwoReads(c.d);
    FormattedFields(PadFour(c.y), Two(c.m), Two(c.d));
    OrdinalOfCivil(day);
  }

  lemma OrdinalOfCivil(day: Day)
    ensures ValidDate(Civil(day)) && Ordinal(Civil(day)) == day
  {
    hide Civil;
  }

  lemma FormattedFields(y: string, m: string, d: string)
    requires |y| == 4 && |m| == 2 && |d| == 2
    ensures var s := y + "-" + m + "-" + d;
            && |s| == 10 && s[4] == '-' && s[7] == '-'
            && Digits4(s, 0) == Digits4(y, 0) && Digits2(s, 5) == Digits2(m, 0) && Digits2(s, 8) == Digits2(d, 0)
  {
  }

  // ---- what each layout reads ----

  lemma TwoIff(s: string, i: nat, n: int)
    requires i + 2 <= |s|
    ensures Digits2(s, i) == Some(n) <==> 0 <= n < 100 && s[i..i + 2] == Two(n)
  {
    if 0 <= n < 100 { DigitReads(n / 10); DigitReads(n % 10); }
    if Digits2(s, i) == Some(n) {
      DigitOfValue(s[i]);
      DigitOfValue(s[i + 1]);
      assert n / 10 == DigitValue(s[i]) && n % 10 == DigitValue(s[i + 1]);
      assert s[i..i + 2] == [s[i], s[i + 1]];
    }
    if 0 <= n < 100 && s[i..i + 2] == Two(n) {
      assert s[i] == s[i..i + 2][0] && s[i + 1] == s[i..i + 2][1];
    }
  }

  lemma DigitOfValue(c: char)
    requires IsDigit(c)
    ensures 0 <= DigitValue(c) < 10 && DigitChar(DigitValue(c)) == c
  {
  }

  lemma FourIff(s: string, i: nat, n: int)
    requires i + 4 <= |s|
    ensures Digits4(s, i) == Some(n) <==> 0 <= n < 10000 && s[i..i + 4] == PadFour(n)
  {
    hide Digits2, PadFour, Two;
    if 0 <= n < 10000 {
      PadFourIsTwos(n);
      TwoIff(s, i, n / 100);
      TwoIff(s, i + 2, n % 100);
      TwoLength(n / 100);
      TwoLength(n % 100);
      assert s[i..i + 4] == s[i..i + 2] + s[i + 2..i + 4];
      assert n == 100 * (n / 100) + n % 100;
      if s[i..i + 4] == PadFour(n) {
        assert s[i..i + 2] == s[i..i + 4][..2] && s[i + 2..i + 4] == s[i..i + 4][2..];
      }
    }
    var a, b := Digits2(s, i), Digits2(s, i + 2);
    if a.Some? && b.Some? {
      TwoIff(s, i, a.value);
      TwoIff(s, i + 2, b.value);
      assert (100 * a.value + b.value) / 100 == a.value && (100 * a.value + b.value) % 100 == b.value;
    }
  }

  lemma TwoLength(n: int)
    requires 0 <= n < 100
    ensures |Two(n)| == 2
  {
  }

  lemma PadFourIsTwos(n: nat)
    requires n < 10000
    ensures PadFour(n) == Two(n / 100) + Two(n % 100)
  {
    hide PadFour, DigitChar;
    PadFourIsFourDigits(n);
    HalvesOfFour(n);
  }

  lemma HalvesOfFour(n: nat)
    requires n < 10000
    ensures 0 <= n / 100 < 100 && (n / 100) / 10 == n / 1000
    ensures (n % 100) / 10 == (n / 10) % 10 && (n % 100) % 10 == n % 10
  {
    var q, r := n / 100, n % 100;
    var a, b := r / 10, r % 10;
    assert n == 10 * (10 * q + a) + b;
    assert n / 10 == 10 * q + a;
  }

  /** The text of a date in the k-th layout, as the layout strings spell it. */
  function LayoutText(k: nat, c: RawDate): string
    requires 0 <= c.y < 10000 && 0 <= c.m < 100 && 0 <= c.d < 100
  {
    match k
    case 0 => PadFour(c.y) + "-" + Two(c.m) + "-" + Two(c.d)
    case 1 => Two(c.d) + "/" + Two(c.m) + "/" + PadFour(c.y)
    case 2 => Two(c.m) + "/" + Two(c.d) + "/" + PadFour(c.y)
    case 3 => PadFour(c.y) + "/" + Two(c.m) + "/" + Two(c.d)
    case _ => Two(c.d) + "-" + Two(c.m) + "-" + PadFour(c.y)
  }

  /** Ten characters with separators after the fourth and seventh: year first. */
  lemma YearFirstParts(s: string, sep: char, y: string, m: string, d: string)
    requires |y| == 4 && |m| == 2 && |d| == 2
    ensures s == y + [sep] + m + [sep] + d <==>
            |s| == 10 && s[4] == sep && s[7] == sep && s[0..4] == y && s[5..7] == m && s[8..10] == d
  {
    var t := y + [sep] + m + [sep] + d;
    assert t[0..4] == y && t[5..7] == m && t[8..10] == d;
    if |s| == 10 && s[4] == sep && s[7] == sep && s[0..4] == y && s[5..7] == m && s[8..10] == d {
      assert s == s[0..4] + [s[4]] + s[5..7] + [s[7]] + s[8..10];
    }
  }

  /** Ten characters with separators after the second and fifth: year last. */
  lemma YearLastParts(s: string, sep: char, a: string, b: string, y: string)
    requires |a| == 2 && |b| == 2 && |y| == 4
    ensures s == a + [sep] + b + [sep] + y <==>
            |s| == 10 && s[2] == sep && s[5] == sep && s[0..2] == a && s[3..5] == b && s[6..10] == y
  {
    var t := a + [sep] + b + [sep] + y;
    assert t[0..2] == a && t[3..5] == b && t[6..10] == y;
    if |s| == 10 && s[2] == sep && s[5] == sep && s[0..2] == a && s[3..5] == b && s[6..10] == y {
      assert s == s[0..2] + [s[2]] + s[3..5] + [s[5]] + s[6..10];
    }
  }

  lemma FieldsIff(y: Option<int>, m: Option<int>, d: Option<int>, day: Day)
    ensures var c := Civil(day);
            DateOfFields(y, m, d) == Some(day) <==> y == Some(c.y) && m == Some(c.m) && d == Some(c.d)
  {
    hide Civil, Ordinal;
    OrdinalOfCivil(day);
    if y.Some? && m.Some? && d.Some? && ValidDate(RawDate(y.value, m.value, d.value)) {
      CivilOfOrdinal(RawDate(y.value, m.value, d.value));
    }
  }

  /** c is the civil date of the day, said by its fields alone. */
  ghost predicate IsDateOf(c: RawDate, day: Day) {
    && 1 <= c.m <= 12 && 1 <= c.d <= 31 && (FourDigitYear(day) <==> 0 <= c.y < 10000)
    && forall y, m, d :: DateOfFields(y, m, d) == Some(day) <==> y == Some(c.y) && m == Some(c.m) && d == Some(c.d)
  }

  lemma CivilIsDateOf(day: Day)
    ensures IsDateOf(Civil(day), day)
  {
    hide Civil, DateOfFields, Ordinal;
    FourDigitYearIff(day);
    OrdinalOfCivil(day);
    MonthAndDaySmall(Civil(day));
    forall y, m, d
      ensures var c := Civil(day);
              DateOfFields(y, m, d) == Some(day) <==> y == Some(c.y) && m == Some(c.m) && d == Some(c.d)
    {
      FieldsIff(y, m, d, day);
    }
  }

  lemma YearFirstIff(s: string, sep: char, day: Day, c: RawDate)
    requires IsDateOf(c, day)
    ensures |s| == 10 && s[4] == sep && s[7] == sep
              && DateOfFields(Digits4(s, 0), Digits2(s, 5), Digits2(s, 8)) == Some(day)
            <==> FourDigitYear(day) && s == PadFour(c.y) + [sep] + Two(c.m) + [sep] + Two(c.d)
  {
    hide Two, PadFour, Digits2, Digits4, DateOfFields, FourDigitYear;
    TwoLength(c.m); TwoLength(c.d);
    if |s| == 10 { TwoIff(s, 5, c.m); TwoIff(s, 8, c.d); FourIff(s, 0, c.y); }
    if 0 <= c.y < 10000 {
      PadFourReads(c.y);
      YearFirstParts(s, sep, PadFour(c.y), Two(c.m), Two(c.d));
    }
  }

  lemma YearLastIff(s: string, sep: char, dayFirst: bool, day: Day, c: RawDate)
    requires IsDateOf(c, day)
    ensures var a, b := if dayFirst then c.d else c.m, if dayFirst then c.m else c.d;
            |s| == 10 && s[2] == sep && s[5] == sep
              && DateOfFields(Digits4(s, 6), Digits2(s, if dayFirst then 3 else 0),
                              Digits2(s, if dayFirst then 0 else 3)) == Some(day)
            <==> FourDigitYear(day) && s == Two(a) + [sep] + Two(b) + [sep] + PadFour(c.y)
  {
    hide Two, PadFour, Digits2, Digits4, DateOfFields, FourDigitYear;
    TwoLength(c.m); TwoLength(c.d);
    if |s| == 10 { TwoIff(s, 0, c.m); TwoIff(s, 0, c.d); TwoIff(s, 3, c.m); TwoIff(s, 3, c.d); FourIff(s, 6, c.y); }
    if 0 <= c.y < 10000 {
      PadFourReads(c.y);
      YearLastParts(s, sep, Two(if dayFirst then c.d else c.m), Two(if dayFirst then c.m else c.d), PadFour(c.y));
    }
  }

  /** The k-th layout reads a text as a day if and only if it is that day written in that layout. */
  lemma LayoutIff(k: nat, s: string, day: Day, c: RawDate)
    requires k < 5 && IsDateOf(c, day)
    ensures ParseLayout(k, s) == Some(day) <==> FourDigitYear(day) && s == LayoutText(k, c)
  {
    hide Two, PadFour, Digits2, Digits4, DateOfFields, FourDigitYear;
    if k == 0 { YearFirstIff(s, '-', day, c); }
    else if k == 1 { YearLastIff(s, '/', true, day, c); }
    else if k == 2 { YearLastIff(s, '/', false, day, c); }
    else if k == 3 { YearFirstIff(s, '/', day, c); }
    else { YearLastIff(s, '-', true, day, c); }
  }

  lemma MonthAndDaySmall(c: RawDate)
    requires ValidDate(c)
    ensures 1 <= c.m <= 12 && 1 <= c.d <= 31
  {
  }

  /** Year first and day first never collide: separators or their places differ. */
  lemma LayoutsApart(s: string)
    ensures forall j, k :: 0 <= j < k < 5 && ParseLayout(j, s).Some? && ParseLayout(k, s).Some? ==> j == 1 && k == 2
  {
    hide Ordinal, ValidDate;
  }

  /** Which texts are read as a given day, c being its civil date: the ISO, day-first and slashed year-first forms
      always; the month-first form unless the same text is a date read day-first, other than the same one. */
  lemma FirstLayoutIff(s: string, day: Day, c: RawDate)
    requires FourDigitYear(day) && IsDateOf(c, day)
    ensures FirstLayout(0, s) == Some(day) <==>
            || s == PadFour(c.y) + "-" + Two(c.m) + "-" + Two(c.d)
            || s == Two(c.d) + "/" + Two(c.m) + "/" + PadFour(c.y)
            || s == PadFour(c.y) + "/" + Two(c.m) + "/" + Two(c.d)
            || s == Two(c.d) + "-" + Two(c.m) + "-" + PadFour(c.y)
            || (s == Two(c.m) + "/" + Two(c.d) + "/" + PadFour(c.y)
                && (!ValidDate(RawDate(c.y, c.d, c.m)) || c.d == c.m))
  {
    hide Two, PadFour, ParseLayout, Ordinal, FourDigitYear, ValidDate, FirstLayout;
    DateOfItself(c, day);
    LayoutsApart(s);
    FirstOfLayouts(s);
    LayoutIff(0, s, day, c); LayoutIff(1, s, day, c); LayoutIff(2, s, day, c);
    LayoutIff(3, s, day, c); LayoutIff(4, s, day, c);
    if s == Two(c.m) + "/" + Two(c.d) + "/" + PadFour(c.y) { DayFirstReading(s, c); }
  }

  lemma DateOfItself(c: RawDate, day: Day)
    requires IsDateOf(c, day)
    ensures ValidDate(c) && Ordinal(c) == day
  {
    hide Ordinal, ValidDate;
    assert DateOfFields(Some(c.y), Some(c.m), Some(c.d)) == Some(day);
  }

  /** The ISO layout alone, as the forms use it: it reads exactly the written dates of four-digit years. */
  lemma IsoIff(s: string, day: Day)
    ensures ParseLayout(0, s) == Some(day) <==> FourDigitYear(day) && s == FormatDate(day)
  {
    hide Civil, Two, PadFour, ParseLayout, FourDigitYear;
    CivilIsDateOf(day);
    LayoutIff(0, s, day, Civil(day));
    FourDigitYearIff(day);
  }

  lemma FirstOfLayouts(s: string)
    ensures FirstLayout(0, s)
         == if ParseLayout(0, s).Some? then ParseLayout(0, s)
            else if ParseLayout(1, s).Some? then ParseLayout(1, s)
            else if ParseLayout(2, s).Some? then ParseLayout(2, s)
            else if ParseLayout(3, s).Some? then ParseLayout(3, s)
            else ParseLayout(4, s)
  {
    hide ParseLayout;
    assert FirstLayout(5, s) == None;
    assert FirstLayout(3, s) == if ParseLayout(3, s).Some? then ParseLayout(3, s) else FirstLayout(4, s);
    assert FirstLayout(1, s) == if ParseLayout(1, s).Some? then ParseLayout(1, s) else FirstLayout(2, s);
  }

  /** A month-first text read day-first: its month is the day and its day the month. */
  lemma DayFirstReading(s: string, c: RawDate)
    requires ValidDate(c) && 0 <= c.y < 10000 && 1 <= c.m <= 12 && 1 <= c.d <= 31
    requires s == Two(c.m) + "/" + Two(c.d) + "/" + PadFour(c.y)
    ensures var r := RawDate(c.y, c.d, c.m);
            ParseLayout(1, s) == if ValidDate(r) then Some(Ordinal(r)) else None
    ensures ValidDate(RawDate(c.y, c.d, c.m)) ==>
              (Ordinal(RawDate(c.y, c.d, c.m)) == Ordinal(c) <==> c.d == c.m)
  {
    hide Two, PadFour, Digits2, Digits4, Ordinal;
    PadFourReads(c.y); TwoLength(c.m); TwoLength(c.d);
    YearLastParts(s, '/', Two(c.m), Two(c.d), PadFour(c.y));
    TwoIff(s, 0, c.m); TwoIff(s, 3, c.d); FourIff(s, 6, c.y);
    var r := RawDate(c.y, c.d, c.m);
    if ValidDate(r) && Ordinal(r) == Ordinal(c) { OrdinalInjective(r, c); }
  }

  /** What an ISO text looks like, on a date with eight different digits. */
  lemma IsoExample()
    ensures ValidDate(RawDate(1987, 6, 24)) && FormatDate(Ordinal(RawDate(1987, 6, 24))) == "1987-06-24"
  {
    hide Civil, Ordinal;
    CivilOfOrdinal(RawDate(1987, 6, 24));
    PadFourIsFourDigits(1987);
    assert FourDigits(1987) == "1987" && Two(6) == "06" && Two(24) == "24";
  }

  // ---- the dedup key ----

  /** The key, for any lower-casing function. */
  function DedupKey(lower: string -> string, kind: string, amount: int, day: Day, note: string): string {
    kind + "|" + (SprintD(amount) + "|" + (FormatDate(day) + "|" + lower(TrimSpace(note))))
  }

  predicate NoBar(s: string) {
    forall i :: 0 <= i < |s| ==> s[i] != '|'
  }

  /** A field without the separator ends at the first separator. */
  lemma FirstField(a: string, b: string, c: string, d: string)
    requires NoBar(a) && NoBar(c) && a + "|" + b == c + "|" + d
    ensures a == c && b == d
  {
    var s := a + "|" + b;
    assert s[|a|] == '|' && s[|c|] == '|';
    assert forall i :: 0 <= i < |a| ==> s[i] == a[i];
    assert forall i :: 0 <= i < |c| ==> s[i] == c[i];
    assert |a| == |c|;
    assert a == s[..|a|] && c == s[..|c|];
    assert b == s[|a| + 1..] && d == s[|c| + 1..];
  }

  lemma SprintDInjective(a: int, b: int)
    requires SprintD(a) == SprintD(b)
    ensures a == b
  {
    hide Decimal;
    NumeralHead(a);
    NumeralHead(b);
    if a < 0 {
      assert SprintD(a)[1..] == Decimal(-a) && SprintD(b)[1..] == Decimal(-b);
    }
  }

  lemma NumeralHead(a: int)
    ensures NoBar(SprintD(a)) && SprintD(a) != [] && (a < 0 <==> SprintD(a)[0] == '-')
    ensures Val(Decimal(if a < 0 then -a else a)) == if a < 0 then -a else a
  {
    hide Decimal;
    DecimalIsNumeral(if a < 0 then -a else a);
  }

  lemma PadFourNumeral(n: nat)
    ensures AllDigits(PadFour(n)) && Val(PadFour(n)) == n && PadFour(n) != []
  {
    hide Decimal, Val;
    DecimalIsNumeral(n);
    ValOfZeros(Decimal(n));
  }

  lemma ValOfZeros(s: string)
    ensures Val("0" + s) == Val(s) && Val("00" + s) == Val(s) && Val("000" + s) == Val(s)
  {
    hide Val;
    ValOfZero(s);
    ValOfZero("0" + s);
    ValOfZero("00" + s);
    assert "0" + ("0" + s) == "00" + s;
    assert "0" + ("00" + s) == "000" + s;
  }

  lemma {:induction false} ValOfZero(s: string)
    ensures Val("0" + s) == Val(s)
    decreases |s|
  {
    if s == [] {
      assert ("0" + s)[..0] == [];
    } else {
      assert ("0" + s)[..|s|] == "0" + s[..|s| - 1];
      ValOfZero(s[..|s| - 1]);
    }
  }

  lemma YearTextInjective(y: int, z: int)
    requires YearText(y) == YearText(z)
    ensures y == z
  {
    hide PadFour;
    YearHead(y);
    YearHead(z);
    if y < 0 {
      assert YearText(y)[1..] == PadFour(-y) && YearText(z)[1..] == PadFour(-z);
    }
  }

  lemma YearHead(y: int)
    ensures NoBar(YearText(y)) && YearText(y) != [] && (y < 0 <==> YearText(y)[0] == '-')
    ensures Val(PadFour(if y < 0 then -y else y)) == if y < 0 then -y else y
  {
    hide PadFour;
    PadFourNumeral(if y < 0 then -y else y);
  }

  lemma FormatDateInjective(a: Day, b: Day)
    requires FormatDate(a) == FormatDate(b)
    ensures a == b
  {
    hide Civil, YearText, Ordinal;
    var c, d := Civil(a), Civil(b);
    var s := FormatDate(a);
    FixedTail(YearText(c.y), c.m, c.d);
    FixedTail(YearText(d.y), d.m, d.d);
    YearTextInjective(c.y, d.y);
    OrdinalOfCivil(a);
    OrdinalOfCivil(b);
  }

  lemma FixedTail(y: string, m: int, d: int)
    requires 0 <= m < 100 && 0 <= d < 100
    ensures var s := y + "-" + Two(m) + "-" + Two(d);
            && |s| == |y| + 6 && s[..|s| - 6] == y
            && Digits2(s, |s| - 5) == Some(m) && Digits2(s, |s| - 2) == Some(d)
  {
  }

  lemma FormatDateNoBar(day: Day)
    ensures NoBar(FormatDate(day))
  {
    hide Civil, YearText;
    YearHead(Civil(day).y);
  }

  /** Two transactions have the same key exactly when kind, amount, calendar date and normalised note
      agree, even when notes contain the separator. Accounts and categories do not enter the key. */
  lemma KeyIsInjective(lower: string -> string, k1: string, a1: int, d1: Day, n1: string, k2: string, a2: int, d2: Day,
                       n2: string)
    requires NoBar(k1) && NoBar(k2)
    ensures DedupKey(lower, k1, a1, d1, n1) == DedupKey(lower, k2, a2, d2, n2)
       <==> k1 == k2 && a1 == a2 && d1 == d2 && lower(TrimSpace(n1)) == lower(TrimSpace(n2))
  {
    hide SprintD, FormatDate, TrimSpace, NoBar;
    NumeralHead(a1); NumeralHead(a2);
    FormatDateNoBar(d1); FormatDateNoBar(d2);
    if DedupKey(lower, k1, a1, d1, n1) == DedupKey(lower, k2, a2, d2, n2) {
      var t1 := FormatDate(d1) + "|" + lower(TrimSpace(n1));
      var t2 := FormatDate(d2) + "|" + lower(TrimSpace(n2));
      FirstField(k1, SprintD(a1) + "|" + t1, k2, SprintD(a2) + "|" + t2);
      FirstField(SprintD(a1), t1, SprintD(a2), t2);
      FirstField(FormatDate(d1), lower(TrimSpace(n1)), FormatDate(d2), lower(TrimSpace(n2)));
      SprintDInjective(a1, a2);
      FormatDateInjective(d1, d2);
    }
  }

  // ---- reading and writing records ----

  datatype CsvRow = CsvRow(
    lineNo: int,
    date: string,
    kind: string,
    amount: string,
    account: string,
    toAccount: string,
    category: string,
    note: string)

  const HEADER: seq<string> := ["date", "kind", "amount", "account", "to_account", "category", "note"]

  const REQUIRED: seq<string> := ["date", "kind", "amount", "account"]

  /** Column positions by normalised name; a repeated name means its last column. */
  function ColumnsOf(header: seq<string>, lower: string -> string): map<string, nat> {
    if header == [] then map[]
    else
      var n := |header| - 1;
      ColumnsOf(header[..n], lower)[lower(TrimSpace(header[n])) := n]
  }

  /** Some header cell has this normalised name. */
  predicate HasColumn(header: seq<string>, lower: string -> string, name: string) {
    exists i :: 0 <= i < |header| && lower(TrimSpace(header[i])) == name
  }

  /** Cell i is the last one with this normalised name. */
  predicate LastColumn(header: seq<string>, lower: string -> string, name: string, i: nat) {
    && i < |header| && lower(TrimSpace(header[i])) == name
    && forall j :: i < j < |header| ==> lower(TrimSpace(header[j])) != name
  }

  lemma ColumnStep(header: seq<string>, lower: string -> string, name: string, i: nat)
    requires header != []
    ensures var n := |header| - 1;
            var here := lower(TrimSpace(header[n])) == name;
            && (HasColumn(header, lower, name) <==> HasColumn(header[..n], lower, name) || here)
            && (here ==> LastColumn(header, lower, name, n))
            && (!here && LastColumn(header[..n], lower, name, i) ==> LastColumn(header, lower, name, i))
  {
    hide TrimSpace;
    var n := |header| - 1;
    var front := header[..n];
    assert forall k :: 0 <= k < n ==> front[k] == header[k];
    if k :| 0 <= k < n && lower(TrimSpace(front[k])) == name { assert lower(TrimSpace(header[k])) == name; }
    if k :| 0 <= k < |header| && lower(TrimSpace(header[k])) == name {
      if k < n { assert lower(TrimSpace(front[k])) == name; }
    }
  }

  lemma NoColumns(lower: string -> string, name: string)
    ensures !HasColumn([], lower, name)
  {
  }

  /** A column name means the last column that has it. */
  lemma {:induction false} ColumnIsLast(header: seq<string>, lower: string -> string, name: string)
    ensures name in ColumnsOf(header, lower) <==> HasColumn(header, lower, name)
    ensures name in ColumnsOf(header, lower) ==> LastColumn(header, lower, name, ColumnsOf(header, lower)[name])
    decreases |header|
  {
    hide TrimSpace, HasColumn, LastColumn;
    if header == [] {
      NoColumns(lower, name);
    } else {
      var n := |header| - 1;
      ColumnIsLast(header[..n], lower, name);
      var i := if name in ColumnsOf(header[..n], lower) then ColumnsOf(header[..n], lower)[name] else 0;
      ColumnStep(header, lower, name, i);
    }
  }

  function Field(idx: map<string, nat>, rec: seq<string>, name: string): string {
    if name in idx && idx[name] < |rec| then TrimSpace(rec[idx[name]]) else ""
  }

  function Join(rec: seq<string>): string {
    if rec == [] then "" else Join(rec[..|rec| - 1]) + rec[|rec| - 1]
  }

  predicate Blank(rec: seq<string>) {
    |rec| == 0 || TrimSpace(Join(rec)) == ""
  }

  function RowOf(idx: map<string, nat>, rec: seq<string>, lineNo: int): CsvRow {
    CsvRow(lineNo, Field(idx, rec, "date"), Field(idx, rec, "kind"), Field(idx, rec, "amount"),
           Field(idx, rec, "account"), Field(idx, rec, "to_account"), Field(idx, rec, "category"),
           Field(idx, rec, "note"))
  }

  /** The rows of the first n data records: line numbers count the header and blank records too. */
  function RowsOf(idx: map<string, nat>, records: seq<seq<string>>, n: nat): seq<CsvRow>
    requires n <= |records|
  {
    if n == 0 then []
    else RowsOf(idx, records, n - 1) + if Blank(records[n - 1]) then [] else [RowOf(idx, records[n - 1], n + 1)]
  }

  function ParseCsv(records: seq<seq<string>>, lower: string -> string): Result<seq<CsvRow>> {
    if |records| == 0 then Err(Invalid)
    else
      var idx := ColumnsOf(records[0], lower);
      if exists w :: w in REQUIRED && w !in idx then Err(Invalid)
      else Ok(RowsOf(idx, records[1..], |records| - 1))
  }

  method ParseTransactionCsv(records: seq<seq<string>>, lower: string -> string) returns (res: Result<seq<CsvRow>>)
    ensures res == ParseCsv(records, lower)
  {
    hide TrimSpace, Blank, RowOf;
    if |records| == 0 { return Err(Invalid); }
    var idx: map<string, nat> := map[];
    var i := 0;
    while i < |records[0]|
      invariant 0 <= i <= |records[0]|
      invariant idx == ColumnsOf(records[0][..i], lower)
    {
      assert records[0][..i + 1][..i] == records[0][..i];
      idx := idx[lower(TrimSpace(records[0][i])) := i];
      i := i + 1;
    }
    assert records[0][..i] == records[0];
    i := 0;
    while i < |REQUIRED|
      invariant 0 <= i <= |REQUIRED|
      invariant forall j :: 0 <= j < i ==> REQUIRED[j] in idx
    {
      if REQUIRED[i] !in idx { return Err(Invalid); }
      i := i + 1;
    }
    var data := records[1..];
    var out := [];
    i := 0;
    while i < |data|
      invariant 0 <= i <= |data|
      invariant out == RowsOf(idx, data, i)
    {
      if !Blank(data[i]) { out := out + [RowOf(idx, data[i], i + 2)]; }
      i := i + 1;
    }
    return Ok(out);
  }

  /** A file is refused if and only if it is empty or lacks one of the four columns date, kind, amount and account. */
  lemma RefusedIff(records: seq<seq<string>>, lower: string -> string)
    ensures ParseCsv(records, lower) == Err(Invalid) <==>
            |records| == 0
            || !HasColumn(records[0], lower, "date") || !HasColumn(records[0], lower, "kind")
            || !HasColumn(records[0], lower, "amount") || !HasColumn(records[0], lower, "account")
  {
    hide HasColumn, ColumnsOf, LastColumn, RowsOf;
    if |records| > 0 {
      ColumnIsLast(records[0], lower, "date");
      ColumnIsLast(records[0], lower, "kind");
      ColumnIsLast(records[0], lower, "amount");
      ColumnIsLast(records[0], lower, "account");
      assert REQUIRED[0] == "date" && REQUIRED[1] == "kind" && REQUIRED[2] == "amount" && REQUIRED[3] == "account";
    }
  }

  /** A field is the trimmed cell in the last column with its name, and empty if there is no such column or the
      record is too short for it. */
  lemma FieldIs(header: seq<string>, rec: seq<string>, lower: string -> string, name: string, i: nat)
    ensures !HasColumn(header, lower, name) ==> Field(ColumnsOf(header, lower), rec, name) == ""
    ensures LastColumn(header, lower, name, i) ==>
              Field(ColumnsOf(header, lower), rec, name) == if i < |rec| then TrimSpace(rec[i]) else ""
  {
    hide TrimSpace, ColumnsOf;
    ColumnIsLast(header, lower, name);
    if LastColumn(header, lower, name, i) {
      assert HasColumn(header, lower, name);
      var k := ColumnsOf(header, lower)[name];
      assert k == i;
    }
  }

  predicate AllSpace(s: string) {
    forall i :: 0 <= i < |s| ==> IsSpace(s[i])
  }

  lemma {:induction false} TrimLeftEmptyIff(s: string)
    ensures TrimLeft(s) == "" <==> AllSpace(s)
    decreases |s|
  {
    hide IsSpace;
    if s == [] {
    } else {
      TrimLeftEmptyIff(s[1..]);
      assert s == [s[0]] + s[1..];
    }
  }

  lemma {:induction false} TrimRightEmptyIff(s: string)
    ensures TrimRight(s) == "" <==> AllSpace(s)
    decreases |s|
  {
    hide IsSpace;
    if s == [] {
    } else {
      TrimRightEmptyIff(s[..|s| - 1]);
      assert s == s[..|s| - 1] + [s[|s| - 1]];
    }
  }

  lemma TrimEmptyIff(s: string)
    ensures TrimSpace(s) == "" <==> AllSpace(s)
  {
    hide IsSpace, TrimLeft, TrimRight;
    TrimLeftEmptyIff(s);
    TrimRightEmptyIff(TrimLeft(s));
    if TrimLeft(s) != "" { TrimLeftTrims(s); }
  }

  lemma {:induction false} JoinAllSpace(rec: seq<string>)
    ensures AllSpace(Join(rec)) <==> forall k :: 0 <= k < |rec| ==> AllSpace(rec[k])
    decreases |rec|
  {
    hide AllSpace;
    if rec == [] {
      NothingIsSpace();
    } else {
      var n := |rec| - 1;
      JoinAllSpace(rec[..n]);
      AllSpaceConcat(Join(rec[..n]), rec[n]);
      assert forall k :: 0 <= k < n ==> rec[..n][k] == rec[k];
    }
  }

  lemma NothingIsSpace()
    ensures AllSpace("")
  {
  }

  lemma AllSpaceConcat(a: string, b: string)
    ensures AllSpace(a + b) <==> AllSpace(a) && AllSpace(b)
  {
    hide IsSpace;
    assert forall i :: 0 <= i < |a| ==> (a + b)[i] == a[i];
    assert forall i :: 0 <= i < |b| ==> (a + b)[|a| + i] == b[i];
  }

  /** A record is skipped if and only if none of its cells holds anything but space. */
  lemma BlankIff(rec: seq<string>)
    ensures Blank(rec) <==> forall k :: 0 <= k < |rec| ==> AllSpace(rec[k])
  {
    hide TrimSpace, AllSpace, Join;
    TrimEmptyIff(Join(rec));
    JoinAllSpace(rec);
  }

  /** Every other record, and no blank one, has its row, under its own line number counted from the header. */
  lemma {:induction false} RowPresentIff(idx: map<string, nat>, records: seq<seq<string>>, n: nat, i: nat)
    requires i < n <= |records|
    ensures RowOf(idx, records[i], i + 2) in RowsOf(idx, records, n) <==> !Blank(records[i])
    decreases n
  {
    hide Blank, RowOf;
    ParsedLinesAscend(idx, records, n - 1);
    LineNumber(idx, records[i], i + 2);
    if i == n - 1 {
    } else {
      RowPresentIff(idx, records, n - 1, i);
      LineNumber(idx, records[n - 1], n + 1);
    }
  }

  lemma LineNumber(idx: map<string, nat>, rec: seq<string>, lineNo: int)
    ensures RowOf(idx, rec, lineNo).lineNo == lineNo
  {
    hide Field;
  }

  predicate LinesAscend(rows: seq<CsvRow>) {
    forall i, j :: 0 <= i < j < |rows| ==> rows[i].lineNo < rows[j].lineNo
  }

  /** Rows come out in strictly ascending line order. */
  lemma {:induction false} ParsedLinesAscend(idx: map<string, nat>, records: seq<seq<string>>, n: nat)
    requires n <= |records|
    ensures LinesAscend(RowsOf(idx, records, n))
    ensures forall i :: 0 <= i < |RowsOf(idx, records, n)| ==> RowsOf(idx, records, n)[i].lineNo <= n + 1
    decreases n
  {
    hide Blank, Field;
    if n == 0 {
    } else {
      ParsedLinesAscend(idx, records, n - 1);
    }
  }

  /** A transaction as the list query returns it, with the joined names. */
  datatype ListedTx = ListedTx(tx: Tx, accountName: string, toAccountName: string, categoryName: string)

  function RecordOf(l: ListedTx): seq<string>
    requires MIN_INT64 <= l.tx.amount <= MAX_INT64
  {
    [FormatDate(l.tx.occurredAt), KindText(l.tx.kind), FormatText(l.tx.amount), l.accountName, l.toAccountName,
     l.categoryName, l.tx.note]
  }

  /** Stored amounts are 64-bit columns. */
  predicate Stored(ls: seq<ListedTx>) {
    forall k :: 0 <= k < |ls| ==> MIN_INT64 <= ls[k].tx.amount <= MAX_INT64
  }

  function Exported(ls: seq<ListedTx>): (records: seq<seq<string>>)
    requires Stored(ls)
    ensures |records| == |ls| + 1
  {
    [HEADER] + seq(|ls|, k requires 0 <= k < |ls| => RecordOf(ls[k]))
  }

  method WriteTransactionCsv(ls: seq<ListedTx>) returns (records: seq<seq<string>>)
    requires Stored(ls)
    ensures records == Exported(ls)
  {
    hide FormatDate, FormatText;
    records := [HEADER];
    var i := 0;
    while i < |ls|
      invariant 0 <= i <= |ls| && |records| == i + 1 && records[0] == HEADER
      invariant forall k :: 0 <= k < i ==> records[k + 1] == RecordOf(ls[k])
    {
      var amount := Format(ls[i].tx.amount);
      records := records + [[FormatDate(ls[i].tx.occurredAt), KindText(ls[i].tx.kind), amount, ls[i].accountName,
                             ls[i].toAccountName, ls[i].categoryName, ls[i].tx.note]];
      i := i + 1;
    }
  }
}
