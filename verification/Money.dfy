/** Amounts in minor units (sen) and their text form. */
module Money {
  import opened Domain
  import opened Text
  import opened Digits

  // ---- int64 arithmetic ----

  lemma WrapShift(x: int, k: int)
    ensures Wrap(x + k * TWO_64) == Wrap(x)
  {
    assert (x + k * TWO_64 - MIN_INT64) % TWO_64 == (x - MIN_INT64) % TWO_64 by {
      ModShift(x - MIN_INT64, k, TWO_64);
    }
  }

  lemma ModShift(x: int, k: int, n: int)
    requires n > 0
    ensures (x + k * n) % n == x % n
  {
    var q, r := x / n, x % n;
    assert x + k * n == (q + k) * n + r;
    DivModUnique(x + k * n, n, q + k, r);
  }

  lemma DivModUnique(x: int, n: int, q: int, r: int)
    requires n > 0 && x == q * n + r && 0 <= r < n
    ensures x / n == q && x % n == r
  {
    var d := x / n - q;
    assert d * n + x % n == r;
  }

  /** The wrapped value differs from the mathematical one by a multiple of 2^64. */
  lemma WrapOffset(x: int) returns (k: int)
    ensures Wrap(x) == x + k * TWO_64
  {
    k := -((x - MIN_INT64) / TWO_64);
  }

  lemma WrapOfWrap(a: int, m: int, b: int)
    ensures Wrap(Wrap(a) * m + b) == Wrap(a * m + b)
  {
    var k := WrapOffset(a);
    assert Wrap(a) * m + b == (a * m + b) + (k * m) * TWO_64;
    WrapShift(a * m + b, k * m);
  }

  lemma WrapNegated(a: int)
    ensures Wrap(-Wrap(a)) == Wrap(-a)
  {
    var k := WrapOffset(a);
    assert -Wrap(a) == -a + (-k) * TWO_64;
    WrapShift(-a, -k);
  }

  /** Nothing wraps exactly when the mathematical value fits. */
  lemma WrapIsExactIffInRange(x: int)
    ensures Wrap(x) == x <==> MIN_INT64 <= x <= MAX_INT64
  {
  }

  /** Go's int64 division truncates toward zero. */
  function TruncDiv(a: int, b: int): int
    requires b > 0
  {
    if a >= 0 then a / b else -((-a) / b)
  }

  /** -x in int64. */
  function Negate(x: int): int {
    Wrap(-x)
  }

  // ---- itoa ----

  function Pow10(n: nat): int {
    if n == 0 then 1 else 10 * Pow10(n - 1)
  }

  lemma Pow10OfNineteen()
    ensures Pow10(19) == 10_000_000_000_000_000_000
  {
    assert Pow10(4) == 10_000;
    assert Pow10(8) == 100_000_000;
    assert Pow10(12) == 1_000_000_000_000;
    assert Pow10(16) == 10_000_000_000_000_000;
  }

  /** `tail` is what is already in the buffer when `rest` is still to be written. */
  predicate Filled(n: nat, rest: nat, tail: string) {
    Decimal(n) == (if rest > 0 then Decimal(rest) else "") + tail
  }

  lemma FillDigit(n: nat, rest: nat, tail: string)
    requires rest > 0 && Filled(n, rest, tail)
    ensures Filled(n, rest / 10, [DigitChar(rest % 10)] + tail)
  {
    assert Decimal(rest) == (if rest / 10 > 0 then Decimal(rest / 10) else "") + [DigitChar(rest % 10)];
  }

  lemma Pow10Shrinks(rest: int, k: nat)
    requires 0 < rest < Pow10(k)
    ensures k > 0 && rest / 10 < Pow10(k - 1)
  {
  }

  /** The numeral of a non-negative amount, filled in from the back of a 20-byte buffer that is
      never overrun; "" for a negative one, whose loop body never runs. */
  method Itoa(n: int64) returns (s: string)
    ensures s == ItoaText(n)
  {
    hide Pow10, Decimal, Filled, DigitChar;
    if n == 0 {
      DecimalIsNumeral(0);
      return "0";
    }
    var buf := new char[20];
    var i := buf.Length;
    var rest: int := n;
    Pow10OfNineteen();
    if n > 0 { FilledAtStart(n, buf[i..]); }
    while rest > 0
      invariant 1 <= i <= 20
      invariant n < 0 ==> rest == n && i == 20
      invariant n > 0 ==> 0 <= rest < Pow10(i - 1)
      invariant n > 0 ==> Filled(n, rest, buf[i..])
      decreases rest
    {
      ghost var tail := buf[i..];
      Pow10Shrinks(rest, i - 1);
      FillDigit(n, rest, tail);
      i := i - 1;
      buf[i] := DigitChar(rest % 10);
      assert buf[i..] == [DigitChar(rest % 10)] + tail;
      rest := rest / 10;
    }
    s := buf[i..];
    if n > 0 { FilledAtEnd(n, s); }
  }

  lemma FilledAtStart(n: nat, tail: string)
    requires n > 0 && tail == ""
    ensures Filled(n, n, tail)
  {
  }

  lemma FilledAtEnd(n: nat, tail: string)
    requires Filled(n, 0, tail)
    ensures tail == Decimal(n)
  {
  }

  function ItoaText(n: int): string {
    if n < 0 then "" else Decimal(n)
  }

  // ---- Format and rupiah ----

  /** The grouping loop of both printers. */
  method WriteGrouped(sign: string, digits: string) returns (b: string)
    ensures b == sign + Group(digits)
  {
    b := sign;
    var i := 0;
    while i < |digits|
      invariant 0 <= i <= |digits|
      invariant b == sign + GroupPrefix(digits, i, |digits|)
    {
      if i > 0 && (|digits| - i) % 3 == 0 { b := b + "."; }
      b := b + [digits[i]];
      GroupStep(digits, i + 1, |digits|);
      i := i + 1;
    }
    GroupPrefixIsGroup(digits);
  }

  method Format(minor: int64) returns (s: string)
    ensures s == FormatText(minor)
  {
    var neg := minor < 0;
    var m := if neg then Negate(minor) else minor;
    var whole := TruncDiv(m, 100);
    var digits := Itoa(whole);
    s := WriteGrouped(if neg then "-" else "", digits);
  }

  /** fmt.Sprintf("%d", n). */
  function SprintD(n: int): string {
    if n < 0 then "-" + Decimal(-n) else Decimal(n)
  }

  /** The absolute value both printers take, and its whole units. */
  lemma Absolute(minor: int64)
    ensures var m := if minor < 0 then Negate(minor) else minor;
            if minor == MIN_INT64 then m == minor
            else m == Magnitude(minor) && TruncDiv(m, 100) == Magnitude(minor) / 100
  {
  }

  /** The template printer, with the currency prefix. */
  method Rupiah(minor: int64) returns (s: string)
    ensures s == RupiahText(minor)
  {
    hide Decimal, Group, Negate, TruncDiv;
    Absolute(minor);
    var neg := minor < 0;
    var m := if neg then Negate(minor) else minor;
    var whole := TruncDiv(m, 100);
    s := WriteGrouped((if neg then "-" else "") + "Rp", SprintD(whole));
  }

  /** What Format prints: sign, then the whole units in groups of three. The most negative
      amount has no negation in int64, and prints as a bare sign. */
  function FormatText(m: int64): string {
    if m == MIN_INT64 then "-"
    else (if m < 0 then "-" else "") + Group(Decimal(Magnitude(m) / 100))
  }

  function RupiahText(m: int64): string {
    if m == MIN_INT64 then "-Rp" + Group(SprintD(TruncDiv(m, 100)))
    else (if m < 0 then "-" else "") + "Rp" + Group(Decimal(Magnitude(m) / 100))
  }

  function Magnitude(m: int): nat {
    if m < 0 then -m else m
  }

  // ---- Parse ----

  function TrimPrefix(s: string, p: string): string {
    if p <= s then s[|p|..] else s
  }

  /** The text between sign and currency prefix on one side and trailing space on the other, undotted. */
  function Body(t: string): string {
    RemoveDots(TrimSpace(TrimPrefix(TrimPrefix(t, "-"), "Rp")))
  }

  function IndexByte(s: string, c: char): int
    ensures -1 <= IndexByte(s, c) < |s|
    ensures IndexByte(s, c) >= 0 ==> s[IndexByte(s, c)] == c
  {
    if s == [] then -1
    else if s[0] == c then 0
    else
      var rest := IndexByte(s[1..], c);
      if rest < 0 then -1 else rest + 1
  }

  function Whole(body: string): string {
    if IndexByte(body, ',') >= 0 then body[..IndexByte(body, ',')] else body
  }

  function Fraction(body: string): string {
    if IndexByte(body, ',') >= 0 then body[IndexByte(body, ',') + 1..] else ""
  }

  /** Only the first two characters after the comma are looked at. */
  function Cents(frac: string): string {
    if |frac| > 2 then frac[..2] else frac
  }

  function CentsValue(frac: string): int {
    if |frac| == 0 then 0
    else if |frac| == 1 then 10 * DigitValue(frac[0])
    else 10 * DigitValue(frac[0]) + DigitValue(frac[1])
  }

  /** Accepted texts. */
  predicate Parses(s: string) {
    var t := TrimSpace(s);
    && t != ""
    && AllDigits(Whole(Body(t)))
    && AllDigits(Cents(Fraction(Body(t))))
  }

  /** The amount an accepted text denotes, in exact arithmetic. */
  function Meaning(s: string): int {
    var t := TrimSpace(s);
    var magnitude := 100 * Val(Whole(Body(t))) + CentsValue(Fraction(Body(t)));
    if "-" <= t then -magnitude else magnitude
  }

  function ParseText(s: string): Result<int64> {
    if Parses(s) then Ok(Wrap(Meaning(s))) else Err(Invalid)
  }

  /** The accumulating loop over the whole units. */
  method ParseWhole(text: string) returns (ok: bool, cents: int64)
    ensures ok <==> AllDigits(text)
    ensures ok ==> cents == Wrap(100 * Val(text))
  {
    hide Wrap;
    cents := 0;
    var i := 0;
    assert Wrap(0) == 0 by { WrapOfZero(); }
    while i < |text|
      invariant 0 <= i <= |text|
      invariant AllDigits(text[..i])
      invariant cents == Wrap(Val(text[..i]))
    {
      if text[i] < '0' || text[i] > '9' { return false, cents; }
      assert text[..i + 1][..i] == text[..i];
      WrapOfWrap(Val(text[..i]), 10, DigitValue(text[i]));
      cents := Wrap(cents * 10 + DigitValue(text[i]));
      i := i + 1;
    }
    assert text[..|text|] == text;
    WrapOfWrap(Val(text), 100, 0);
    return true, Wrap(cents * 100);
  }

  lemma WrapOfZero()
    ensures Wrap(0) == 0
  {
  }

  /** The fraction: one digit counts tens of sen, further digits than two are ignored. */
  method ParseFraction(frac: string, cents: int64, ghost whole: int) returns (ok: bool, cents': int64)
    requires cents == Wrap(whole)
    ensures ok <==> AllDigits(Cents(frac))
    ensures ok ==> cents' == Wrap(whole + CentsValue(frac))
  {
    hide Wrap;
    if |frac| == 0 {
      return true, cents;
    } else if |frac| == 1 {
      if frac[0] < '0' || frac[0] > '9' { return false, cents; }
      WrapOfWrap(whole, 1, DigitValue(frac[0]) * 10);
      return true, Wrap(cents + DigitValue(frac[0]) * 10);
    } else {
      assert Cents(frac) == frac[..2];
      var k := 0;
      while k < 2
        invariant 0 <= k <= 2
        invariant forall j :: 0 <= j < k ==> IsDigit(frac[j])
      {
        if frac[k] < '0' || frac[k] > '9' {
          assert !IsDigit(Cents(frac)[k]);
          return false, cents;
        }
        k := k + 1;
      }
      WrapOfWrap(whole, 1, DigitValue(frac[0]) * 10 + DigitValue(frac[1]));
      return true, Wrap(cents + (DigitValue(frac[0]) * 10 + DigitValue(frac[1])));
    }
  }

  /** The amount after sign and currency: split at the first comma, then read both halves. */
  method ParseBody(s: string) returns (ok: bool, cents: int64)
    ensures ok <==> AllDigits(Whole(s)) && AllDigits(Cents(Fraction(s)))
    ensures ok ==> cents == Wrap(100 * Val(Whole(s)) + CentsValue(Fraction(s)))
  {
    hide Wrap, AllDigits, Cents, CentsValue, IndexByte;
    var whole, frac := s, "";
    var comma := IndexByte(s, ',');
    if comma >= 0 { whole, frac := s[..comma], s[comma + 1..]; }
    assert whole == Whole(s) && frac == Fraction(s);
    if whole == "" {
      whole := "0";
      ZeroReadsAsEmpty();
    }
    ok, cents := ParseWhole(whole);
    if !ok { return; }
    ok, cents := ParseFraction(frac, cents, 100 * Val(whole));
  }

  method Parse(input: string) returns (res: Result<int64>)
    ensures res == ParseText(input)
  {
    hide Wrap, TrimSpace, RemoveDots, TrimPrefix, AllDigits, Cents, CentsValue, Whole, Fraction;
    var t := TrimSpace(input);
    if t == "" { return Err(Invalid); }
    var neg := "-" <= t;
    var s := TrimPrefix(TrimPrefix(t, "-"), "Rp");
    s := TrimSpace(s);
    s := RemoveDots(s);
    var ok, cents := ParseBody(s);
    if !ok { return Err(Invalid); }
    if neg {
      WrapNegated(100 * Val(Whole(s)) + CentsValue(Fraction(s)));
      cents := Negate(cents);
    }
    return Ok(cents);
  }

  /** An empty whole part is replaced by "0"; both denote zero. */
  lemma ZeroReadsAsEmpty()
    ensures Val("") == 0 == Val("0") && AllDigits("") && AllDigits("0")
  {
    assert "0"[..0] == [];
  }
}
