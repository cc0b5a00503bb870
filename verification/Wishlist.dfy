/** Wishlist estimates, and the month-by-month saving they predict. */
module Wishlist {
  import opened Calendar
  import opened Domain
  import opened Money

  datatype Item = Item(id: Id, name: string, target: int64, saved: int64)

  function Remaining(w: Item): (r: int64)
    ensures r >= 0
  {
    var r := Wrap(w.target - w.saved);
    if r < 0 then 0 else r
  }

  function ProgressPct(w: Item): int {
    if w.target <= 0 then 0
    else
      var p := TruncDiv(Wrap(w.saved * 100), w.target);
      if p > 100 then 100 else p
  }

  /** The percentage stays within 0..100 exactly when the int64 product does not come out
      negative by the size of the target or more. */
  lemma ProgressInRangeIff(w: Item)
    requires w.target > 0
    ensures 0 <= ProgressPct(w) <= 100 <==> Wrap(w.saved * 100) > -w.target
  {
    var a := Wrap(w.saved * 100);
    if a < 0 { QuotientZeroIff(-a, w.target); }
  }

  /** The amount left is the plain difference, or nothing, if and only if that difference fits in int64. */
  lemma RemainingIsLeftIff(w: Item)
    ensures Remaining(w) == (if w.target > w.saved then w.target - w.saved else 0) <==>
            MIN_INT64 <= w.target - w.saved <= MAX_INT64
  {
  }

  /** What the percentage is for: the whole per cent saved, at most 100. */
  function Percent(w: Item): int
    requires w.target > 0
  {
    var p := 100 * w.saved / w.target;
    if p > 100 then 100 else p
  }

  /** The result is that percentage if and only if 100 times the saving fits in int64, or happens to
      wrap around to at least 100 times the target. */
  lemma ProgressIsPercentIff(w: Item)
    requires w.target > 0 && w.saved >= 0
    ensures ProgressPct(w) == Percent(w) <==>
            100 * w.saved <= MAX_INT64 || 100 * w.target <= 100 * w.saved % TWO_64 <= MAX_INT64
  {
    hide Wrap;
    var a, t := 100 * w.saved, w.target;
    WrapOfProduct(a);
    if a > MAX_INT64 {
      var b := Wrap(a);
      QuotientAtLeast(a, t, 1);
      if b >= 0 {
        QuotientAtLeast(a, t, 100);
        QuotientAtLeast(b, t, 100);
        QuotientGap(a, b, t);
      } else {
        QuotientAtLeast(-b, t, 0);
      }
    }
  }

  lemma WrapOfProduct(a: int)
    requires a >= 0
    ensures a <= MAX_INT64 ==> Wrap(a) == a
    ensures Wrap(a) >= 0 <==> a % TWO_64 <= MAX_INT64
    ensures Wrap(a) >= 0 ==> Wrap(a) == a % TWO_64
    ensures a > MAX_INT64 && Wrap(a) >= 0 ==> a >= Wrap(a) + TWO_64
  {
  }

  lemma QuotientAtLeast(a: int, b: int, k: int)
    requires b > 0
    ensures a / b >= k <==> a >= k * b
  {
    var q, r := a / b, a % b;
    assert a == q * b + r && 0 <= r < b;
    WholePartAtLeast(q, r, b, k);
  }

  lemma WholePartAtLeast(q: int, r: int, b: int, k: int)
    requires 0 <= r < b
    ensures q >= k <==> q * b + r >= k * b
  {
    if q >= k {
      MulLessEq(k, q, b);
    } else {
      MulLessEq(q + 1, k, b);
      assert (q + 1) * b == q * b + b;
    }
  }

  /** Numbers at least one divisor apart have different quotients. */
  lemma QuotientGap(a: int, c: int, b: int)
    requires b > 0 && a >= c + b
    ensures a / b > c / b
  {
    var q := c / b;
    assert c == q * b + c % b;
    QuotientAtLeast(a, b, q + 1);
    assert (q + 1) * b == q * b + b;
  }

  /** A fully funded item of 10_000 units shows 0 per cent. */
  lemma FundedShowsZero(w: Item)
    requires w.target == 1_000_000 && w.saved == 184467440737095517
    ensures w.saved > w.target && Percent(w) == 100 && ProgressPct(w) == 0
  {
  }

  /** And one whose wrapped product is negative shows a number far below 0. */
  lemma FundedShowsNegative(w: Item)
    requires w.target == 1 && w.saved == 92233720368547759
    ensures w.saved > w.target && Percent(w) == 100 && ProgressPct(w) == -9223372036854775716
  {
  }

  lemma QuotientZeroIff(a: int, b: int)
    requires a > 0 && b > 0
    ensures a / b >= 0 && (a / b == 0 <==> a < b)
  {
    if a >= b { assert a / b >= 1 by { DivModUnique(a, b, a / b, a % b); assert a == (a / b) * b + a % b; } }
    else { DivModUnique(a, b, 0, a); }
  }

  datatype Estimate = Estimate(
    item: Item,
    estimable: bool,
    alreadyFunded: bool,
    months: int,
    readyDate: Option<Day>,
    cumulative: int64)

  // ---- the floating-point ceiling ----

  const TWO_53: int := 0x20_0000_0000_0000

  function AbsReal(x: real): real {
    if x < 0.0 then -x else x
  }

  /** What is used of binary64 rounding (roundTiesToEven, section 4.3.1 of IEEE 754-2019), on values
      in its normal range: relative error at most 2^-53, and integers up to 2^53 are exact. */
  ghost predicate IsRounding(round: real -> real) {
    && (forall x: real :: AbsReal(round(x) - x) * (TWO_53 as real) <= AbsReal(x))
    && (forall x: real :: x == x.Floor as real && AbsReal(x) <= TWO_53 as real ==> round(x) == x)
  }

  function Ceil(x: real): int {
    -((-x).Floor)
  }

  lemma PositiveStaysPositive(round: real -> real, n: int)
    requires IsRounding(round) && n > 0
    ensures round(n as real) > 0.0
  {
    var x := n as real;
    assert AbsReal(round(x) - x) * (TWO_53 as real) < x * (TWO_53 as real);
    RealMulLess(AbsReal(round(x) - x), x, TWO_53 as real);
  }

  /** int(math.Ceil(float64(basis) / float64(surplus))), raised to 1. */
  function Months(basis: int, surplus: int, round: real -> real): int
    requires round(surplus as real) != 0.0
  {
    var months := Ceil(round(round(basis as real) / round(surplus as real)));
    if months < 1 then 1 else months
  }

  /** m months of saving reach the basis, and m - 1 do not. */
  predicate LeastMonths(m: int, basis: int, surplus: int) {
    (m - 1) * surplus < basis <= m * surplus
  }

  lemma LeastMonthsUnique(m: int, n: int, basis: int, surplus: int)
    requires surplus > 0 && LeastMonths(m, basis, surplus) && LeastMonths(n, basis, surplus)
    ensures m == n
  {
    LeastMonthsMonotone(m, basis, n, basis, surplus);
    LeastMonthsMonotone(n, basis, m, basis, surplus);
  }

  lemma LeastMonthsMonotone(m: int, basis: int, n: int, more: int, surplus: int)
    requires surplus > 0 && basis <= more && LeastMonths(m, basis, surplus) && LeastMonths(n, more, surplus)
    ensures m <= n
  {
    assert (m - 1) * surplus < n * surplus;
    MulLess(m - 1, n, surplus);
  }

  lemma MulLess(a: int, b: int, k: int)
    requires k > 0 && a * k < b * k
    ensures a < b
  {
  }

  lemma RealMulLess(a: real, b: real, k: real)
    requires k > 0.0 && a * k < b * k
    ensures a < b
  {
  }

  /** The rounded quotient times the surplus is within one unit of the basis. */
  lemma QuotientNearBasis(basis: int, surplus: int, y: real)
    requires 0 < basis < TWO_53 && surplus > 0
    requires AbsReal(y - basis as real / surplus as real) * (TWO_53 as real) <= basis as real / surplus as real
    ensures (basis - 1) as real < y * surplus as real < (basis + 1) as real
  {
    var b, s, t := basis as real, surplus as real, TWO_53 as real;
    var x := b / s;
    assert x * s == b;
    var e := y - x;
    assert e * t <= x && -e * t <= x;
    ScaleError(e, x, s, t);
    assert (e * s) * t <= b && -(e * s) * t <= b;
    SmallError(e * s, b, t);
    assert y * s == b + e * s;
  }

  lemma ScaleError(e: real, x: real, s: real, t: real)
    requires s > 0.0 && e * t <= x && -e * t <= x
    ensures (e * s) * t <= x * s && -(e * s) * t <= x * s
  {
    assert (x - e * t) * s >= 0.0;
    assert (x + e * t) * s >= 0.0;
  }

  lemma SmallError(d: real, b: real, t: real)
    requires 0.0 < b < t && d * t <= b && -d * t <= b
    ensures -1.0 < d < 1.0
  {
    RealMulLess(d, 1.0, t);
    RealMulLess(-d, 1.0, t);
  }

  lemma CeilBetween(y: real, q: int)
    requires q as real < y < (q + 1) as real
    ensures Ceil(y) == q + 1
  {
  }

  lemma ScaledBounds(y: real, q: int, s: int)
    requires s > 0 && (q * s) as real < y * s as real < ((q + 1) * s) as real
    ensures q as real < y < (q + 1) as real
  {
    var k := s as real;
    assert (q * s) as real == q as real * k;
    assert ((q + 1) * s) as real == (q + 1) as real * k;
    RealMulLess(q as real, y, k);
    RealMulLess(y, (q + 1) as real, k);
  }

  lemma RoundsIntegers(round: real -> real, n: int)
    requires IsRounding(round) && -TWO_53 <= n <= TWO_53
    ensures round(n as real) == n as real
  {
  }

  lemma RoundsClosely(round: real -> real, x: real)
    requires IsRounding(round) && x >= 0.0
    ensures AbsReal(round(x) - x) * (TWO_53 as real) <= x
  {
  }

  /** The ceiling of the rounded quotient. */
  lemma CeilOfQuotient(basis: int, surplus: int, round: real -> real)
    requires IsRounding(round) && 0 < basis < TWO_53 && 0 < surplus < TWO_53
    ensures var m := Ceil(round(basis as real / surplus as real)); m >= 1 && LeastMonths(m, basis, surplus)
  {
    hide IsRounding, Ceil, AbsReal;
    var x := basis as real / surplus as real;
    var q, r := basis / surplus, basis % surplus;
    QuotientBounds(basis, surplus);
    assert (q + 1) * surplus == q * surplus + surplus;
    if r == 0 {
      WholeQuotient(basis, surplus, q);
      RoundsIntegers(round, q);
      CeilOfInteger(q);
      MulLess(0, q, surplus);
    } else {
      QuotientPositive(basis, surplus);
      RoundsClosely(round, x);
      QuotientNearBasis(basis, surplus, round(x));
      ScaledBounds(round(x), q, surplus);
      CeilBetween(round(x), q);
    }
  }

  lemma CeilOfInteger(q: int)
    ensures Ceil(q as real) == q
  {
  }

  lemma QuotientPositive(basis: int, surplus: int)
    requires basis > 0 && surplus > 0
    ensures basis as real / surplus as real > 0.0
  {
  }

  /** Below 2^53 the floating-point ceiling is exact: the least number of months that suffices. */
  lemma MonthsExact(basis: int, surplus: int, round: real -> real)
    requires IsRounding(round) && 0 < basis < TWO_53 && 0 < surplus < TWO_53
    ensures round(surplus as real) != 0.0 && LeastMonths(Months(basis, surplus, round), basis, surplus)
  {
    hide IsRounding, Ceil, LeastMonths;
    RoundsIntegers(round, basis);
    RoundsIntegers(round, surplus);
    CeilOfQuotient(basis, surplus, round);
  }

  lemma QuotientBounds(basis: int, surplus: int)
    requires basis > 0 && surplus > 0
    ensures var q, r := basis / surplus, basis % surplus;
            && basis == q * surplus + r && 0 <= r < surplus && 0 <= q <= basis
            && (r == 0 ==> (q - 1) * surplus < basis)
  {
    var q, r := basis / surplus, basis % surplus;
    assert basis == q * surplus + r;
    QuotientRange(basis, surplus, q, r);
  }

  lemma QuotientRange(basis: int, surplus: int, q: int, r: int)
    requires basis > 0 && surplus > 0 && basis == q * surplus + r && 0 <= r < surplus
    ensures 0 <= q <= basis && (q - 1) * surplus < basis
  {
    assert -1 * surplus < q * surplus;
    MulLess(-1, q, surplus);
    assert q * (surplus - 1) >= 0;
    assert (q - 1) * surplus == q * surplus - surplus;
  }

  lemma WholeQuotient(basis: int, surplus: int, q: int)
    requires surplus > 0 && basis == q * surplus
    ensures basis as real / surplus as real == q as real
  {
    assert basis as real == q as real * surplus as real;
  }

  /** Above the bound it can fail: rounding 2^53 + 1 to its even neighbour loses a month. */
  lemma MonthsWrongAboveBound(round: real -> real)
    requires IsRounding(round) && round((TWO_53 + 1) as real) == TWO_53 as real
    ensures round(1 as real) != 0.0 && !LeastMonths(Months(TWO_53 + 1, 1, round), TWO_53 + 1, 1)
  {
    assert round(1 as real) == 1 as real;
    assert TWO_53 as real / 1 as real == TWO_53 as real;
    assert round(TWO_53 as real) == TWO_53 as real;
    assert Ceil(TWO_53 as real) == TWO_53;
  }

  /** With a surplus of 1 the result is right exactly for the savings goals that binary64 can represent,
      rounded values being themselves representable and, in this range, whole. */
  lemma SurplusOneIff(basis: int, round: real -> real)
    requires IsRounding(round) && basis > 0
    requires var y := round(basis as real); y == y.Floor as real && round(y) == y
    ensures round(1 as real) != 0.0
    ensures LeastMonths(Months(basis, 1, round), basis, 1) <==> round(basis as real) == basis as real
  {
    var y := round(basis as real);
    RoundsIntegers(round, 1);
    PositiveStaysPositive(round, basis);
    assert y / 1 as real == y;
    CeilOfInteger(y.Floor);
  }

  /** Relative error of a rounded value, scaled. */
  lemma RoundedBetween(round: real -> real, x: real)
    requires IsRounding(round) && x > 0.0
    ensures x * (TWO_53 as real - 1.0) <= round(x) * TWO_53 as real <= x * (TWO_53 as real + 1.0)
  {
    hide IsRounding, AbsReal;
    RoundsClosely(round, x);
    ErrorBounds(round(x), x, TWO_53 as real);
  }

  lemma ErrorBounds(y: real, x: real, t: real)
    requires t > 0.0 && AbsReal(y - x) * t <= x
    ensures x * (t - 1.0) <= y * t <= x * (t + 1.0)
  {
    var e := AbsReal(y - x);
    assert y - x <= e && x - y <= e;
    MulLeq(y - x, e, t);
    MulLeq(x - y, e, t);
  }

  /** Three roundings compound to at most four parts in 2^53. */
  lemma ThreeRoundings(b: real, s: real, b': real, s': real, y: real, t: real)
    requires b > 0.0 && s > 0.0 && s' > 0.0 && t >= 8.0
    requires b * (t - 1.0) <= b' * t <= b * (t + 1.0)
    requires s * (t - 1.0) <= s' * t <= s * (t + 1.0)
    requires (b' / s') * (t - 1.0) <= y * t <= (b' / s') * (t + 1.0)
    ensures b * (t - 3.0) <= y * s * t <= b * (t + 4.0)
  {
    var z := b' / s';
    assert z * s' == b';
    LowerCompound(b, s, b', s', y, z, t);
    assert b * (t - 1.0) > 0.0;
    FactorNonNegative(b', t);
    FactorNonNegative(z, s');
    assert z * (t - 1.0) >= 0.0;
    UpperCompound(b, s, b', s', y, z, t);
  }

  lemma MulLeq(a: real, b: real, k: real)
    requires k >= 0.0 && a <= b
    ensures a * k <= b * k
  {
  }

  lemma DivLeq(a: real, b: real, k: real)
    requires k > 0.0 && a * k <= b * k
    ensures a <= b
  {
  }

  lemma FactorNonNegative(a: real, k: real)
    requires k > 0.0 && a * k >= 0.0
    ensures a >= 0.0
  {
  }

  lemma LowerCompound(b: real, s: real, b': real, s': real, y: real, z: real, t: real)
    requires b > 0.0 && s > 0.0 && s' > 0.0 && t >= 8.0 && z * s' == b'
    requires b * (t - 1.0) <= b' * t && s' * t <= s * (t + 1.0) && z * (t - 1.0) <= y * t
    ensures b * (t - 3.0) <= y * s * t
  {
    // y*s*t*(t+1) >= y*s'*t*t >= z*(t-1)*s'*t == b'*t*(t-1) >= b*(t-1)*(t-1) >= b*(t-3)*(t+1)
    var u, v := t - 1.0, t + 1.0;
    assert b * u > 0.0;
    FactorNonNegative(b', t);
    FactorNonNegative(z, s');
    assert z * u >= 0.0;
    FactorNonNegative(y, t);
    MulLeq(s' * t, s * v, y * t);
    assert (s * v) * (y * t) == (y * s * t) * v;
    MulLeq(z * u, y * t, s' * t);
    assert (z * u) * (s' * t) == (z * s') * t * u == (b' * t) * u;
    assert (y * t) * (s' * t) == (s' * t) * (y * t);
    MulLeq(b * u, b' * t, u);
    assert (b * u) * u >= (b * (t - 3.0)) * v by {
      assert u * u >= (t - 3.0) * v;
      MulLeq((t - 3.0) * v, u * u, b);
      assert ((t - 3.0) * v) * b == (b * (t - 3.0)) * v;
      assert (u * u) * b == (b * u) * u;
    }
    DivLeq(b * (t - 3.0), y * s * t, v);
  }

  lemma UpperCompound(b: real, s: real, b': real, s': real, y: real, z: real, t: real)
    requires b > 0.0 && s > 0.0 && s' > 0.0 && t >= 8.0 && z * s' == b'
    requires b' * t <= b * (t + 1.0) && s * (t - 1.0) <= s' * t && y * t <= z * (t + 1.0)
    requires y * t >= 0.0
    ensures y * s * t <= b * (t + 4.0)
  {
    // y*s*t*(t-1) <= y*s'*t*t <= z*(t+1)*s'*t == b'*t*(t+1) <= b*(t+1)*(t+1) <= b*(t+4)*(t-1)
    var u, v := t - 1.0, t + 1.0;
    MulLeq(s * u, s' * t, y * t);
    assert (s * u) * (y * t) == (y * s * t) * u;
    assert s' * t >= 0.0;
    MulLeq(y * t, z * v, s' * t);
    assert (z * v) * (s' * t) == (z * s') * t * v == (b' * t) * v;
    assert (y * t) * (s' * t) == (s' * t) * (y * t);
    MulLeq(b' * t, b * v, v);
    assert (b * v) * v <= (b * (t + 4.0)) * u by {
      assert v * v <= (t + 4.0) * u;
      MulLeq(v * v, (t + 4.0) * u, b);
      assert ((t + 4.0) * u) * b == (b * (t + 4.0)) * u;
      assert (v * v) * b == (b * v) * v;
    }
    DivLeq(y * s * t, b * (t + 4.0), u);
  }

  /** Any positive goal and surplus, above 2^53 too: the result is right whenever the goal is further
      from the multiples of the surplus than 2^-51 of itself. */
  lemma MonthsRightAwayFromMultiples(basis: int, surplus: int, round: real -> real)
    requires IsRounding(round) && basis > 0 && surplus > 0
    requires 4 * basis <= TWO_53 * (basis % surplus)
    requires 4 * basis <= TWO_53 * (surplus - basis % surplus)
    ensures round(surplus as real) != 0.0 && LeastMonths(Months(basis, surplus, round), basis, surplus)
  {
    hide IsRounding, Ceil, LeastMonths;
    var b, s, t := basis as real, surplus as real, TWO_53 as real;
    PositiveStaysPositive(round, basis);
    PositiveStaysPositive(round, surplus);
    var z := round(b) / round(s);
    QuotientOfPositives(round(b), round(s));
    RoundedBetween(round, b);
    RoundedBetween(round, s);
    RoundedBetween(round, z);
    ThreeRoundings(b, s, round(b), round(s), round(z), t);
    var q, r := basis / surplus, basis % surplus;
    QuotientBounds(basis, surplus);
    BetweenMultiples(basis, surplus, q, r, round(z));
    CeilWithin(round(z), q);
    LeastMonthsOf(basis, surplus, q, r);
  }

  /** The result fits in a Go int for every int64 goal with a surplus of 2 or more, and with a surplus of 1 for
      every goal but the last few thousand below 2^63, which round up to 2^63. */
  lemma MonthsFitInt(basis: int, surplus: int, round: real -> real)
    requires IsRounding(round) && 0 < basis <= MAX_INT64 && surplus > 0
    requires surplus >= 2 || basis * (TWO_53 + 4) <= MAX_INT64 * TWO_53
    ensures round(surplus as real) != 0.0 && Months(basis, surplus, round) <= MAX_INT64
  {
    hide IsRounding, Ceil;
    var b, s, t := basis as real, surplus as real, TWO_53 as real;
    PositiveStaysPositive(round, basis);
    PositiveStaysPositive(round, surplus);
    var z := round(b) / round(s);
    QuotientOfPositives(round(b), round(s));
    RoundedBetween(round, b);
    RoundedBetween(round, s);
    RoundedBetween(round, z);
    ThreeRoundings(b, s, round(b), round(s), round(z), t);
    FitsScaled(basis, surplus, round(z));
    CeilAtMost(round(z), MAX_INT64);
  }

  lemma FitsScaled(basis: int, surplus: int, y: real)
    requires 0 < basis <= MAX_INT64 && surplus > 0
    requires surplus >= 2 || basis * (TWO_53 + 4) <= MAX_INT64 * TWO_53
    requires y * surplus as real * TWO_53 as real <= basis as real * (TWO_53 as real + 4.0)
    ensures y <= MAX_INT64 as real
  {
    var s, t, m := surplus as real, TWO_53 as real, MAX_INT64 as real;
    assert basis as real * (t + 4.0) <= m * s * t by {
      if surplus >= 2 {
        assert basis as real * (t + 4.0) <= m * (2.0 * t);
        MulLeq(2.0, s, m * t);
        assert 2.0 * (m * t) == m * (2.0 * t) && s * (m * t) == m * s * t;
      } else {
        assert (basis * (TWO_53 + 4)) as real == basis as real * (t + 4.0);
      }
    }
    assert (y * s) * t <= (m * s) * t;
    DivLeq(y * s, m * s, t);
    DivLeq(y, m, s);
  }

  lemma CeilAtMost(y: real, n: int)
    requires y <= n as real
    ensures Ceil(y) <= n
  {
  }

  lemma QuotientOfPositives(a: real, b: real)
    requires a > 0.0 && b > 0.0
    ensures a / b > 0.0
  {
  }

  lemma BetweenMultiples(basis: int, surplus: int, q: int, r: int, y: real)
    requires basis > 0 && surplus > 0 && basis == q * surplus + r && 0 < r < surplus
    requires 4 * basis <= TWO_53 * r && 4 * basis <= TWO_53 * (surplus - r)
    requires var b, s, t := basis as real, surplus as real, TWO_53 as real;
             b * (t - 3.0) <= y * s * t <= b * (t + 4.0)
    ensures q as real < y <= (q + 1) as real
  {
    var b, s, t := basis as real, surplus as real, TWO_53 as real;
    var rr := r as real;
    assert b == q as real * s + rr;
    assert 4.0 * b <= t * rr && 4.0 * b <= t * (s - rr);
    assert b * (t - 3.0) == b * t - 3.0 * b && b * (t + 4.0) == b * t + 4.0 * b;
    assert (q as real * s) * t == b * t - rr * t;
    assert ((q + 1) as real * s) * t == b * t + (s - rr) * t;
    RealMulLess(q as real * s, y * s, t);
    DivLeq(y * s, (q + 1) as real * s, t);
    RealMulLess(q as real, y, s);
    DivLeq(y, (q + 1) as real, s);
  }

  lemma CeilWithin(y: real, q: int)
    requires q as real < y <= (q + 1) as real
    ensures Ceil(y) == q + 1
  {
  }

  lemma LeastMonthsOf(basis: int, surplus: int, q: int, r: int)
    requires surplus > 0 && basis == q * surplus + r && 0 < r < surplus && q >= 0
    ensures q + 1 >= 1 && LeastMonths(q + 1, basis, surplus)
  {
  }

  // ---- the estimator ----

  /** Sum of what is left to save for the first n items. */
  function Prefix(items: seq<Item>, n: nat): int
    requires n <= |items|
  {
    if n == 0 then 0 else Prefix(items, n - 1) + Remaining(items[n - 1])
  }

  /** The amount the i-th item's date depends on. */
  function Basis(items: seq<Item>, i: nat, sequential: bool): int64
    requires i < |items|
  {
    if Remaining(items[i]) == 0 then 0
    else if sequential then Wrap(Prefix(items, i + 1))
    else Remaining(items[i])
  }

  function EstimateAt(items: seq<Item>, i: nat, surplus: int64, sequential: bool, now: Day,
                      round: real -> real): Estimate
    requires i < |items| && (surplus > 0 ==> round(surplus as real) != 0.0)
  {
    var basis := Basis(items, i, sequential);
    if Remaining(items[i]) == 0 then Estimate(items[i], true, true, 0, Some(now), 0)
    else if surplus <= 0 then Estimate(items[i], false, false, 0, None, basis)
    else
      var m := Months(basis, surplus, round);
      Estimate(items[i], true, false, m, Some(AddDate(now, 0, m, 0)), basis)
  }

  method EstimateWishlist(items: seq<Item>, surplus: int64, sequential: bool, now: Day, round: real -> real)
    returns (out: seq<Estimate>)
    requires IsRounding(round)
    ensures surplus > 0 ==> round(surplus as real) != 0.0
    ensures |out| == |items|
    ensures forall i :: 0 <= i < |items| ==> out[i] == EstimateAt(items, i, surplus, sequential, now, round)
  {
    hide AddDate, Wrap, Remaining, IsRounding;
    out := [];
    var cumulative: int64 := 0;
    WrapOfZero();
    if surplus > 0 { PositiveStaysPositive(round, surplus); }
    var n := 0;
    while n < |items|
      invariant 0 <= n <= |items| && |out| == n
      invariant sequential ==> cumulative == Wrap(Prefix(items, n))
      invariant forall i :: 0 <= i < n ==> out[i] == EstimateAt(items, i, surplus, sequential, now, round)
    {
      var it := items[n];
      var rem := Remaining(it);
      if rem == 0 {
        out := out + [Estimate(it, true, true, 0, Some(now), 0)];
      } else {
        var basis := rem;
        if sequential {
          WrapOfWrap(Prefix(items, n), 1, rem);
          cumulative := Wrap(cumulative + rem);
          basis := cumulative;
        }
        if surplus <= 0 {
          out := out + [Estimate(it, false, false, 0, None, basis)];
        } else {
          var months := Months(basis, surplus, round);
          out := out + [Estimate(it, true, false, months, Some(AddDate(now, 0, months, 0)), basis)];
        }
      }
      n := n + 1;
    }
  }

  /** When an item is ready, and how it is marked. A funded item is ready now; without a surplus there is no date.
      Otherwise the date is `months` calendar months on: the first of that month plus the days by which today is
      past the first of its own month, which is the same day of the month whenever that is at most the 28th. */
  lemma ReadyDateIs(items: seq<Item>, i: nat, surplus: int64, sequential: bool, now: Day, round: real -> real)
    requires IsRounding(round) && i < |items|
    ensures surplus > 0 ==> round(surplus as real) != 0.0
    ensures var e := EstimateAt(items, i, surplus, sequential, now, round);
            && e.item == items[i]
            && (e.alreadyFunded <==> Remaining(items[i]) == 0)
            && (e.estimable <==> Remaining(items[i]) == 0 || surplus > 0)
            && (e.alreadyFunded ==> e.readyDate == Some(now) && e.months == 0 && e.cumulative == 0)
            && (!e.alreadyFunded ==>
                  e.cumulative == if sequential then Wrap(Prefix(items, i + 1)) else Remaining(items[i]))
            && (!e.estimable ==> e.readyDate == None && e.months == 0)
            && (e.estimable && !e.alreadyFunded ==>
                  e.months >= 1 && e.readyDate.Some? && LandsAfter(now, e.months, e.readyDate.value))
  {
    hide AddDate, Months, IsRounding, Remaining, LandsAfter, Ceil, Wrap, Prefix;
    if surplus > 0 {
      PositiveStaysPositive(round, surplus);
      if Remaining(items[i]) > 0 {
        MonthsAtLeastOne(Basis(items, i, sequential), surplus, round);
        MonthsLater(now, Months(Basis(items, i, sequential), surplus, round));
      }
    }
  }

  /** Even where the running total has wrapped around to a negative number. */
  lemma MonthsAtLeastOne(basis: int, surplus: int, round: real -> real)
    requires round(surplus as real) != 0.0
    ensures Months(basis, surplus, round) >= 1
  {
    hide Ceil;
  }

  /** `day` is `months` calendar months after `now`, as far on from the first of its month. */
  predicate LandsAfter(now: Day, months: int, day: Day) {
    var first := day - (Civil(now).d - 1);
    && Civil(first).d == 1
    && MonthIndex(Civil(first)) == MonthIndex(Civil(now)) + months
    && (Civil(now).d <= 28 ==>
          Civil(day).d == Civil(now).d && MonthIndex(Civil(day)) == MonthIndex(Civil(now)) + months)
  }

  lemma MonthsLater(now: Day, months: int)
    ensures LandsAfter(now, months, AddDate(now, 0, months, 0))
  {
    hide Civil, GoDate, Ordinal;
    var c := Civil(now);
    var k := MonthIndex(c) + months;
    var y, m := k / 12, k % 12 + 1;
    GoDateNormalises(c.y, c.m + months, c.d, y, m);
    CivilOfOrdinal(RawDate(y, m, 1));
    if c.d <= 28 {
      DayOfMonth(y, m, c.d);
      CivilOfOrdinal(RawDate(y, m, c.d));
    }
  }

  lemma DayOfMonth(y: int, m: int, d: int)
    requires 1 <= m <= 12 && 1 <= d <= 28
    ensures ValidDate(RawDate(y, m, d)) && Ordinal(RawDate(y, m, d)) == Ordinal(RawDate(y, m, 1)) + d - 1
  {
  }

  /** In parallel mode each item draws on the full surplus: its months are the least that cover what it lacks. */
  lemma ParallelMonths(items: seq<Item>, i: nat, surplus: int64, now: Day, round: real -> real)
    requires IsRounding(round) && i < |items| && 0 < Remaining(items[i]) < TWO_53 && 0 < surplus < TWO_53
    ensures round(surplus as real) != 0.0
    ensures var e := EstimateAt(items, i, surplus, false, now, round);
            && e.cumulative == Remaining(items[i])
            && (e.months - 1) * surplus < Remaining(items[i]) <= e.months * surplus
  {
    hide AddDate, IsRounding, Months, Remaining;
    PositiveStaysPositive(round, surplus);
    MonthsExact(Remaining(items[i]), surplus, round);
  }

  // ---- the month-by-month simulation ----

  function Remainders(items: seq<Item>): (r: seq<nat>)
    ensures |r| == |items|
  {
    seq(|items|, i requires 0 <= i < |items| => Remaining(items[i]))
  }

  /** Puts an amount into the first unfunded item, and what is left over into the next ones. */
  function Pour(rems: seq<nat>, x: nat): (r: seq<nat>)
    ensures |r| == |rems|
  {
    if rems == [] then []
    else if x >= rems[0] then [0] + Pour(rems[1..], x - rems[0])
    else [rems[0] - x] + rems[1..]
  }

  /** What is left to save after m months of putting the surplus aside. */
  function AfterMonths(rems: seq<nat>, surplus: nat, m: nat): (r: seq<nat>)
    ensures |r| == |rems|
  {
    if m == 0 then rems else Pour(AfterMonths(rems, surplus, m - 1), surplus)
  }

  lemma {:induction false} PourTwice(rems: seq<nat>, x: nat, y: nat)
    ensures Pour(Pour(rems, x), y) == Pour(rems, x + y)
    decreases |rems|
  {
    if rems != [] && x >= rems[0] {
      PourTwice(rems[1..], x - rems[0], y);
      assert Pour(rems, x)[1..] == Pour(rems[1..], x - rems[0]);
    } else if rems != [] {
      assert Pour(rems, x)[1..] == rems[1..];
    }
  }

  lemma {:induction false} PourNothing(rems: seq<nat>)
    ensures Pour(rems, 0) == rems
    decreases |rems|
  {
    if rems != [] && rems[0] == 0 { PourNothing(rems[1..]); }
  }

  lemma {:induction false} MonthsPourTogether(rems: seq<nat>, surplus: nat, m: nat)
    ensures AfterMonths(rems, surplus, m) == Pour(rems, m * surplus)
    decreases m
  {
    if m == 0 {
      PourNothing(rems);
    } else {
      MonthsPourTogether(rems, surplus, m - 1);
      PourTwice(rems, (m - 1) * surplus, surplus);
      assert (m - 1) * surplus + surplus == m * surplus;
    }
  }

  function SumFirst(rems: seq<nat>, n: nat): nat
    requires n <= |rems|
  {
    if n == 0 then 0 else rems[0] + SumFirst(rems[1..], n - 1)
  }

  /** An item is funded exactly when the amount poured reaches the sum up to and including it. */
  lemma {:induction false} PourFunds(rems: seq<nat>, x: nat, i: nat)
    requires i < |rems|
    ensures rems[i] > 0 ==> (Pour(rems, x)[i] == 0 <==> x >= SumFirst(rems, i + 1))
    ensures rems[i] == 0 ==> Pour(rems, x)[i] == 0
    decreases |rems|
  {
    if i == 0 {
      assert SumFirst(rems, 1) == rems[0] + SumFirst(rems[1..], 0);
    } else if x >= rems[0] {
      PourFunds(rems[1..], x - rems[0], i - 1);
    } else {
      SumFirstGrows(rems[1..], i);
    }
  }

  lemma {:induction false} SumFirstGrows(rems: seq<nat>, n: nat)
    requires 0 < n <= |rems|
    ensures SumFirst(rems, n) >= rems[n - 1]
    decreases n
  {
    if n > 1 { SumFirstGrows(rems[1..], n - 1); }
  }

  lemma {:induction false} SumFirstSnoc(rems: seq<nat>, n: nat)
    requires n < |rems|
    ensures SumFirst(rems, n + 1) == SumFirst(rems, n) + rems[n]
    decreases n
  {
    if n == 0 {
    } else {
      SumFirstSnoc(rems[1..], n - 1);
    }
  }

  lemma {:induction false} PrefixIsSumFirst(items: seq<Item>, n: nat)
    requires n <= |items|
    ensures Prefix(items, n) == SumFirst(Remainders(items), n)
    decreases n
  {
    if n == 0 {
    } else {
      PrefixIsSumFirst(items, n - 1);
      SumFirstSnoc(Remainders(items), n - 1);
    }
  }

  lemma {:induction false} PrefixMonotone(items: seq<Item>, m: nat, n: nat)
    requires m <= n <= |items|
    ensures 0 <= Prefix(items, m) <= Prefix(items, n)
    decreases n
  {
    if m < n { PrefixMonotone(items, m, n - 1); }
    else if n > 0 { PrefixMonotone(items, m - 1, n - 1); }
  }

  /** The sum over the first n items and the surplus are small enough for binary64 to be exact. */
  predicate Exact(items: seq<Item>, n: nat, surplus: int)
    requires n <= |items|
  {
    0 < surplus < TWO_53 && Prefix(items, n) < TWO_53
  }

  /** In sequential mode the basis is the plain prefix sum, and the months are the least that cover it. */
  lemma SequentialMonths(items: seq<Item>, i: nat, surplus: int64, now: Day, round: real -> real)
    requires IsRounding(round) && i < |items| && Exact(items, i + 1, surplus) && Remaining(items[i]) > 0
    ensures round(surplus as real) != 0.0
    ensures var e := EstimateAt(items, i, surplus, true, now, round);
            e.cumulative == Prefix(items, i + 1) && LeastMonths(e.months, Prefix(items, i + 1), surplus)
  {
    hide AddDate, IsRounding;
    PositiveStaysPositive(round, surplus);
    PrefixMonotone(items, i, i);
    WrapIsExactIffInRange(Prefix(items, i + 1));
    MonthsExact(Prefix(items, i + 1), surplus, round);
  }

  /** The estimate is what happens: saving the surplus every month into the first unfunded item
      funds the i-th item in exactly its estimated month, not earlier and not later. */
  lemma EstimateMatchesSaving(items: seq<Item>, i: nat, surplus: int64, now: Day, round: real -> real)
    requires IsRounding(round) && i < |items| && Exact(items, i + 1, surplus) && Remaining(items[i]) > 0
    ensures round(surplus as real) != 0.0
    ensures var m := EstimateAt(items, i, surplus, true, now, round).months;
            && m >= 1
            && AfterMonths(Remainders(items), surplus, m)[i] == 0
            && forall k: nat :: k < m ==> AfterMonths(Remainders(items), surplus, k)[i] > 0
  {
    hide EstimateAt, IsRounding, Remaining, AfterMonths;
    SequentialMonths(items, i, surplus, now, round);
    var m := EstimateAt(items, i, surplus, true, now, round).months;
    PrefixMonotone(items, i, i);
    assert 0 * surplus < m * surplus;
    MulLess(0, m, surplus);
    FundedIffCovered(items, i, surplus, m);
    forall k: nat | k < m ensures AfterMonths(Remainders(items), surplus, k)[i] > 0 {
      FundedIffCovered(items, i, surplus, k);
      MulLessEq(k, m - 1, surplus);
    }
  }

  lemma MulLessEq(a: int, b: int, k: int)
    requires k > 0 && a <= b
    ensures a * k <= b * k
  {
  }

  lemma FundedIffCovered(items: seq<Item>, i: nat, surplus: nat, m: nat)
    requires i < |items| && Remaining(items[i]) > 0
    ensures AfterMonths(Remainders(items), surplus, m)[i] == 0 <==> m * surplus >= Prefix(items, i + 1)
  {
    hide Pour, SumFirst, AfterMonths, Prefix, Remaining;
    PrefixIsSumFirst(items, i + 1);
    MonthsPourTogether(Remainders(items), surplus, m);
    PourFunds(Remainders(items), m * surplus, i);
  }

  /** Buying one after the other, dates never go back along the list, and no item is ready
      before its own parallel-mode date. */
  lemma SequentialOrder(items: seq<Item>, i: nat, j: nat, surplus: int64, now: Day, round: real -> real)
    requires IsRounding(round) && i <= j < |items| && Exact(items, j + 1, surplus)
    requires Remaining(items[i]) > 0 && Remaining(items[j]) > 0
    ensures round(surplus as real) != 0.0
    ensures var later := EstimateAt(items, j, surplus, true, now, round).months;
            && EstimateAt(items, i, surplus, true, now, round).months <= later
            && EstimateAt(items, j, surplus, false, now, round).months <= later
  {
    hide AddDate, IsRounding, Months, LeastMonths;
    PrefixMonotone(items, i + 1, j + 1);
    SequentialMonths(items, i, surplus, now, round);
    SequentialMonths(items, j, surplus, now, round);
    PrefixMonotone(items, j, j);
    MonthsExact(Remaining(items[j]), surplus, round);
    var mi := EstimateAt(items, i, surplus, true, now, round).months;
    var mj := EstimateAt(items, j, surplus, true, now, round).months;
    LeastMonthsMonotone(mi, Prefix(items, i + 1), mj, Prefix(items, j + 1), surplus);
    LeastMonthsMonotone(EstimateAt(items, j, surplus, false, now, round).months, Remaining(items[j]),
                        mj, Prefix(items, j + 1), surplus);
  }

  const HEADPHONE := Item("1", "Headphone", 300000_00, 100000_00)
  const LAPTOP := Item("2", "Laptop", 1500000_00, 0)
  const DONE := Item("3", "Done", 50000_00, 50000_00)

  /** The estimates that the estimator's tests list. */
  lemma EstimateCases(now: Day, round: real -> real)
    requires IsRounding(round)
    ensures round(100000_00 as real) != 0.0
    ensures var items := [HEADPHONE, LAPTOP, DONE];
            && EstimateAt(items, 0, 100000_00, false, now, round).months == 2
            && EstimateAt(items, 1, 100000_00, false, now, round).months == 15
            && EstimateAt(items, 2, 100000_00, false, now, round).alreadyFunded
            && EstimateAt(items, 0, 100000_00, true, now, round).months == 2
            && EstimateAt(items, 1, 100000_00, true, now, round).months == 17
            && !EstimateAt(items, 0, -5000, false, now, round).estimable
  {
    hide AddDate, IsRounding, EstimateAt;
    var items := [HEADPHONE, LAPTOP, DONE];
    CaseSums();
    ParallelMonths(items, 0, 100000_00, now, round);
    ParallelMonths(items, 1, 100000_00, now, round);
    SequentialMonths(items, 0, 100000_00, now, round);
    SequentialMonths(items, 1, 100000_00, now, round);
    ReadyDateIs(items, 2, 100000_00, false, now, round);
    ReadyDateIs(items, 0, -5000, false, now, round);
  }

  lemma CaseSums()
    ensures var items := [HEADPHONE, LAPTOP, DONE];
            && Remaining(HEADPHONE) == 200000_00 && Remaining(LAPTOP) == 1500000_00 && Remaining(DONE) == 0
            && Prefix(items, 1) == 200000_00 && Prefix(items, 2) == 1700000_00
  {
    var items := [HEADPHONE, LAPTOP, DONE];
    assert Prefix(items, 0) == 0;
    assert Prefix(items, 1) == Remaining(HEADPHONE);
  }

  // ---- reordering the list ----

  predicate LastUnfunded(items: seq<Item>, i: nat)
    requires i < |items|
  {
    Remaining(items[i]) > 0 && forall j :: i < j < |items| ==> Remaining(items[j]) == 0
  }

  lemma {:induction false} PrefixAfterLast(items: seq<Item>, i: nat, n: nat)
    requires i < n <= |items| && LastUnfunded(items, i)
    ensures Prefix(items, n) == Prefix(items, i + 1)
    decreases n
  {
    if n > i + 1 { PrefixAfterLast(items, i, n - 1); }
  }

  lemma {:induction false} PrefixOfConcat(a: seq<Item>, b: seq<Item>, n: nat)
    requires n <= |b|
    ensures Prefix(a + b, |a| + n) == Prefix(a, |a|) + Prefix(b, n)
    decreases n
  {
    if n == 0 { PrefixFrame(a, a + b, |a|); } else { PrefixOfConcat(a, b, n - 1); }
  }

  lemma {:induction false} PrefixFrame(a: seq<Item>, b: seq<Item>, n: nat)
    requires n <= |a| && n <= |b| && forall i :: 0 <= i < n ==> a[i] == b[i]
    ensures Prefix(a, n) == Prefix(b, n)
    decreases n
  {
    if n == 0 {
    } else {
      PrefixFrame(a, b, n - 1);
    }
  }

  lemma PrefixWithout(b: seq<Item>, i: nat)
    requires i < |b|
    ensures Prefix(b, |b|) == Prefix(b[..i] + b[i + 1..], |b| - 1) + Remaining(b[i])
  {
    hide Prefix, Remaining;
    var x := b[i];
    assert b == (b[..i] + [x]) + b[i + 1..];
    PrefixOfConcat(b[..i] + [x], b[i + 1..], |b| - i - 1);
    PrefixOfConcat(b[..i], b[i + 1..], |b| - i - 1);
    PrefixOfConcat(b[..i], [x], 1);
    PrefixOfOne(x);
  }

  lemma PrefixOfOne(x: Item)
    ensures Prefix([x], 1) == Remaining(x)
  {
    assert Prefix([x], 0) == 0;
  }

  lemma MultisetWithout(a: seq<Item>, i: nat)
    requires i < |a|
    ensures multiset(a[..i] + a[i + 1..]) == multiset(a) - multiset{a[i]}
  {
    assert a == a[..i] + [a[i]] + a[i + 1..];
  }

  /** The grand total does not depend on the order. */
  lemma {:induction false} TotalOfPermutation(a: seq<Item>, b: seq<Item>)
    requires multiset(a) == multiset(b)
    ensures Prefix(a, |a|) == Prefix(b, |b|)
    decreases |a|
  {
    hide Prefix, Remaining;
    if a == [] {
      assert |multiset(b)| == 0;
      PrefixFrame(a, b, 0);
    } else {
      var n := |a| - 1;
      var x := a[n];
      assert x in multiset(b);
      var i :| 0 <= i < |b| && b[i] == x;
      MultisetWithout(a, n);
      MultisetWithout(b, i);
      TotalOfPermutation(a[..n] + a[n + 1..], b[..i] + b[i + 1..]);
      PrefixWithout(a, n);
      PrefixWithout(b, i);
    }
  }

  /** Whatever the order, everything is bought in the same month. */
  lemma LastMonthIgnoresOrder(a: seq<Item>, b: seq<Item>, i: nat, j: nat, surplus: int64, now: Day, round: real -> real)
    requires IsRounding(round) && multiset(a) == multiset(b) && Exact(a, |a|, surplus)
    requires i < |a| && LastUnfunded(a, i) && j < |b| && LastUnfunded(b, j)
    ensures round(surplus as real) != 0.0
    ensures EstimateAt(a, i, surplus, true, now, round).months == EstimateAt(b, j, surplus, true, now, round).months
  {
    hide EstimateAt, IsRounding, Remaining, LeastMonths;
    TotalOfPermutation(a, b);
    PrefixAfterLast(a, i, |a|);
    PrefixAfterLast(b, j, |b|);
    SequentialMonths(a, i, surplus, now, round);
    SequentialMonths(b, j, surplus, now, round);
    LeastMonthsUnique(EstimateAt(a, i, surplus, true, now, round).months,
                      EstimateAt(b, j, surplus, true, now, round).months, Prefix(a, |a|), surplus);
  }
}
