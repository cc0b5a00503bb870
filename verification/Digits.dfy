/** Decimal numerals and thousands grouping. */
module Digits {

  predicate IsDigit(c: char) {
    '0' <= c <= '9'
  }

  predicate AllDigits(s: string) {
    forall i :: 0 <= i < |s| ==> IsDigit(s[i])
  }

  function DigitValue(c: char): int {
    c as int - '0' as int
  }

  function DigitChar(d: int): (c: char)
    requires 0 <= d < 10
    ensures IsDigit(c) && DigitValue(c) == d
  {
    ('0' as int + d) as char
  }

  /** The number a string of digits denotes. */
  function Val(s: string): int {
    if s == [] then 0 else 10 * Val(s[..|s| - 1]) + DigitValue(s[|s| - 1])
  }

  /** The decimal numeral of n. */
  function Decimal(n: nat): (s: string)
    ensures s != []
  {
    if n < 10 then [DigitChar(n)] else Decimal(n / 10) + [DigitChar(n % 10)]
  }

  lemma {:induction false} DecimalIsNumeral(n: nat)
    ensures AllDigits(Decimal(n)) && Val(Decimal(n)) == n
    ensures Decimal(n)[0] == '0' ==> n == 0
    ensures n == 0 ==> Decimal(n) == "0"
    decreases n
  {
    if n < 10 {
      assert Decimal(n)[..0] == [];
    } else {
      DecimalIsNumeral(n / 10);
      assert Decimal(n)[..|Decimal(n)| - 1] == Decimal(n / 10);
    }
  }

  lemma {:induction false} ValNonNegative(s: string)
    requires AllDigits(s)
    ensures Val(s) >= 0
    decreases |s|
  {
    if s == [] {
    } else {
      ValNonNegative(s[..|s| - 1]);
    }
  }

  lemma {:induction false} ValPositive(s: string)
    requires AllDigits(s) && s != [] && s[0] != '0'
    ensures Val(s) > 0
    decreases |s|
  {
    if |s| > 1 { ValPositive(s[..|s| - 1]); }
    else { assert s[..0] == []; }
  }

  /** A digit string without leading zeros is the numeral of its value: numerals are unique. */
  lemma {:induction false} NumeralIsDecimal(s: string)
    requires AllDigits(s) && s != [] && (s[0] == '0' ==> |s| == 1)
    ensures Val(s) >= 0 && s == Decimal(Val(s))
    decreases |s|
  {
    var n := |s| - 1;
    ValNonNegative(s);
    if n == 0 {
      assert s[..0] == [];
      assert s == [DigitChar(Val(s))];
    } else {
      NumeralIsDecimal(s[..n]);
      ValPositive(s[..n]);
      assert Val(s) / 10 == Val(s[..n]) && Val(s) % 10 == DigitValue(s[n]);
      assert s == s[..n] + [DigitChar(DigitValue(s[n]))];
    }
  }

  /** Dots after every third character from the right. */
  function Group(s: string): string {
    if |s| <= 3 then s else Group(s[..|s| - 3]) + "." + s[|s| - 3..]
  }

  /** What the grouping loop has written after the first i of n characters. */
  function GroupPrefix(s: string, i: nat, n: nat): string
    requires i <= |s| && i <= n
  {
    if i == 0 then ""
    else
      GroupPrefix(s, i - 1, n)
      + (if i > 1 && (n - (i - 1)) % 3 == 0 then "." else "") + [s[i - 1]]
  }

  lemma {:induction false} GroupPrefixFrame(s: string, t: string, i: nat, n: nat, k: nat)
    requires i <= |s| && i <= |t| && i <= n && s[..i] == t[..i]
    ensures GroupPrefix(s, i, n) == GroupPrefix(t, i, n + 3 * k)
    decreases i
  {
    if i == 0 {
    } else {
      assert s[..i][..i - 1] == s[..i - 1] && t[..i][..i - 1] == t[..i - 1];
      GroupPrefixFrame(s, t, i - 1, n, k);
      assert s[i - 1] == s[..i][i - 1] && t[i - 1] == t[..i][i - 1];
      assert (n + 3 * k - (i - 1)) % 3 == (n - (i - 1)) % 3;
    }
  }

  lemma GroupStep(s: string, i: nat, n: nat)
    requires 0 < i <= |s| && i <= n
    ensures GroupPrefix(s, i, n)
         == GroupPrefix(s, i - 1, n) + (if i > 1 && (n - (i - 1)) % 3 == 0 then "." else "") + [s[i - 1]]
  {
  }

  lemma GroupStepPlain(s: string, i: nat, n: nat)
    requires 0 < i <= |s| && i <= n && (n - (i - 1)) % 3 != 0
    ensures GroupPrefix(s, i, n) == GroupPrefix(s, i - 1, n) + [s[i - 1]]
  {
  }

  lemma {:induction false} GroupPrefixStart(s: string, i: nat, n: nat)
    requires i <= |s| && i <= n <= 3
    ensures GroupPrefix(s, i, n) == s[..i]
    decreases i
  {
    hide GroupPrefix;
    if i == 0 {
      GroupPrefixEmpty(s, n);
    } else {
      GroupPrefixStart(s, i - 1, n);
      GroupStep(s, i, n);
      assert s[..i] == s[..i - 1] + [s[i - 1]];
    }
  }

  lemma GroupPrefixEmpty(s: string, n: nat)
    ensures GroupPrefix(s, 0, n) == ""
  {
  }

  /** The left-to-right loop and the right-to-left definition agree. */
  lemma {:induction false} GroupPrefixIsGroup(s: string)
    ensures GroupPrefix(s, |s|, |s|) == Group(s)
    decreases |s|
  {
    var n := |s|;
    if n <= 3 {
      GroupPrefixStart(s, n, n);
      assert s[..n] == s;
    } else {
      GroupPrefixIsGroup(s[..n - 3]);
      GroupPrefixFrame(s[..n - 3], s, n - 3, n - 3, 1);
      LastGroup(s);
    }
  }

  lemma GroupStepDot(s: string, i: nat, n: nat)
    requires 1 < i <= |s| && i <= n && (n - (i - 1)) % 3 == 0
    ensures GroupPrefix(s, i, n) == GroupPrefix(s, i - 1, n) + "." + [s[i - 1]]
  {
  }

  lemma LastGroup(s: string)
    requires |s| > 3
    ensures GroupPrefix(s, |s|, |s|) == GroupPrefix(s, |s| - 3, |s|) + "." + s[|s| - 3..]
  {
    hide *;
    var n := |s|;
    GroupStepDot(s, n - 2, n);
    GroupStepPlain(s, n - 1, n);
    GroupStepPlain(s, n, n);
    AppendThree(GroupPrefix(s, n - 3, n) + ".", GroupPrefix(s, n - 2, n), GroupPrefix(s, n - 1, n),
                GroupPrefix(s, n, n), s);
  }

  lemma AppendThree(g: string, g1: string, g2: string, g3: string, s: string)
    requires |s| > 3
    requires g1 == g + [s[|s| - 3]] && g2 == g1 + [s[|s| - 2]] && g3 == g2 + [s[|s| - 1]]
    ensures g3 == g + s[|s| - 3..]
  {
    assert s[|s| - 3..] == [s[|s| - 3], s[|s| - 2], s[|s| - 1]];
  }

  function RemoveDots(s: string): string {
    if s == [] then [] else RemoveDots(s[..|s| - 1]) + if s[|s| - 1] == '.' then [] else [s[|s| - 1]]
  }

  lemma {:induction false} RemoveDotsConcat(a: string, b: string)
    ensures RemoveDots(a + b) == RemoveDots(a) + RemoveDots(b)
    decreases |b|
  {
    if b == [] {
      assert a + b == a;
    } else {
      assert (a + b)[..|a + b| - 1] == a + b[..|b| - 1];
      RemoveDotsConcat(a, b[..|b| - 1]);
    }
  }

  lemma {:induction false} RemoveNoDots(s: string)
    requires forall i :: 0 <= i < |s| ==> s[i] != '.'
    ensures RemoveDots(s) == s
    decreases |s|
  {
    if s == [] {
    } else {
      RemoveNoDots(s[..|s| - 1]);
    }
  }

  /** Removing the dots undoes the grouping. */
  lemma {:induction false} UngroupGroup(s: string)
    requires forall i :: 0 <= i < |s| ==> s[i] != '.'
    ensures RemoveDots(Group(s)) == s
    decreases |s|
  {
    if |s| <= 3 {
      RemoveNoDots(s);
    } else {
      var n := |s| - 3;
      UngroupGroup(s[..n]);
      RemoveDotsConcat(Group(s[..n]) + ".", s[n..]);
      RemoveDotsConcat(Group(s[..n]), ".");
      RemoveNoDots(s[n..]);
      assert RemoveDots(".") == [] by { assert "."[..0] == []; }
    }
  }

  /** Grouping keeps the first and last characters and adds only dots. */
  lemma {:induction false} GroupEnds(s: string)
    requires s != []
    ensures Group(s) != [] && Group(s)[0] == s[0] && Group(s)[|Group(s)| - 1] == s[|s| - 1]
    ensures forall i :: 0 <= i < |Group(s)| ==> Group(s)[i] == '.' || Group(s)[i] in s
    decreases |s|
  {
    if |s| > 3 { GroupEnds(s[..|s| - 3]); }
  }
}
