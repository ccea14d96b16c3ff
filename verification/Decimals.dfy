/** Decimal text of integers, as PostgreSQL's `::text`, JavaScript's BigInt and the
    contract's numeric-string patterns see it. */
module Decimals {

  const INT64_MAX: nat := 9223372036854775807
  const CLAIM_GENERATION_MAX: nat := 9223372036854775806

  predicate IsDigit(c: char) {
    '0' <= c <= '9'
  }

  function DigitValue(c: char): (d: nat)
    requires IsDigit(c)
  {
    c as int - '0' as int
  }

  function DigitChar(d: nat): (c: char)
    requires d < 10
  {
    ('0' as int + d) as char
  }

  predicate AllDigits(s: string) {
    forall i :: 0 <= i < |s| ==> IsDigit(s[i])
  }

  function Render(n: nat): (s: string) {
    if n < 10 then [DigitChar(n)] else Render(n / 10) + [DigitChar(n % 10)]
  }

  function Value(s: string): (n: nat)
    requires AllDigits(s)
  {
    if s == [] then 0 else 10 * Value(s[..|s| - 1]) + DigitValue(s[|s| - 1])
  }

  /** The language of the pattern (0|[1-9][0-9]*). */
  predicate Canonical(s: string) {
    s != [] && AllDigits(s) && (s[0] == '0' ==> |s| == 1)
  }

  function Pow10(k: nat): (p: nat)
    ensures p > 0
  {
    if k == 0 then 1 else 10 * Pow10(k - 1)
  }

  lemma {:induction false} RenderIsCanonical(n: nat)
    ensures Canonical(Render(n)) && Value(Render(n)) == n
  {
    if n >= 10 {
      RenderIsCanonical(n / 10);
      var s := Render(n);
      assert s[..|s| - 1] == Render(n / 10);
    } else {
      assert Render(n)[..0] == [];
    }
  }

  lemma {:induction false} ParseThenRender(s: string)
    requires Canonical(s)
    ensures Render(Value(s)) == s
  {
    var init := s[..|s| - 1];
    if |s| > 1 {
      assert Canonical(init);
      ParseThenRender(init);
      ValueSpan(init);
      assert Value(s) / 10 == Value(init) && Value(s) % 10 == DigitValue(s[|s| - 1]);
      assert s == init + [s[|s| - 1]];
    } else {
      assert init == [];
      assert s == [s[0]];
    }
  }

  lemma RenderInjective(a: nat, b: nat)
    requires Render(a) == Render(b)
    ensures a == b
  {
    RenderIsCanonical(a);
    RenderIsCanonical(b);
  }

  /** A k-digit string is below 10^k, and at least 10^(k-1) when its first digit counts. */
  lemma {:induction false} ValueSpan(s: string)
    requires AllDigits(s)
    ensures Value(s) < Pow10(|s|)
    ensures s != [] && s[0] != '0' ==> Pow10(|s| - 1) <= Value(s)
  {
    if s != [] {
      ValueSpan(s[..|s| - 1]);
    }
  }

  lemma {:induction false} Pow10Monotone(a: nat, b: nat)
    requires a <= b
    ensures Pow10(a) <= Pow10(b)
    decreases b
  {
    if a < b {
      Pow10Monotone(a, b - 1);
    }
  }

  /** Canonical text of at most k characters is exactly the text of the numbers below 10^k. */
  lemma LengthBoundsValue(s: string, k: nat)
    requires Canonical(s) && k > 0
    ensures |s| <= k <==> Value(s) < Pow10(k)
  {
    ValueSpan(s);
    if |s| <= k {
      Pow10Monotone(|s|, k);
    } else {
      Pow10Monotone(k, |s| - 1);
    }
  }

  // -----------------------------------------------------------------------------------------
  // The three admission rules for a decimal string

  /** TypeScript's isBoundedDecimal. */
  predicate IsBoundedDecimal(value: string, minimum: nat, maximum: nat) {
    |value| <= 19 && Canonical(value) && minimum <= Value(value) <= maximum
  }

  /** It accepts exactly the renderings of the integers of the range, up to what nineteen
      characters can write: no other text, and no integer twice. */
  lemma BoundedDecimalExact(value: string, minimum: nat, maximum: nat)
    ensures IsBoundedDecimal(value, minimum, maximum)
       <==> exists n: nat :: minimum <= n <= maximum && n < Pow10(19) && value == Render(n)
  {
    if IsBoundedDecimal(value, minimum, maximum) {
      LengthBoundsValue(value, 19);
      ParseThenRender(value);
      assert value == Render(Value(value));
    }
    if n: nat :| minimum <= n <= maximum && n < Pow10(19) && value == Render(n) {
      RenderIsCanonical(n);
      LengthBoundsValue(value, 19);
    }
  }

  lemma Pow19()
    ensures Pow10(19) == 10_000_000_000_000_000_000
  {
    assert Pow10(5) == 100_000;
    assert Pow10(10) == 10_000_000_000;
    assert Pow10(15) == 1_000_000_000_000_000;
  }

  /** Nineteen characters lose nothing of a signed 64-bit range. */
  lemma NineteenCharactersSuffice(value: string, minimum: nat, maximum: nat)
    requires maximum <= INT64_MAX
    ensures IsBoundedDecimal(value, minimum, maximum)
       <==> exists n: nat :: minimum <= n <= maximum && value == Render(n)
  {
    Pow19();
    BoundedDecimalExact(value, minimum, maximum);
    if n: nat :| minimum <= n <= maximum && value == Render(n) {
      assert n < Pow10(19);
    }
  }

  /** SQL: the pattern [1-9][0-9]{0,18} (with 0 admitted as an alternative when `zero`),
      then a numeric range test. */
  predicate SqlDecimal(value: string, zero: bool, maximum: nat) {
    && ((zero && value == "0") || (1 <= |value| <= 19 && AllDigits(value) && value[0] != '0'))
    && AllDigits(value)
    && Value(value) <= maximum
  }

  lemma SqlDecimalAgrees(value: string, zero: bool, maximum: nat)
    ensures SqlDecimal(value, zero, maximum)
       <==> IsBoundedDecimal(value, if zero then 0 else 1, maximum)
  {
    if AllDigits(value) && value != [] {
      ValueSpan(value);
      assert value[0] == '0' && |value| == 1 ==> value == "0" && Value(value) == 0 by {
        assert value[..0] == [];
      }
    }
  }

  /** The contract's range pattern for the bound's own digits: any shorter number, or the same
      length and, at some position, the bound's prefix followed by a smaller digit and then
      anything, or the bound itself. */
  predicate RangePattern(value: string, zero: bool, bound: string) {
    || (zero && value == "0")
    || (&& value != [] && AllDigits(value) && value[0] != '0'
        && (|| |value| < |bound|
            || value == bound
            || (|value| == |bound| && exists i | 0 <= i < |value| :: FirstSmallerAt(value, bound, i))))
  }

  predicate FirstSmallerAt(value: string, bound: string, i: int) {
    0 <= i < |value| && i < |bound| && value[..i] == bound[..i] && value[i] < bound[i]
  }

  /** On digit strings of one length, the order of the values is the order of the first
      differing digit. */
  lemma {:induction false} LexicographicOrder(a: string, b: string)
    requires |a| == |b| && AllDigits(a) && AllDigits(b)
    ensures Value(a) < Value(b) <==> exists i | 0 <= i < |a| :: FirstSmallerAt(a, b, i)
    ensures Value(a) == Value(b) <==> a == b
  {
    if a != [] {
      var n := |a| - 1;
      var p, q := a[..n], b[..n];
      LexicographicOrder(p, q);
      assert a == p + [a[n]] && b == q + [b[n]];
      if i :| FirstSmallerAt(p, q, i) {
        assert a[..i] == p[..i] == q[..i] == b[..i];
        assert FirstSmallerAt(a, b, i);
      }
      if i :| FirstSmallerAt(a, b, i) {
        if i < n {
          assert p[..i] == a[..i] == b[..i] == q[..i];
          assert FirstSmallerAt(p, q, i);
        }
      }
      if p == q && a[n] < b[n] {
        assert FirstSmallerAt(a, b, n);
      }
    }
  }

  lemma PatternOnCanonical(value: string, bound: string)
    requires Canonical(value) && Canonical(bound) && value[0] != '0' && bound[0] != '0'
    ensures RangePattern(value, false, bound) <==> Value(value) <= Value(bound)
  {
    ValueSpan(value);
    ValueSpan(bound);
    if |value| < |bound| {
      Pow10Monotone(|value|, |bound| - 1);
    } else if |value| > |bound| {
      Pow10Monotone(|bound|, |value| - 1);
    } else {
      LexicographicOrder(value, bound);
    }
  }

  /** The pattern spells out the numeric comparison digit by digit. */
  lemma RangePatternAgrees(value: string, zero: bool, maximum: nat)
    requires 0 < maximum <= INT64_MAX
    ensures RangePattern(value, zero, Render(maximum))
       <==> IsBoundedDecimal(value, if zero then 0 else 1, maximum)
  {
    var bound := Render(maximum);
    RenderIsCanonical(maximum);
    Pow19();
    if value == "0" {
      assert value[..0] == [];
      assert Value(value) == 0 && Canonical(value);
    } else if Canonical(value) && value[0] != '0' {
      LengthBoundsValue(value, 19);
      ValueSpan(value);
      NonZeroIsPositive(value);
      LeadingZeroIsZero(bound);
      PatternOnCanonical(value, bound);
    }
  }

  lemma NonZeroIsPositive(value: string)
    requires Canonical(value) && value[0] != '0'
    ensures Value(value) >= 1
  {
    ValueSpan(value);
  }

  lemma LeadingZeroIsZero(s: string)
    requires Canonical(s)
    ensures s[0] == '0' ==> Value(s) == 0
  {
    if s[0] == '0' { assert s[..0] == []; }
  }
}
