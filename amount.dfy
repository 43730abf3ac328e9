/**
 * Money amounts. The receipt carries its total and its item prices as text; the scorer
 * reads them with `strconv.ParseFloat(s, 64)`, discards the error, and applies
 * `math.Floor`, `math.Mod` and `math.Ceil` to the float. Here an amount is read into an
 * exact decimal instead, and the three money rules are stated on that exact value.
 */
module Amount {
  import opened Wrappers
  import opened Text
  import opened Digits

  /** The exact number `mantissa / 10^scale`. */
  datatype Decimal = Decimal(mantissa: int, scale: nat)

  /** The real number a decimal stands for. */
  function Value(d: Decimal): real {
    d.mantissa as real / Pow10(d.scale) as real
  }

  /**
   * An unsigned decimal float literal starting at index `i` and running to the end of `s`:
   * digits with at most one '.' and at least one digit on either side of it ("12", "12.",
   * ".5", "12.25"), then optionally 'e' or 'E' and an exponent.
   */
  function ParseUnsignedAt(s: string, i: nat): (r: Option<Decimal>)
    requires i <= |s|
    ensures r.Some? ==> r.value.mantissa >= 0
  {
    var a := DigitRun(s, i);
    var f := if a < |s| && s[a] == '.' then a + 1 else a;
    var b := DigitRun(s, f);
    if a == i && b == f then None
    else
      var d := Decimal(ValueIn(s, i, a) * Pow10(b - f) + ValueIn(s, f, b), b - f);
      if b == |s| then Some(d)
      else if s[b] == 'e' || s[b] == 'E' then
        match ParseExponentAt(s, b + 1)
        case None => None
        case Some(x) => Some(Shift(d, x))
      else None
  }

  /** The exponent of a decimal float literal, from index `j` to the end: an optional sign and at least one digit. */
  function ParseExponentAt(s: string, j: nat): Option<int>
    requires j <= |s|
  {
    var signed := j < |s| && (s[j] == '+' || s[j] == '-');
    var k := if signed then j + 1 else j;
    var e := DigitRun(s, k);
    if e == k || e < |s| then None
    else
      var v: int := ValueIn(s, k, e);
      Some(if signed && s[j] == '-' then -v else v)
  }

  /** `d` multiplied by `10^e`, kept exact. */
  function Shift(d: Decimal, e: int): (r: Decimal)
    ensures d.mantissa >= 0 ==> r.mantissa >= 0
  {
    if e >= d.scale then Decimal(d.mantissa * Pow10(e - d.scale), 0)
    else Decimal(d.mantissa, d.scale - e)
  }

  /** `10^(a + b)` is `10^a * 10^b`. */
  lemma {:induction false} Pow10Add(a: nat, b: nat)
    ensures Pow10(a + b) == Pow10(a) * Pow10(b)
    decreases b
  {
    if b > 0 {
      Pow10Add(a, b - 1);
      assert Pow10(a + b) == 10 * Pow10(a + b - 1);
    }
  }

  /** `Pow10Add` with the sum named `c`, so that callers can split a power they already hold. */
  lemma {:induction false} Pow10Sum(a: nat, b: nat, c: nat)
    requires a + b == c
    ensures Pow10(c) == Pow10(a) * Pow10(b)
  {
    Pow10Add(a, b);
  }

  /**
   * An exponent `e` multiplies the number by `10^e`: cross-multiplied by the powers of ten
   * of both scales, the mantissas agree.
   */
  lemma {:induction false} ShiftValue(d: Decimal, e: int)
    ensures e >= 0 ==>
      Shift(d, e).mantissa * Pow10(d.scale) == d.mantissa * Pow10(e) * Pow10(Shift(d, e).scale)
    ensures e < 0 ==>
      Shift(d, e).mantissa * Pow10(d.scale) * Pow10(-e) == d.mantissa * Pow10(Shift(d, e).scale)
  {
    var m := d.mantissa;
    if e >= d.scale {
      Pow10Sum(d.scale, e - d.scale, e);
      Reassociate(m, Pow10(e - d.scale), Pow10(d.scale));
    } else if e >= 0 {
      Pow10Sum(d.scale - e, e, d.scale);
      Reassociate(m, Pow10(d.scale - e), Pow10(e));
    } else {
      Pow10Sum(d.scale, -e, d.scale - e);
    }
  }

  lemma {:induction false} Reassociate(m: int, x: int, y: int)
    ensures m * x * y == m * (y * x) && m * (x * y) == m * y * x
  {
  }

  /**
   * `strconv.ParseFloat(s, 64)` on a decimal literal with an optional sign, read as an
   * exact decimal; `None` where ParseFloat reports a syntax error.
   */
  function ParseDecimal(s: string): (r: Option<Decimal>)
    ensures r.Some? && r.value.mantissa < 0 ==> |s| > 0 && s[0] == '-'
  {
    var signed := |s| > 0 && (s[0] == '+' || s[0] == '-');
    match ParseUnsignedAt(s, if signed then 1 else 0)
    case None => None
    case Some(d) => Some(if signed && s[0] == '-' then Decimal(-d.mantissa, d.scale) else d)
  }

  /** The amount the scorer uses: the error is discarded, and ParseFloat yields 0 on a syntax error. */
  function AmountOf(s: string): (d: Decimal)
    ensures ParseDecimal(s).None? ==> d.mantissa == 0
    ensures d.mantissa < 0 ==> |s| > 0 && s[0] == '-'
  {
    ParseDecimal(s).GetOr(Decimal(0, 0))
  }

  /** `total == math.Floor(total)`: the amount has no fractional part; a round dollar amount is also a multiple of 0.25. */
  predicate IsRoundDollar(d: Decimal)
    ensures IsRoundDollar(d) ==> IsQuarterMultiple(d)
  {
    var p := Pow10(d.scale);
    MultipleTimes(d.mantissa, p, 4);
    d.mantissa % p == 0
  }

  /** `math.Mod(total*100, 25) == 0`: the amount times 100 is a multiple of 25, that is, the mantissa times 4 is a multiple of `10^scale`. */
  predicate IsQuarterMultiple(d: Decimal)
    ensures IsQuarterMultiple(d) <==> (4 * d.mantissa) % Pow10(d.scale) == 0
  {
    var p := Pow10(d.scale);
    ScaledModZero(25, 4 * d.mantissa, p);
    (100 * d.mantissa) % (25 * p) == 0
  }

  /** A remainder is determined by the quotient equation. */
  lemma {:induction false} ModUnique(a: int, b: int, q: int, r: int)
    requires b > 0 && 0 <= r < b && a == b * q + r
    ensures a % b == r
  {
    var q', r' := a / b, a % b;
    assert a == b * q' + r';
    assert b * (q - q') == r' - r;
    if q > q' {
      MulAtLeast(b, q - q');
    } else if q < q' {
      MulAtLeast(b, q' - q);
    }
  }

  lemma {:induction false} MulAtLeast(b: int, x: int)
    requires b > 0 && x >= 1
    ensures b * x >= b
  {
    assert b * x == b * (x - 1) + b;
  }

  /** Scaling both sides by `c` keeps divisibility. */
  lemma {:induction false} ScaledModZero(c: int, x: int, y: int)
    requires c > 0 && y > 0
    ensures (c * x) % (c * y) == 0 <==> x % y == 0
  {
    var q, r := x / y, x % y;
    assert c * x == (c * y) * q + c * r;
    assert 0 <= c * r < c * y;
    ModUnique(c * x, c * y, q, c * r);
  }

  /** A multiple of `p` times `k` is a multiple of `p`. */
  lemma {:induction false} MultipleTimes(m: int, p: int, k: int)
    requires p > 0
    ensures m % p == 0 ==> (k * m) % p == 0
  {
    if m % p == 0 {
      assert k * m == p * (k * (m / p)) + 0;
      ModUnique(k * m, p, k * (m / p), 0);
    }
  }

  /** `math.Ceil(price * 0.2)`: the least integer not below a fifth of the amount. */
  function CeilFifth(d: Decimal): (r: int)
    ensures 5 * Pow10(d.scale) * (r - 1) < d.mantissa <= 5 * Pow10(d.scale) * r
    ensures d.mantissa >= 0 ==> r >= 0
  {
    var q := 5 * Pow10(d.scale);
    CeilDivBounds(d.mantissa, q);
    -((-d.mantissa) / q)
  }

  lemma {:induction false} CeilDivBounds(m: int, q: int)
    requires q > 0
    ensures q * (-((-m) / q) - 1) < m <= q * -((-m) / q)
    ensures m >= 0 ==> -((-m) / q) >= 0
  {
    var t := (-m) / q;
    assert -m == q * t + (-m) % q;
  }

  /** A negative amount has a bonus of at most 0, and below 0 from -5 on down. */
  lemma {:induction false} CeilFifthNegative(d: Decimal)
    requires d.mantissa < 0
    ensures CeilFifth(d) <= 0
    ensures d.mantissa <= -5 * Pow10(d.scale) ==> CeilFifth(d) < 0
  {
    NegatedQuotient(d.mantissa, 5 * Pow10(d.scale));
  }

  lemma {:induction false} NegatedQuotient(m: int, q: int)
    requires q > 0 && m < 0
    ensures (-m) / q >= 0
    ensures m <= -q ==> (-m) / q >= 1
  {
    var t := (-m) / q;
    assert -m == q * t + (-m) % q;
  }

  /** Divisibility of the numerator is exactly integrality of the real quotient. */
  lemma {:induction false} DivisibleIffIntegral(m: int, p: int)
    requires p > 0
    ensures m % p == 0 <==> m as real / p as real == (m as real / p as real).Floor as real
  {
    var q, r := m / p, m % p;
    RealQuotient(m, p, q, r);
    assert (m as real / p as real).Floor == q;
  }

  /** The real quotient of `m == q * p + r` splits into the integer `q` and a fraction below 1. */
  lemma {:induction false} RealQuotient(m: int, p: int, q: int, r: int)
    requires p > 0 && 0 <= r < p && m == q * p + r
    ensures m as real / p as real == q as real + r as real / p as real
    ensures 0.0 <= r as real / p as real < 1.0
    ensures r == 0 <==> r as real / p as real == 0.0
  {
    assert m as real == q as real * p as real + r as real;
  }

  /** Rule 2 on the exact amount is Go's test `total == math.Floor(total)` on the real number. */
  lemma {:induction false} RoundDollarIsIntegral(d: Decimal)
    ensures IsRoundDollar(d) <==> Value(d) == Value(d).Floor as real
  {
    DivisibleIffIntegral(d.mantissa, Pow10(d.scale));
  }

  /** Rule 3 on the exact amount: the real number times 100 is an integral multiple of 25. */
  lemma {:induction false} QuarterMultipleIsIntegral(d: Decimal)
    ensures IsQuarterMultiple(d) <==> Value(d) * 4.0 == (Value(d) * 4.0).Floor as real
  {
    var m, p := d.mantissa, Pow10(d.scale);
    DivisibleIffIntegral(100 * m, 25 * p);
    QuarterQuotient(m, p);
  }

  /** Dividing `100 * m` by `25 * p` is four times dividing `m` by `p`. */
  lemma {:induction false} QuarterQuotient(m: int, p: int)
    requires p > 0
    ensures (100 * m) as real / (25 * p) as real == (m as real / p as real) * 4.0
  {
    assert (100 * m) as real == 4.0 * (25.0 * m as real);
    assert (25 * p) as real == 25.0 * p as real;
  }

  /** Rule 5's bonus is the ceiling of a fifth of the real number. */
  lemma {:induction false} CeilFifthIsCeiling(d: Decimal)
    ensures (CeilFifth(d) - 1) as real < Value(d) / 5.0 <= CeilFifth(d) as real
  {
    var p := Pow10(d.scale);
    FifthOfQuotient(d.mantissa, p);
    QuotientBounds(d.mantissa, 5 * p, CeilFifth(d));
  }

  lemma {:induction false} FifthOfQuotient(m: int, p: int)
    requires p > 0
    ensures (m as real / p as real) / 5.0 == m as real / (5 * p) as real
  {
  }

  /** Integer bounds `q * (r - 1) < m <= q * r` carry over to the real quotient `m / q`. */
  lemma {:induction false} QuotientBounds(m: int, q: int, r: int)
    requires q > 0 && q * (r - 1) < m <= q * r
    ensures (r - 1) as real < m as real / q as real <= r as real
  {
    assert (q * (r - 1)) as real == q as real * (r - 1) as real;
    assert (q * r) as real == q as real * r as real;
  }

  /** An amount with at most two fraction digits, counted in cents. */
  function Cents(d: Decimal): int
    requires d.scale <= 2
  {
    d.mantissa * Pow10(2 - d.scale)
  }

  /** The cents of an amount are its value times 100. */
  lemma {:induction false} CentsValue(d: Decimal)
    requires d.scale <= 2
    ensures Cents(d) as real == Value(d) * 100.0
  {
    var p, q := Pow10(d.scale), Pow10(2 - d.scale);
    assert p * q == 100 by {
      assert Pow10(1) == 10 && Pow10(2) == 100;
    }
    assert Cents(d) as real == d.mantissa as real * q as real;
  }

  /** For amounts in cents, rule 2 is `cents % 100 == 0`. */
  lemma {:induction false} RoundDollarCents(d: Decimal)
    requires d.scale <= 2
    ensures IsRoundDollar(d) <==> Cents(d) % 100 == 0
  {
    assert Pow10(1) == 10 && Pow10(2) == 100;
    if d.scale == 1 {
      ScaledModZero(10, d.mantissa, 10);
    }
  }

  /** For amounts in cents, rule 3 is `cents % 25 == 0`. */
  lemma {:induction false} QuarterMultipleCents(d: Decimal)
    requires d.scale <= 2
    ensures IsQuarterMultiple(d) <==> Cents(d) % 25 == 0
  {
    var m := d.mantissa;
    assert Pow10(1) == 10 && Pow10(2) == 100;
    if d.scale == 0 {
      assert 100 * m == 25 * (4 * m) + 0;
      ModUnique(100 * m, 25, 4 * m, 0);
    } else if d.scale == 1 {
      ScaledModZero(5, 2 * m, 5);
      ScaledModZero(2, 2 * m, 5);
    } else {
      ScaledModZero(4, m, 25);
    }
  }

  /** For a nonnegative amount in cents `c`, rule 5's bonus is `(c + 499) / 500`. */
  lemma {:induction false} CeilFifthCents(d: Decimal)
    requires d.scale <= 2 && Cents(d) >= 0
    ensures CeilFifth(d) == (Cents(d) + 499) / 500
  {
    assert Pow10(1) == 10 && Pow10(2) == 100;
  }

  /**
   * A nonnegative amount of `a / 10^scale`: its integer part in digits, then, when
   * `scale > 0`, '.' and exactly `scale` fraction digits.
   */
  function FormatUnsigned(a: nat, scale: nat): string {
    var p := Pow10(scale);
    DivModBounds(a, p);
    if scale == 0 then ToDigits(a) else ToDigits(a / p) + "." + Fixed(a % p, scale)
  }

  lemma {:induction false} DivModBounds(a: nat, p: nat)
    requires p > 0
    ensures a / p >= 0 && 0 <= a % p < p
  {
  }

  /** Rules 2 and 3 together, for an amount in cents `c`: 75 for round dollars, 25 for other quarters, else 0. */
  lemma {:induction false} MoneyBonusCents(d: Decimal)
    requires d.scale <= 2
    ensures var c := Cents(d);
      (if IsRoundDollar(d) then 50 else 0) + (if IsQuarterMultiple(d) then 25 else 0)
      == if c % 100 == 0 then 75 else if c % 25 == 0 then 25 else 0
  {
    RoundDollarCents(d);
    QuarterMultipleCents(d);
    var c := Cents(d);
    assert c % 100 == 0 ==> c % 25 == 0;
  }

  /** The amount as ParseFloat's decimal syntax writes it: a '-' for a negative amount, then the digits. */
  function FormatDecimal(d: Decimal): string {
    if d.mantissa < 0 then "-" + FormatUnsigned(-d.mantissa, d.scale)
    else FormatUnsigned(d.mantissa, d.scale)
  }

  /** Digits `w` written after `p` and running to the end are read as a whole number. */
  lemma {:induction false} ParseWholeAt(p: string, w: string)
    requires |w| > 0 && AllDigits(w)
    ensures ParseUnsignedAt(p + w, |p|) == Some(Decimal(DigitsValue(w), 0))
  {
    var s := p + w;
    ValueInConcat(p, w, "");
    assert s == p + w + "";
    DigitRunAt(s, |p|, |s|);
    assert Pow10(0) == 1;
  }

  /** Where the integer digits end at a '.' and the fraction digits run to the end, the literal is read without an exponent. */
  lemma {:induction false} ParseDottedRun(s: string, i: nat, a: nat, n: nat, m: nat, k: nat)
    requires i <= a < |s| && s[a] == '.' && DigitRun(s, i) == a && DigitRun(s, a + 1) == |s|
    requires a > i || |s| > a + 1
    requires ValueIn(s, i, a) == n && ValueIn(s, a + 1, |s|) == m && |s| - a - 1 == k
    ensures ParseUnsignedAt(s, i) == Some(Decimal(n * Pow10(k) + m, k))
  {
  }

  /** In "w.f" written after `p`, the digit runs end at the '.' and at the end, and read `w` and `f`. */
  lemma {:induction false} DottedRuns(p: string, w: string, f: string)
    requires AllDigits(w) && AllDigits(f)
    ensures |p| + |w| < |p + w + "." + f| && (p + w + "." + f)[|p| + |w|] == '.'
    ensures DigitRun(p + w + "." + f, |p|) == |p| + |w|
    ensures DigitRun(p + w + "." + f, |p| + |w| + 1) == |p + w + "." + f|
    ensures ValueIn(p + w + "." + f, |p|, |p| + |w|) == DigitsValue(w)
    ensures ValueIn(p + w + "." + f, |p| + |w| + 1, |p + w + "." + f|) == DigitsValue(f)
  {
    var s := p + w + "." + f;
    assert s[|p| + |w|] == '.';
    ValueInConcat(p, w, "." + f);
    ValueInConcat(p + w + ".", f, "");
    assert s == p + w + ("." + f) == (p + w + ".") + f + "";
    DigitRunAt(s, |p|, |p| + |w|);
    DigitRunAt(s, |p| + |w| + 1, |s|);
  }

  /** "w.f" written after `p` and running to the end is read with `|f|` fraction digits. */
  lemma {:induction false} ParseDottedAt(p: string, w: string, f: string)
    requires AllDigits(w) && AllDigits(f) && |w| + |f| > 0
    ensures ParseUnsignedAt(p + w + "." + f, |p|)
      == Some(Decimal(DigitsValue(w) * Pow10(|f|) + DigitsValue(f), |f|))
  {
    DottedRuns(p, w, f);
    ParseDottedRun(p + w + "." + f, |p|, |p| + |w|, DigitsValue(w), DigitsValue(f), |f|);
  }

  lemma {:induction false} SplitAtScale(a: nat, p: nat)
    requires p > 0
    ensures (a / p) * p + a % p == a
  {
  }

  /** A formatted nonnegative amount written after `p` is read back exactly, scale included. */
  lemma {:induction false} ParseFormatUnsignedAt(p: string, a: nat, scale: nat)
    ensures ParseUnsignedAt(p + FormatUnsigned(a, scale), |p|) == Some(Decimal(a, scale))
  {
    if scale == 0 {
      ToDigitsValue(a);
      ParseWholeAt(p, ToDigits(a));
    } else {
      ParseFormatFractionAt(p, a, scale);
    }
  }

  lemma {:induction false} ParseFormatFractionAt(p: string, a: nat, scale: nat)
    requires scale > 0
    ensures ParseUnsignedAt(p + FormatUnsigned(a, scale), |p|) == Some(Decimal(a, scale))
  {
    var q := Pow10(scale);
    DivModBounds(a, q);
    var w, f := ToDigits(a / q), Fixed(a % q, scale);
    ToDigitsValue(a / q);
    FixedValue(a % q, scale);
    assert p + FormatUnsigned(a, scale) == p + w + "." + f;
    ParseDottedAt(p, w, f);
    assert DigitsValue(w) * Pow10(|f|) + DigitsValue(f) == a by {
      SplitAtScale(a, q);
    }
  }

  /** A formatted nonnegative amount starts with a digit, so it carries no sign. */
  lemma {:induction false} FormatUnsignedLeadingDigit(a: nat, scale: nat)
    ensures |FormatUnsigned(a, scale)| > 0 && IsDigit(FormatUnsigned(a, scale)[0])
  {
    var q := Pow10(scale);
    DivModBounds(a, q);
    if scale > 0 {
      var w := ToDigits(a / q);
      assert FormatUnsigned(a, scale)[0] == w[0];
    }
    ToDigitsValue(if scale == 0 then a else a / q);
  }

  /** A literal made of a sign `p` and then an unsigned literal is read with that sign. */
  lemma {:induction false} ParseSignedAfter(p: string, t: string, x: Decimal)
    requires |p| == 1 && (p[0] == '-' || p[0] == '+') && ParseUnsignedAt(p + t, |p|) == Some(x)
    ensures ParseDecimal(p + t)
      == Some(if p[0] == '-' then Decimal(-x.mantissa, x.scale) else x)
  {
    assert (p + t)[0] == p[0];
  }

  /** A literal that starts with a digit is read as an unsigned literal. */
  lemma {:induction false} ParseNonnegative(t: string, x: Decimal)
    requires |t| > 0 && IsDigit(t[0]) && ParseUnsignedAt(t, 0) == Some(x)
    ensures ParseDecimal(t) == Some(x)
  {
  }

  /** Reading back a formatted amount gives the same decimal, scale included. */
  lemma {:induction false} ParseFormatDecimal(d: Decimal)
    ensures ParseDecimal(FormatDecimal(d)) == Some(d)
  {
    if d.mantissa < 0 {
      ParseFormatNegative(d);
    } else {
      ParseFormatNonnegative(d);
    }
  }

  lemma {:induction false} ParseFormatNegative(d: Decimal)
    requires d.mantissa < 0
    ensures ParseDecimal(FormatDecimal(d)) == Some(d)
  {
    ParseFormatSignedAt("-", -d.mantissa, d.scale);
  }

  lemma {:induction false} ParseFormatSignedAt(p: string, a: nat, scale: nat)
    requires |p| == 1 && p[0] == '-'
    ensures ParseDecimal(p + FormatUnsigned(a, scale)) == Some(Decimal(-(a as int), scale))
  {
    ParseFormatUnsignedAt(p, a, scale);
    ParseSignedAfter(p, FormatUnsigned(a, scale), Decimal(a, scale));
  }

  lemma {:induction false} ParseFormatNonnegative(d: Decimal)
    requires d.mantissa >= 0
    ensures ParseDecimal(FormatDecimal(d)) == Some(d)
  {
    var t := FormatUnsigned(d.mantissa, d.scale);
    ParseFormatUnsignedAt("", d.mantissa, d.scale);
    assert "" + t == t;
    FormatUnsignedLeadingDigit(d.mantissa, d.scale);
    ParseNonnegative(t, d);
  }

  /** A plain literal "w.f" is read digit for digit, with `|f|` fraction digits. */
  lemma {:induction false} ParseDecimalPlain(w: string, f: string)
    requires |w| > 0 && AllDigits(w) && AllDigits(f)
    ensures ParseDecimal(w + "." + f)
      == Some(Decimal(DigitsValue(w) * Pow10(|f|) + DigitsValue(f), |f|))
  {
    ParseDottedAt("", w, f);
    assert "" + w + "." + f == w + "." + f;
  }

  /** A text with no digit at all, the empty text included, is a syntax error. */
  lemma {:induction false} NoDigitsUnparseable(s: string)
    requires forall k :: 0 <= k < |s| ==> !IsDigit(s[k])
    ensures ParseDecimal(s) == None
  {
  }

  /** "1.5e2" is read as 150. */
  lemma {:induction false} ExponentExample()
    ensures ParseDecimal("1.5e2") == Some(Decimal(150, 0))
  {
    var s := "1.5e2";
    DigitRunAt(s, 0, 1);
    DigitRunAt(s, 2, 3);
    DigitRunAt(s, 4, 5);
    assert ParseExponentAt(s, 4) == Some(2);
    assert ParseUnsignedAt(s, 0) == Some(Shift(Decimal(15, 1), 2));
  }

  /** "15e-1" is read as 1.5. */
  lemma {:induction false} NegativeExponentExample()
    ensures ParseDecimal("15e-1") == Some(Decimal(15, 1))
  {
    var s := "15e-1";
    DigitRunAt(s, 0, 2);
    DigitRunAt(s, 4, 5);
    assert ParseExponentAt(s, 3) == Some(-1);
    assert ParseUnsignedAt(s, 0) == Some(Shift(Decimal(15, 0), -1));
  }

  /** An exponent marker with no digits after it is a syntax error. */
  lemma {:induction false} MissingExponentExample()
    ensures ParseDecimal("1e") == None
  {
    var s := "1e";
    DigitRunAt(s, 0, 1);
    assert ParseExponentAt(s, 2) == None;
  }
}
