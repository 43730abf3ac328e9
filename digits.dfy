/**
 * Decimal digit strings and the natural numbers they denote: reading them (as Go's
 * `strconv` and `time` packages read a run of ASCII digits) and writing them back.
 */
module Digits {
  import opened Text

  function Pow10(k: nat): (p: nat)
    ensures p >= 1
  {
    if k == 0 then 1 else 10 * Pow10(k - 1)
  }

  /** The value of a digit character; a character that is not a digit is never read as one and counts 0. */
  function DigitValue(c: char): (v: nat)
    ensures v < 10
  {
    if IsDigit(c) then c as int - '0' as int else 0
  }

  function DigitChar(v: nat): (c: char)
    requires v < 10
    ensures IsDigit(c) && DigitValue(c) == v
  {
    ('0' as int + v) as char
  }

  /** The number written by the digits of `s`, most significant first; the empty run is 0. */
  function DigitsValue(s: string): (n: nat)
  {
    if s == [] then 0 else 10 * DigitsValue(s[..|s| - 1]) + DigitValue(s[|s| - 1])
  }

  /** Every character of `s` from index `i` up to (not including) `j` is a digit. */
  predicate DigitsIn(s: string, i: nat, j: nat)
    requires i <= j <= |s|
  {
    forall k :: i <= k < j ==> IsDigit(s[k])
  }

  /** The number written by the digits `s[i..j]`, read in place. */
  function ValueIn(s: string, i: nat, j: nat): (n: nat)
    requires i <= j <= |s|
    decreases j - i
  {
    if i == j then 0 else 10 * ValueIn(s, i, j - 1) + DigitValue(s[j - 1])
  }

  /** `k` digits write a number below `10^k`. */
  lemma {:induction false} ValueInBound(s: string, i: nat, j: nat)
    requires i <= j <= |s|
    ensures ValueIn(s, i, j) < Pow10(j - i)
    decreases j - i
  {
    if i < j {
      ValueInBound(s, i, j - 1);
    }
  }

  /** The end of the run of digits that starts at index `i`. */
  function DigitRun(s: string, i: nat): (j: nat)
    requires i <= |s|
    ensures i <= j <= |s|
    ensures j < |s| ==> !IsDigit(s[j])
    decreases |s| - i
  {
    if i < |s| && IsDigit(s[i]) then DigitRun(s, i + 1) else i
  }

  /** A run of digits ends exactly at the first index that is not a digit. */
  lemma {:induction false} DigitRunAt(s: string, i: nat, j: nat)
    requires i <= j <= |s| && DigitsIn(s, i, j) && (j == |s| || !IsDigit(s[j]))
    ensures DigitRun(s, i) == j
    decreases j - i
  {
    if i < j {
      DigitRunAt(s, i + 1, j);
    }
  }

  /** Digits `w` written between `x` and `y` are read in place as the number `w` writes. */
  lemma {:induction false} ValueInConcat(x: string, w: string, y: string)
    requires AllDigits(w)
    ensures DigitsIn(x + w + y, |x|, |x| + |w|)
    ensures ValueIn(x + w + y, |x|, |x| + |w|) == DigitsValue(w)
    decreases |w|
  {
    var s := x + w + y;
    if w != [] {
      var init, c := w[..|w| - 1], w[|w| - 1];
      assert s == x + init + ([c] + y);
      ValueInConcat(x, init, [c] + y);
      assert s[|x| + |w| - 1] == c;
    }
  }

  /** Reading digits in place is reading the slice that holds them. */
  lemma {:induction false} ValueInSlice(s: string, i: nat, j: nat)
    requires i <= j <= |s|
    ensures DigitsIn(s, i, j) <==> AllDigits(s[i..j])
    ensures ValueIn(s, i, j) == DigitsValue(s[i..j])
    decreases j - i
  {
    var t := s[i..j];
    assert forall k :: 0 <= k < |t| ==> t[k] == s[i + k];
    if i < j {
      ValueInSlice(s, i, j - 1);
      assert t[..|t| - 1] == s[i..j - 1];
    }
  }

  /** The shortest decimal numeral of `n` ("0" for zero). */
  function ToDigits(n: nat): (s: string)
    ensures |s| >= 1
  {
    if n < 10 then [DigitChar(n)] else ToDigits(n / 10) + [DigitChar(n % 10)]
  }

  /** `ToDigits` writes digits only, and they read back as `n`. */
  lemma {:induction false} ToDigitsValue(n: nat)
    ensures AllDigits(ToDigits(n)) && DigitsValue(ToDigits(n)) == n
  {
    var s := ToDigits(n);
    if n >= 10 {
      ToDigitsValue(n / 10);
      assert s[..|s| - 1] == ToDigits(n / 10);
    }
  }

  /** A numeral of `|s|` digits writes a number below `10^|s|`. */
  lemma {:induction false} DigitsValueBound(s: string)
    ensures DigitsValue(s) < Pow10(|s|)
    decreases |s|
  {
    if s != [] {
      DigitsValueBound(s[..|s| - 1]);
    }
  }

  /** `n` written with exactly `width` digits, padded on the left with '0'. */
  function Fixed(n: nat, width: nat): (s: string)
    requires n < Pow10(width)
    ensures |s| == width
  {
    if width == 0 then [] else Fixed(n / 10, width - 1) + [DigitChar(n % 10)]
  }

  /** `Fixed` writes digits only, and they read back as `n`. */
  lemma {:induction false} FixedValue(n: nat, width: nat)
    requires n < Pow10(width)
    ensures AllDigits(Fixed(n, width)) && DigitsValue(Fixed(n, width)) == n
  {
    var s := Fixed(n, width);
    if width > 0 {
      FixedValue(n / 10, width - 1);
      assert s[..|s| - 1] == Fixed(n / 10, width - 1);
    }
  }

  /** A run of digits is the fixed-width numeral of its own value: reading loses nothing. */
  lemma {:induction false} FixedOfDigitsValue(s: string)
    requires AllDigits(s)
    ensures DigitsValue(s) < Pow10(|s|) && Fixed(DigitsValue(s), |s|) == s
    decreases |s|
  {
    DigitsValueBound(s);
    if s != [] {
      var p, c := s[..|s| - 1], s[|s| - 1];
      FixedOfDigitsValue(p);
      assert DigitsValue(s) / 10 == DigitsValue(p) && DigitsValue(s) % 10 == DigitValue(c);
      assert DigitChar(DigitValue(c)) == c;
      assert s == p + [c];
    }
  }
}
