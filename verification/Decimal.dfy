/** Natural numbers in decimal: printing, padding, trimming and reading back. */
module Decimal {
  import opened Prelude

  function Pow10(n: nat): nat
  {
    if n == 0 then 1 else 10 * Pow10(n - 1)
  }

  function DigitChar(d: nat): char
    requires d < 10
  {
    (d as char) + '0'
  }

  predicate IsDigit(c: char)
  {
    '0' <= c <= '9'
  }

  function DigitValue(c: char): (d: nat)
    requires IsDigit(c)
    ensures d < 10
  {
    (c - '0') as nat
  }

  /** A natural number as text. */
  function Digits(n: nat): (s: string)
    ensures s != "" && (forall i :: 0 <= i < |s| ==> IsDigit(s[i])) && s[|s| - 1] == DigitChar(n % 10)
    ensures s[0] == '0' ==> n == 0 && |s| == 1
  {
    if n < 10 then [DigitChar(n)] else Digits(n / 10) + [DigitChar(n % 10)]
  }

  function Zeros(n: nat): (s: string)
    ensures |s| == n && forall i :: 0 <= i < n ==> s[i] == '0'
  {
    seq(n, _ => '0')
  }

  /** Pad with zeros on the left up to the given width; longer text is left alone. */
  function ZeroPad(s: string, width: nat): string
  {
    if |s| >= width then s else Zeros(width - |s|) + s
  }

  /** Remove every trailing occurrence of a character. */
  function TrimEnd(s: string, c: char): string
  {
    if s != "" && s[|s| - 1] == c then TrimEnd(s[..|s| - 1], c) else s
  }

  // ---------------------------------------------------------------- reading

  /** The number the digits of a text spell, the decimal point being passed over. */
  ghost function Mantissa(s: string): nat
  {
    if s == "" then 0
    else
      var rest, c := Mantissa(s[..|s| - 1]), s[|s| - 1];
      if IsDigit(c) then 10 * rest + DigitValue(c) else rest
  }

  /** How many characters follow the last decimal point; none without a point. */
  ghost function Places(s: string): nat
  {
    if '.' !in s || s[|s| - 1] == '.' then 0 else Places(s[..|s| - 1]) + 1
  }

  lemma {:induction false} MantissaOfDigits(n: nat)
    ensures Mantissa(Digits(n)) == n
  {
    if n >= 10 {
      MantissaOfDigits(n / 10);
      assert Digits(n)[..|Digits(n)| - 1] == Digits(n / 10);
    } else {
      assert Digits(n)[..0] == "";
    }
  }

  lemma MantissaAppend(s: string, t: string, c: char)
    requires Mantissa(s) == Mantissa(t)
    ensures Mantissa(s + [c]) == Mantissa(t + [c])
  {
    assert (s + [c])[..|s|] == s && (t + [c])[..|t|] == t;
  }

  /** Leading zeros do not change the number. */
  lemma {:induction false} MantissaOfPadded(n: nat, s: string)
    ensures Mantissa(Zeros(n) + s) == Mantissa(s)
    decreases n + |s|
  {
    if s == "" {
      assert Zeros(n) + s == Zeros(n);
      if n > 0 {
        MantissaOfPadded(n - 1, "");
        assert Zeros(n)[..n - 1] == Zeros(n - 1) == Zeros(n - 1) + "";
      }
    } else {
      var init, c := s[..|s| - 1], s[|s| - 1];
      MantissaOfPadded(n, init);
      MantissaAppend(Zeros(n) + init, init, c);
      assert Zeros(n) + s == (Zeros(n) + init) + [c] && s == init + [c];
    }
  }

  /** Nor does the point. */
  lemma {:induction false} MantissaIgnoresPoint(whole: string, part: string)
    ensures Mantissa(whole + "." + part) == Mantissa(whole + part)
    decreases |part|
  {
    if part == "" {
      assert (whole + "." + part)[..|whole|] == whole == whole + part;
    } else {
      var init, c := part[..|part| - 1], part[|part| - 1];
      MantissaIgnoresPoint(whole, init);
      MantissaAppend(whole + "." + init, whole + init, c);
      assert whole + "." + part == (whole + "." + init) + [c] && whole + part == (whole + init) + [c];
    }
  }

  lemma {:induction false} PlacesAfterPoint(whole: string, part: string)
    requires '.' !in part
    ensures Places(whole + "." + part) == |part|
    decreases |part|
  {
    var s := whole + "." + part;
    assert s[|whole|] == '.';
    if part != "" {
      var init := part[..|part| - 1];
      assert s[..|s| - 1] == whole + "." + init;
      PlacesAfterPoint(whole, init);
      assert s[|s| - 1] == part[|part| - 1];
    }
  }

  lemma DigitsTimesTen(n: nat)
    requires n > 0
    ensures Digits(10 * n) == Digits(n) + "0"
  {
    assert (10 * n) / 10 == n;
  }

  lemma {:induction false} Pow10Positive(n: nat)
    ensures Pow10(n) > 0
  {
    if n > 0 { Pow10Positive(n - 1); }
  }

  lemma {:induction false} Pow10Monotone(m: nat, n: nat)
    requires m < n
    ensures Pow10(n) >= 10 * Pow10(m)
  {
    if m + 1 < n {
      Pow10Monotone(m, n - 1);
      Pow10Positive(m);
    }
  }

  lemma TenTimes(a: nat, b: nat)
    ensures a * (10 * b) == 10 * (a * b)
  {
  }

  lemma {:induction false} Pow10Plus(m: nat, n: nat)
    ensures Pow10(m + n) == Pow10(m) * Pow10(n)
    decreases n
  {
    if n > 0 {
      Pow10Plus(m, n - 1);
      TenTimes(Pow10(m), Pow10(n - 1));
    }
  }

  // ---------------------------------------------------------------- the whole part

  /** The whole part of amount / 10^decimals. */
  function Whole(amount: nat, decimals: nat): nat
    decreases decimals
  {
    if decimals == 0 then amount else Whole(amount / 10, decimals - 1)
  }

  lemma TenfoldBounds(whole: nat, p: nat, tenth: nat, amount: nat)
    requires whole * p <= tenth < (whole + 1) * p && 10 * tenth <= amount < 10 * tenth + 10
    ensures whole * (10 * p) <= amount < (whole + 1) * (10 * p)
  {
    TenTimes(whole, p);
    TenTimes(whole + 1, p);
  }

  /** It is the quotient: the largest number whose multiple of the power of ten does not exceed the amount. */
  lemma {:induction false} WholeIsQuotient(amount: nat, decimals: nat)
    ensures Whole(amount, decimals) * Pow10(decimals) <= amount < (Whole(amount, decimals) + 1) * Pow10(decimals)
    decreases decimals
  {
    if decimals > 0 {
      WholeIsQuotient(amount / 10, decimals - 1);
      TenfoldBounds(Whole(amount, decimals), Pow10(decimals - 1), amount / 10, amount);
    }
  }

  /** Both scaled by the same power of ten: the same whole part. */
  lemma {:induction false} WholeScaled(m: nat, places: nat, k: nat)
    ensures Whole(m * Pow10(k), places + k) == Whole(m, places)
    decreases k
  {
    if k > 0 {
      TenTimes(m, Pow10(k - 1));
      assert (m * Pow10(k)) / 10 == m * Pow10(k - 1);
      WholeScaled(m, places, k - 1);
    }
  }

  lemma {:induction false} DropLastDigit(n: nat, width: nat)
    requires width > 0
    ensures var s := ZeroPad(Digits(n), width + 1); |s| > 0 && s[..|s| - 1] == ZeroPad(Digits(n / 10), width)
  {
    if n < 10 {
      assert Digits(n / 10) == "0";
      assert Zeros(width) == Zeros(width - 1) + "0";
      assert Zeros(0) + "0" == "0";
    } else {
      assert Digits(n)[..|Digits(n)| - 1] == Digits(n / 10);
    }
  }

  /** The text without its last n characters. */
  ghost predicate Front(s: string, n: nat, front: string)
  {
    n < |s| && s[..|s| - n] == front
  }

  lemma FrontOfFront(s: string, t: string, n: nat, front: string)
    requires |s| > 0 && t == s[..|s| - 1] && Front(t, n, front)
    ensures Front(s, n + 1, front)
  {
  }

  lemma NothingPadded(n: nat)
    ensures Front(ZeroPad(Digits(n), 1), 0, Digits(n))
  {
    assert Digits(n)[..|Digits(n)|] == Digits(n);
  }

  /** The digits before the last `decimals` ones are those of the whole part, without superfluous zeros. */
  lemma {:induction false} WholeOfPadded(n: nat, decimals: nat)
    ensures Front(ZeroPad(Digits(n), decimals + 1), decimals, Digits(Whole(n, decimals)))
    decreases decimals
  {
    if decimals == 0 {
      NothingPadded(n);
    } else {
      WholeOfPadded(n / 10, decimals - 1);
      DropLastDigit(n, decimals);
      FrontOfFront(ZeroPad(Digits(n), decimals + 1), ZeroPad(Digits(n / 10), decimals), decimals - 1,
                   Digits(Whole(n, decimals)));
    }
  }

  // ---------------------------------------------------------------- u64

  /** Digits only, read from the left; fails as soon as the value leaves 64 bits. */
  function ParseDigits(s: string): Option<nat>
  {
    if s == "" then Some(0)
    else
      var rest, c := ParseDigits(s[..|s| - 1]), s[|s| - 1];
      if rest.None? || !IsDigit(c) || 10 * rest.value + DigitValue(c) > U64_MAX then None
      else Some(10 * rest.value + DigitValue(c))
  }

  /** `u64::from_str`: an optional plus sign and at least one digit. */
  function ParseU64(s: string): Option<nat>
  {
    var digits := if s != "" && s[0] == '+' then s[1..] else s;
    if digits == "" then None else ParseDigits(digits)
  }

  /** Printing and reading back gives the same number, for exactly the 64-bit ones. */
  lemma ParsePrinted(n: nat)
    ensures ParseU64(Digits(n)) == if n <= U64_MAX then Some(n) else None
  {
    ParseDigitsPrinted(n);
  }

  ghost predicate AllDigits(s: string)
  {
    forall i :: 0 <= i < |s| ==> IsDigit(s[i])
  }

  /** Failing as soon as the value leaves 64 bits is failing when the whole value does. */
  lemma {:induction false} ParseDigitsMeans(s: string)
    ensures ParseDigits(s) == if AllDigits(s) && Mantissa(s) <= U64_MAX then Some(Mantissa(s)) else None
  {
    if s != "" {
      var init, c := s[..|s| - 1], s[|s| - 1];
      ParseDigitsMeans(init);
      assert AllDigits(s) <==> AllDigits(init) && IsDigit(c) by {
        assert forall i :: 0 <= i < |init| ==> init[i] == s[i];
      }
    }
  }

  /** Reading succeeds exactly for at least one digit, after at most one plus sign, of a 64-bit value, and gives it. */
  lemma ParseMeans(s: string)
    ensures var digits := if s != "" && s[0] == '+' then s[1..] else s;
            ParseU64(s) == if digits != "" && AllDigits(digits) && Mantissa(digits) <= U64_MAX
                           then Some(Mantissa(digits)) else None
  {
    ParseDigitsMeans(if s != "" && s[0] == '+' then s[1..] else s);
  }

  lemma {:induction false} ParseDigitsPrinted(n: nat)
    ensures ParseDigits(Digits(n)) == if n <= U64_MAX then Some(n) else None
  {
    var s := Digits(n);
    if n >= 10 {
      ParseDigitsPrinted(n / 10);
      assert s[..|s| - 1] == Digits(n / 10);
    } else {
      assert s[..0] == "";
    }
  }
}
