/** Token amounts as decimal text: fixed number of decimals, and trimmed. */
module TokenAmount {
  import opened Prelude
  import opened Decimal

  /** `real_number_string`: the amount with exactly `decimals` digits after the point. */
  function RealNumberString(amount: nat, decimals: nat): string
  {
    if decimals > 0 then InsertPoint(ZeroPad(Digits(amount), decimals + 1), decimals) else Digits(amount)
  }

  /** The text with a point before its last `decimals` digits. */
  function InsertPoint(s: string, decimals: nat): string
    requires decimals <= |s|
  {
    s[..|s| - decimals] + "." + s[|s| - decimals..]
  }

  function TrimBoth(s: string): string
  {
    TrimEnd(TrimEnd(s, '0'), '.')
  }

  /** `real_number_string_trimmed`: without trailing zeros in the fraction, or a bare point. */
  function RealNumberStringTrimmed(amount: nat, decimals: nat): string
  {
    var s := RealNumberString(amount, decimals);
    if decimals > 0 then TrimBoth(s) else s
  }

  // ---------------------------------------------------------------- the untrimmed form

  /** Digits and at most one point. */
  ghost predicate Numeral(s: string)
  {
    && (forall i :: 0 <= i < |s| ==> IsDigit(s[i]) || s[i] == '.')
    && (forall i, j :: 0 <= i < j < |s| ==> s[i] != '.' || s[j] != '.')
  }

  /** The text before the point, if any, is the number n as it is printed. */
  ghost predicate WholeIs(s: string, places: nat, n: nat)
  {
    var cut := if places > 0 then places + 1 else 0;
    cut <= |s| && s[..|s| - cut] == Digits(n)
  }

  lemma PaddedDigits(amount: nat, width: nat)
    ensures var s := ZeroPad(Digits(amount), width);
            && |s| >= width && Mantissa(s) == amount
            && s[|s| - 1] == DigitChar(amount % 10)
            && (forall i :: 0 <= i < |s| ==> IsDigit(s[i]))
  {
    MantissaOfDigits(amount);
    if |Digits(amount)| < width { MantissaOfPadded(width - |Digits(amount)|, Digits(amount)); }
  }

  lemma PointInserted(s: string, decimals: nat)
    requires 0 < decimals < |s| && forall i :: 0 <= i < |s| ==> IsDigit(s[i])
    ensures var t := InsertPoint(s, decimals);
            && Numeral(t) && Mantissa(t) == Mantissa(s) && Places(t) == decimals && '.' in t
            && t[0] == s[0] && t[|t| - 1] == s[|s| - 1]
  {
    var whole, part := s[..|s| - decimals], s[|s| - decimals..];
    assert s == whole + part;
    MantissaIgnoresPoint(whole, part);
    PlacesAfterPoint(whole, part);
    assert (whole + "." + part)[|whole|] == '.';
  }

  /**
   * The text is a numeral that spells the number with that many digits after the point, has a point only
   * if there are any, and no superfluous zeros in front.
   */
  ghost predicate Denotes(s: string, amount: nat, decimals: nat)
  {
    && Numeral(s) && Mantissa(s) == amount && Places(s) == decimals
    && ('.' in s <==> decimals > 0)
    && s != "" && IsDigit(s[0]) && s[|s| - 1] == DigitChar(amount % 10)
    && WholeIs(s, decimals, Whole(amount, decimals))
  }

  lemma WholeDenotes(amount: nat)
    ensures Denotes(Digits(amount), amount, 0)
  {
    MantissaOfDigits(amount);
    var s := Digits(amount);
    assert forall i :: 0 <= i < |s| ==> s[i] != '.';
    assert s[..|s|] == s && Whole(amount, 0) == amount;
  }

  lemma WholeBeforePoint(s: string, decimals: nat, n: nat)
    requires 0 < decimals && Front(s, decimals, Digits(n))
    ensures WholeIs(InsertPoint(s, decimals), decimals, n)
  {
    var t := InsertPoint(s, decimals);
    assert t[..|t| - decimals - 1] == s[..|s| - decimals];
  }

  lemma PointedDenotes(amount: nat, decimals: nat)
    requires decimals > 0
    ensures Denotes(InsertPoint(ZeroPad(Digits(amount), decimals + 1), decimals), amount, decimals)
  {
    PaddedDigits(amount, decimals + 1);
    PointInserted(ZeroPad(Digits(amount), decimals + 1), decimals);
    WholeOfPadded(amount, decimals);
    WholeBeforePoint(ZeroPad(Digits(amount), decimals + 1), decimals, Whole(amount, decimals));
  }

  /** The text denotes the amount scaled down by ten to the decimals, in that many places. */
  lemma RealNumberStringDenotes(amount: nat, decimals: nat)
    ensures Denotes(RealNumberString(amount, decimals), amount, decimals)
  {
    if decimals > 0 {
      PointedDenotes(amount, decimals);
      assert Denotes(RealNumberString(amount, decimals), amount, decimals);
    } else {
      WholeDenotes(amount);
    }
  }

  lemma PadTimesTen(amount: nat, width: nat)
    requires width > 0
    ensures ZeroPad(Digits(10 * amount), width + 1) == ZeroPad(Digits(amount), width) + "0"
  {
    if amount > 0 {
      DigitsTimesTen(amount);
      PadAppend(Digits(amount), width);
    } else {
      assert Digits(0) == "0";
      assert Zeros(width) + "0" == Zeros(width - 1) + "0" + "0";
      assert Zeros(0) + "0" == "0";
    }
  }

  lemma PadAppend(s: string, width: nat)
    ensures ZeroPad(s + "0", width + 1) == ZeroPad(s, width) + "0"
  {
  }

  lemma SplitAppend(s: string, decimals: nat)
    requires |s| > decimals
    ensures InsertPoint(s + "0", decimals + 1) == InsertPoint(s, decimals) + "0"
  {
    var t := s + "0";
    assert t[..|t| - (decimals + 1)] == s[..|s| - decimals];
    assert t[|t| - (decimals + 1)..] == s[|s| - decimals..] + "0";
  }

  /** Ten times the amount in one more place is the same text and one more zero. */
  lemma RealNumberStringTimesTen(amount: nat, decimals: nat)
    ensures RealNumberString(10 * amount, decimals + 1)
         == RealNumberString(amount, decimals) + (if decimals > 0 then "0" else ".0")
  {
    var s := ZeroPad(Digits(amount), decimals + 1);
    PadTimesTen(amount, decimals + 1);
    SplitAppend(s, decimals);
    if decimals == 0 {
      assert s[..|s|] == s && s[|s|..] == "";
    }
  }

  // ---------------------------------------------------------------- the trimmed form

  /** The lowest terms of amount / 10^decimals: no common factor ten left. */
  function Reduce(amount: nat, decimals: nat): (nat, nat)
    decreases decimals
  {
    if decimals > 0 && amount % 10 == 0 then Reduce(amount / 10, decimals - 1) else (amount, decimals)
  }

  lemma TrimZero(s: string)
    ensures TrimBoth(s + "0") == TrimBoth(s)
  {
    assert (s + "0")[..|s|] == s;
  }

  lemma TrimNothing(s: string)
    requires s != "" && IsDigit(s[|s| - 1]) && s[|s| - 1] != '0'
    ensures TrimBoth(s) == s
  {
  }

  lemma TrimPointZero(s: string)
    requires s != "" && IsDigit(s[|s| - 1])
    ensures TrimBoth(s + ".0") == s
  {
    var t := s + ".";
    assert s + ".0" == t + "0" && (t + "0")[..|t|] == t;
    assert TrimEnd(t + "0", '0') == TrimEnd(t, '0') == t;
    assert t[..|t| - 1] == s;
    assert TrimEnd(t, '.') == TrimEnd(s, '.') == s;
  }

  /** Nothing to trim when the last digit is not zero. */
  lemma TrimmedAtOnce(amount: nat, decimals: nat)
    requires decimals == 0 || amount % 10 != 0
    ensures RealNumberStringTrimmed(amount, decimals) == RealNumberString(amount, decimals)
  {
    if decimals > 0 {
      RealNumberStringDenotes(amount, decimals);
      TrimNothing(RealNumberString(amount, decimals));
    }
  }

  /** A last zero goes, and with it the point if it was the only place. */
  lemma TrimmedStep(tenth: nat, decimals: nat)
    ensures RealNumberStringTrimmed(10 * tenth, decimals + 1) == RealNumberStringTrimmed(tenth, decimals)
  {
    var s := RealNumberString(tenth, decimals);
    RealNumberStringTimesTen(tenth, decimals);
    RealNumberStringDenotes(tenth, decimals);
    TrimStepText(s, RealNumberString(10 * tenth, decimals + 1), decimals);
  }

  lemma TrimStepText(s: string, t: string, decimals: nat)
    requires s != "" && IsDigit(s[|s| - 1]) && t == s + (if decimals > 0 then "0" else ".0")
    ensures TrimBoth(t) == if decimals > 0 then TrimBoth(s) else s
  {
    if decimals > 0 { TrimZero(s); } else { TrimPointZero(s); }
  }

  /** The trimmed text is the untrimmed text of the reduced number. */
  ghost predicate PrintsReduced(amount: nat, decimals: nat)
  {
    RealNumberStringTrimmed(amount, decimals)
    == RealNumberString(Reduce(amount, decimals).0, Reduce(amount, decimals).1)
  }

  lemma PrintsReducedAtOnce(amount: nat, decimals: nat)
    requires decimals == 0 || amount % 10 != 0
    ensures PrintsReduced(amount, decimals)
  {
    TrimmedAtOnce(amount, decimals);
  }

  lemma PrintsReducedStep(amount: nat, decimals: nat)
    requires decimals > 0 && amount % 10 == 0 && PrintsReduced(amount / 10, decimals - 1)
    ensures PrintsReduced(amount, decimals)
  {
    TrimmedStep(amount / 10, decimals - 1);
    assert Reduce(amount, decimals) == Reduce(amount / 10, decimals - 1);
  }

  /** To prove something of every amount, prove it of reduced ones and for one trailing zero more. */
  lemma {:induction false} ReduceInduction(p: (nat, nat) -> bool, amount: nat, decimals: nat)
    requires forall a: nat, d: nat :: (d == 0 || a % 10 != 0) ==> p(a, d)
    requires forall a: nat, d: nat :: d > 0 && a % 10 == 0 && p(a / 10, d - 1) ==> p(a, d)
    ensures p(amount, decimals)
    decreases decimals
  {
    if decimals > 0 && amount % 10 == 0 { ReduceInduction(p, amount / 10, decimals - 1); }
  }

  /** Trimming the text is reducing the number. */
  lemma TrimmedIsReduced(amount: nat, decimals: nat)
    ensures PrintsReduced(amount, decimals)
  {
    forall a: nat, d: nat | d == 0 || a % 10 != 0 ensures PrintsReduced(a, d) { PrintsReducedAtOnce(a, d); }
    forall a: nat, d: nat | d > 0 && a % 10 == 0 && PrintsReduced(a / 10, d - 1)
      ensures PrintsReduced(a, d)
    {
      PrintsReducedStep(a, d);
    }
    ReduceInduction(PrintsReduced, amount, decimals);
  }

  /** What trimming takes away: zeros at the end of the fraction, or a fraction of zeros with its point. */
  function Trimmings(places: nat, decimals: nat): string
    requires places <= decimals
  {
    (if places == 0 && decimals > 0 then "." else "") + Zeros(decimals - places)
  }

  lemma TrimmingsStep(places: nat, decimals: nat)
    requires places <= decimals
    ensures Trimmings(places, decimals + 1) == Trimmings(places, decimals) + (if decimals > 0 then "0" else ".0")
  {
    assert Zeros(decimals - places) + "0" == Zeros(decimals + 1 - places);
    if decimals == 0 { assert Zeros(1) == "0"; }
  }

  lemma PrefixStep(longer: string, s: string, t: string, places: nat, decimals: nat)
    requires places <= decimals && s == t + Trimmings(places, decimals)
    requires longer == s + (if decimals > 0 then "0" else ".0")
    ensures longer == t + Trimmings(places, decimals + 1)
  {
    TrimmingsStep(places, decimals);
  }

  /** Nothing else goes: in particular no digit of the whole part. */
  ghost predicate LosesOnlyTrimmings(amount: nat, decimals: nat)
  {
    var places := Reduce(amount, decimals).1;
    && places <= decimals
    && RealNumberString(amount, decimals) == RealNumberStringTrimmed(amount, decimals) + Trimmings(places, decimals)
  }

  lemma PrefixAtOnce(amount: nat, decimals: nat)
    requires decimals == 0 || amount % 10 != 0
    ensures LosesOnlyTrimmings(amount, decimals)
  {
    TrimmedAtOnce(amount, decimals);
    assert Trimmings(decimals, decimals) == "";
  }

  lemma PrefixOfTenfold(amount: nat, decimals: nat)
    requires decimals > 0 && amount % 10 == 0 && LosesOnlyTrimmings(amount / 10, decimals - 1)
    ensures LosesOnlyTrimmings(amount, decimals)
  {
    var tenth, places := amount / 10, Reduce(amount, decimals).1;
    TrimmedStep(tenth, decimals - 1);
    RealNumberStringTimesTen(tenth, decimals - 1);
    PrefixStep(RealNumberString(amount, decimals), RealNumberString(tenth, decimals - 1),
               RealNumberStringTrimmed(tenth, decimals - 1), places, decimals - 1);
  }

  lemma TrimmedIsPrefix(amount: nat, decimals: nat)
    ensures LosesOnlyTrimmings(amount, decimals)
  {
    forall a: nat, d: nat | d == 0 || a % 10 != 0 ensures LosesOnlyTrimmings(a, d) { PrefixAtOnce(a, d); }
    forall a: nat, d: nat | d > 0 && a % 10 == 0 && LosesOnlyTrimmings(a / 10, d - 1)
      ensures LosesOnlyTrimmings(a, d)
    {
      PrefixOfTenfold(a, d);
    }
    ReduceInduction(LosesOnlyTrimmings, amount, decimals);
  }

  /** m with k zeros appended is the amount. */
  ghost predicate Scales(m: nat, k: nat, amount: nat)
  {
    m * Pow10(k) == amount
  }

  lemma {:induction false} ReduceKeepsValue(amount: nat, decimals: nat)
    ensures Reduce(amount, decimals).1 <= decimals
    ensures Scales(Reduce(amount, decimals).0, decimals - Reduce(amount, decimals).1, amount)
    ensures Reduce(amount, decimals).1 == 0 || Reduce(amount, decimals).0 % 10 != 0
    decreases decimals
  {
    if decimals > 0 && amount % 10 == 0 {
      ReduceKeepsValue(amount / 10, decimals - 1);
      var m, places := Reduce(amount, decimals).0, Reduce(amount, decimals).1;
      assert m * Pow10(decimals - places) == 10 * (m * Pow10(decimals - 1 - places));
    }
  }

  /** A text of the same value, whose fraction, if any, ends neither in zero nor in a point. */
  ghost predicate TrimmedText(t: string, amount: nat, decimals: nat)
  {
    && Numeral(t) && t != "" && IsDigit(t[0]) && IsDigit(t[|t| - 1])
    && Places(t) <= decimals
    && Scales(Mantissa(t), decimals - Places(t), amount)
    && ('.' in t <==> Places(t) > 0)
    && ('.' in t ==> t[|t| - 1] != '0')
    && WholeIs(t, Places(t), Whole(amount, decimals))
  }

  lemma ReducedTextIsTrimmed(t: string, m: nat, places: nat, amount: nat, decimals: nat)
    requires Denotes(t, m, places) && places <= decimals
    requires Scales(m, decimals - places, amount) && (places == 0 || m % 10 != 0)
    ensures TrimmedText(t, amount, decimals)
  {
    WholeScaled(m, places, decimals - places);
  }

  lemma TrimmedDenotesReduced(amount: nat, decimals: nat)
    ensures Denotes(RealNumberStringTrimmed(amount, decimals), Reduce(amount, decimals).0, Reduce(amount, decimals).1)
  {
    TrimmedIsReduced(amount, decimals);
    RealNumberStringDenotes(Reduce(amount, decimals).0, Reduce(amount, decimals).1);
  }

  /** The trimmed text denotes the same value, and a fraction never ends in zero or in a point. */
  lemma TrimmedDenotes(amount: nat, decimals: nat)
    ensures TrimmedText(RealNumberStringTrimmed(amount, decimals), amount, decimals)
  {
    TrimmedDenotesReduced(amount, decimals);
    ReduceKeepsValue(amount, decimals);
    ReducedTextIsTrimmed(RealNumberStringTrimmed(amount, decimals),
                         Reduce(amount, decimals).0, Reduce(amount, decimals).1, amount, decimals);
  }

  // ---------------------------------------------------------------- one text per value

  /** amount / 10^decimals and other / 10^places are the same number. */
  predicate SameValue(amount: nat, decimals: nat, other: nat, places: nat)
  {
    amount * Pow10(places) == other * Pow10(decimals)
  }

  lemma ScaleBoth(a: nat, p: nat, b: nat, q: nat, scale: nat)
    requires scale > 0
    ensures a * scale * p == b * (q * scale) <==> a * p == b * q
  {
    assert a * scale * p == a * p * scale;
    assert b * (q * scale) == b * q * scale;
    Cancel(a * p, b * q, scale);
  }

  /** Scaling both up by the same power of ten changes nothing. */
  lemma SameValueScaled(amount: nat, decimals: nat, other: nat, places: nat, k: nat)
    ensures SameValue(amount * Pow10(k), decimals + k, other, places) <==> SameValue(amount, decimals, other, places)
  {
    Pow10Positive(k);
    Pow10Plus(decimals, k);
    ScaleBoth(amount, Pow10(places), other, Pow10(decimals), Pow10(k));
  }

  lemma Cancel(a: nat, b: nat, scale: nat)
    requires scale > 0
    ensures a * scale == b * scale <==> a == b
  {
    if a < b { assert (b - a) * scale > 0; }
    if b < a { assert (a - b) * scale > 0; }
  }

  lemma SameValueSymmetric(amount: nat, decimals: nat, other: nat, places: nat)
    ensures SameValue(amount, decimals, other, places) <==> SameValue(other, places, amount, decimals)
  {
  }

  /** A number is the same as its reduced form. */
  lemma ReducedSameValue(amount: nat, decimals: nat, other: nat, places: nat)
    ensures var (m, d) := Reduce(amount, decimals);
            SameValue(amount, decimals, other, places) <==> SameValue(m, d, other, places)
  {
    var (m, d) := Reduce(amount, decimals);
    ReduceKeepsValue(amount, decimals);
    SameValueScaled(m, d, other, places, decimals - d);
  }

  lemma MultipleOfTen(m: nat, j: nat)
    requires j > 0
    ensures m * Pow10(j) % 10 == 0
  {
    assert m * Pow10(j) == 10 * (m * Pow10(j - 1));
  }

  /** Reduced forms of one value are identical. */
  lemma ReducedUnique(m: nat, d: nat, n: nat, e: nat)
    requires (d == 0 || m % 10 != 0) && (e == 0 || n % 10 != 0) && d <= e
    ensures SameValue(m, d, n, e) <==> m == n && d == e
  {
    Pow10Plus(e - d, d);
    Pow10Positive(d);
    assert m * Pow10(e) == m * Pow10(e - d) * Pow10(d);
    Cancel(m * Pow10(e - d), n, Pow10(d));
    if d < e { MultipleOfTen(m, e - d); }
  }

  /** Two amounts print the same trimmed text exactly when they are the same number. */
  lemma TrimmedEqualIffSameValue(amount: nat, decimals: nat, other: nat, places: nat)
    ensures RealNumberStringTrimmed(amount, decimals) == RealNumberStringTrimmed(other, places)
       <==> SameValue(amount, decimals, other, places)
  {
    var ((m, d), (n, e)) := (Reduce(amount, decimals), Reduce(other, places));
    ReduceKeepsValue(amount, decimals);
    ReduceKeepsValue(other, places);
    assert SameValue(amount, decimals, other, places) <==> SameValue(m, d, n, e) by {
      ReducedSameValue(amount, decimals, other, places);
      SameValueSymmetric(m, d, other, places);
      ReducedSameValue(other, places, m, d);
      SameValueSymmetric(n, e, m, d);
    }
    assert SameValue(m, d, n, e) <==> m == n && d == e by {
      if d <= e {
        ReducedUnique(m, d, n, e);
      } else {
        SameValueSymmetric(m, d, n, e);
        ReducedUnique(n, e, m, d);
      }
    }
    TrimmedTextDeterminesReduced(amount, decimals, other, places);
  }

  lemma TrimmedTextDeterminesReduced(amount: nat, decimals: nat, other: nat, places: nat)
    ensures RealNumberStringTrimmed(amount, decimals) == RealNumberStringTrimmed(other, places)
       <==> Reduce(amount, decimals) == Reduce(other, places)
  {
    TrimmedIsReduced(amount, decimals);
    TrimmedIsReduced(other, places);
    ReducedTextDeterminesReduced(Reduce(amount, decimals).0, Reduce(amount, decimals).1,
                                 Reduce(other, places).0, Reduce(other, places).1);
  }

  lemma ReducedTextDeterminesReduced(m: nat, d: nat, n: nat, e: nat)
    ensures RealNumberString(m, d) == RealNumberString(n, e) <==> m == n && d == e
  {
    RealNumberStringDenotes(m, d);
    RealNumberStringDenotes(n, e);
  }

  // ---------------------------------------------------------------- the cached form

  /** `ui_amount` is absent when the power of ten does not fit 64 bits; its rounding is not modelled. */
  datatype UiTokenAmount = UiTokenAmount(
    uiAmount: Option<real>, decimals: nat, amount: string, uiAmountString: string) {

    /** `unwrap_or_default` on the parsed amount. */
    function ParsedAmount(): nat
    {
      match ParseU64(amount)
      case Some(n) => n
      case None => 0
    }

    function RealString(): string
    {
      RealNumberString(ParsedAmount(), decimals)
    }

    function RealStringTrimmed(): string
    {
      if uiAmountString != "" then uiAmountString else RealNumberStringTrimmed(ParsedAmount(), decimals)
    }
  }

  function CheckedPow10(n: nat): Option<nat>
  {
    if Pow10(n) <= U64_MAX then Some(Pow10(n)) else None
  }

  function Ratio(amount: nat, p: nat): (r: real)
    requires p > 0
    ensures r * (p as real) == amount as real
  {
    (amount as real) / (p as real)
  }

  /** The amount divided by ten to the decimals, exactly, if that power fits 64 bits. */
  function Quotient(amount: nat, decimals: nat): (r: Option<real>)
    ensures r.Some? ==> r.value * (Pow10(decimals) as real) == amount as real
  {
    Pow10Positive(decimals);
    match CheckedPow10(decimals)
    case Some(p) => Some(Ratio(amount, p))
    case None => None
  }

  function TokenAmountToUiAmount(amount: nat, decimals: nat): UiTokenAmount
  {
    UiTokenAmount(Quotient(amount, decimals), decimals, Digits(amount), RealNumberStringTrimmed(amount, decimals))
  }

  lemma PowersOfTenThatFit(n: nat)
    ensures Pow10(n) <= U64_MAX <==> n <= 19
  {
    assert Pow10(5) == 100_000 && Pow10(10) == 10_000_000_000;
    assert Pow10(15) == 1_000_000_000_000_000 && Pow10(19) == 10_000_000_000_000_000_000;
    assert Pow10(20) == 100_000_000_000_000_000_000;
    if n < 19 { Pow10Monotone(n, 19); }
    if n > 20 { Pow10Monotone(20, n); }
  }

  /**
   * A 64-bit amount survives being turned into text: the cached trimmed text is never empty and
   * equals its recomputation from the stored text, and both printed forms are those of the
   * original amount.
   */
  lemma UiAmountIsFaithful(amount: nat, decimals: nat)
    requires amount <= U64_MAX
    ensures var u := TokenAmountToUiAmount(amount, decimals);
            && u.ParsedAmount() == amount
            && u.uiAmountString != ""
            && u.RealStringTrimmed() == u.uiAmountString
            && u.(uiAmountString := "").RealStringTrimmed() == u.uiAmountString
            && u.RealString() == RealNumberString(amount, decimals)
  {
    ParsePrinted(amount);
    TrimmedDenotes(amount, decimals);
  }

  /**
   * Any reply, also one that was not made here: a cached text is shown as it is; otherwise the amount is
   * what its digits say if they say a 64-bit number, and zero if they do not.
   */
  lemma AnyReplyIsShown(u: UiTokenAmount)
    ensures u.uiAmountString != "" ==> u.RealStringTrimmed() == u.uiAmountString
    ensures AllDigits(u.amount) && u.amount != "" && Mantissa(u.amount) <= U64_MAX ==>
              u.ParsedAmount() == Mantissa(u.amount)
    ensures (!AllDigits(u.amount) && u.amount != "" && u.amount[0] != '+') || u.amount == "" ==> u.ParsedAmount() == 0
    ensures AllDigits(u.amount) && Mantissa(u.amount) > U64_MAX ==> u.ParsedAmount() == 0
    ensures Denotes(u.RealString(), u.ParsedAmount(), u.decimals)
    ensures u.uiAmountString == "" ==> TrimmedText(u.RealStringTrimmed(), u.ParsedAmount(), u.decimals)
  {
    ParseMeans(u.amount);
    RealNumberStringDenotes(u.ParsedAmount(), u.decimals);
    TrimmedDenotes(u.ParsedAmount(), u.decimals);
  }

  /** The number, if there is one, times the power of ten is the amount. */
  ghost predicate Scaled(q: Option<real>, amount: nat, decimals: nat)
  {
    q.Some? ==> q.value * (Pow10(decimals) as real) == amount as real
  }

  lemma QuotientIsScaled(amount: nat, decimals: nat)
    ensures Scaled(Quotient(amount, decimals), amount, decimals)
  {
  }

  /**
   * The other fields: the amount is printed in full, and the quotient is there exactly up to 19
   * decimals, and then its product with the power of ten is the amount.
   */
  lemma UiAmountIsQuotient(amount: nat, decimals: nat, u: UiTokenAmount)
    requires u == TokenAmountToUiAmount(amount, decimals)
    ensures u.decimals == decimals && Denotes(u.amount, amount, 0)
    ensures (u.uiAmount.Some? <==> decimals <= 19) && Scaled(u.uiAmount, amount, decimals)
  {
    WholeDenotes(amount);
    QuotientIsScaled(amount, decimals);
    QuotientPresentUpTo19(amount, decimals);
  }

  /** The quotient is present exactly up to 19 decimals. */
  lemma QuotientPresentUpTo19(amount: nat, decimals: nat)
    ensures Quotient(amount, decimals).Some? <==> decimals <= 19
  {
    PowersOfTenThatFit(decimals);
  }
}
