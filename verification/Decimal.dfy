/**
 Decimal text: what "%lu" and "%.<d>f" print, and the number grammar of section 6 of RFC 8259.
 */
module Decimal {
  import opened Options

  function DigitChar(n: nat): char
    requires n < 10
  {
    "0123456789"[n]
  }

  predicate IsDigit(c: char) {
    '0' <= c <= '9'
  }

  predicate AllDigits(s: string) {
    forall i :: 0 <= i < |s| ==> IsDigit(s[i])
  }

  /** The decimal digits of n, without leading zeros: "%lu". */
  function Digits(n: nat): (s: string)
    ensures s != "" && AllDigits(s)
    ensures n > 0 ==> s[0] != '0'
    ensures |s| > 1 ==> s[0] != '0'
  {
    if n < 10 then [DigitChar(n)] else Digits(n / 10) + [DigitChar(n % 10)]
  }

  /** The number a string of digits denotes. */
  function ToNat(s: string): nat
    requires AllDigits(s)
    decreases |s|
  {
    if s == "" then 0 else 10 * ToNat(s[..|s| - 1]) + (s[|s| - 1] as int - '0' as int)
  }

  lemma ToNatAppend(s: string, n: nat)
    requires AllDigits(s) && n < 10
    ensures AllDigits(s + [DigitChar(n)]) && ToNat(s + [DigitChar(n)]) == 10 * ToNat(s) + n
  {
    assert (s + [DigitChar(n)])[..|s|] == s;
  }

  lemma {:induction false} DigitsReadBack(n: nat)
    ensures ToNat(Digits(n)) == n
  {
    if n < 10 {
      assert Digits(n)[..0] == "";
    } else {
      DigitsReadBack(n / 10);
      ToNatAppend(Digits(n / 10), n % 10);
    }
  }

  function Pow10(k: nat): (p: nat)
    ensures p > 0
  {
    if k == 0 then 1 else 10 * Pow10(k - 1)
  }

  lemma {:induction false} DigitsLength(n: nat, k: nat)
    requires k > 0 && n < Pow10(k)
    ensures |Digits(n)| <= k
  {
    if n >= 10 {
      DigitsLength(n / 10, k - 1);
    }
  }

  lemma {:induction false} DigitsLengthAtLeast(n: nat, k: nat)
    requires n >= Pow10(k)
    ensures |Digits(n)| > k
  {
    if k > 0 {
      DigitsLengthAtLeast(n / 10, k - 1);
    }
  }

  lemma {:induction false} Pow10Sum(a: nat, b: nat)
    ensures Pow10(a + b) == Pow10(a) * Pow10(b)
  {
    if a > 0 {
      Pow10Sum(a - 1, b);
      Associate(10, Pow10(a - 1), Pow10(b));
    }
  }

  lemma Associate(a: int, b: int, c: int)
    ensures a * b * c == a * (b * c)
  {
  }

  /** The last k digits of n, zero-padded. */
  function Padded(n: nat, k: nat): (s: string)
    ensures |s| == k && AllDigits(s)
  {
    if k == 0 then "" else Padded(n / 10, k - 1) + [DigitChar(n % 10)]
  }

  /** x rounded to the nearest integer, ties to even. */
  function Rounded(x: real): nat
    requires x >= 0.0
  {
    var whole := x.Floor;
    var rest := x - whole as real;
    if rest > 0.5 || (rest == 0.5 && whole % 2 == 1) then whole + 1 else whole
  }

  function Magnitude(v: real): real {
    if v < 0.0 then -v else v
  }

  /** |v| in units of 10^-d. */
  function Units(v: real, d: nat): (x: real)
    ensures x >= 0.0
  {
    Magnitude(v) * Pow10(d) as real
  }

  function Scaled(v: real, d: nat): nat {
    Rounded(Units(v, d))
  }

  /** Integer division of naturals, and its remainder. */
  function Quotient(q: nat, p: nat): nat
    requires p > 0
  {
    q / p
  }

  function Remainder(q: nat, p: nat): (r: nat)
    requires p > 0
    ensures r < p
  {
    q % p
  }

  /** The sign and integer part "%.<d>f" prints for v. */
  function IntegerText(v: real, d: nat): string {
    (if v < 0.0 then "-" else "") + Digits(Quotient(Scaled(v, d), Pow10(d)))
  }

  function FractionText(v: real, d: nat): string {
    Padded(Remainder(Scaled(v, d), Pow10(d)), d)
  }

  /** "%.<d>f" */
  function FixedText(v: real, d: nat): string {
    IntegerText(v, d) + "." + FractionText(v, d)
  }

  /** snprintf into a char[32]: at most 31 characters survive. */
  function Clipped(s: string): string {
    if |s| > 31 then s[..31] else s
  }

  // ---- Section 6 of RFC 8259 ----

  function LeadingDigits(s: string): (n: nat)
    ensures n <= |s|
  {
    if s == "" || !IsDigit(s[0]) then 0 else 1 + LeadingDigits(s[1..])
  }

  /** [ exp ] at the end of a number: e, an optional sign, at least one digit. */
  predicate IsExponent(s: string) {
    s == "" ||
    ((s[0] == 'e' || s[0] == 'E') &&
     (var t := if |s| > 1 && (s[1] == '+' || s[1] == '-') then s[2..] else s[1..];
      t != "" && AllDigits(t)))
  }

  /** [ frac ] [ exp ] */
  predicate IsFraction(s: string) {
    if s != "" && s[0] == '.' then
      var n := LeadingDigits(s[1..]);
      n > 0 && IsExponent(s[1 + n..])
    else IsExponent(s)
  }

  /** [ minus ] int [ frac ] [ exp ] */
  predicate IsNumber(s: string) {
    var t := if s != "" && s[0] == '-' then s[1..] else s;
    var n := LeadingDigits(t);
    n > 0 && (t[0] == '0' ==> n == 1) && IsFraction(t[n..])
  }

  lemma LeadingDigitsOf(ds: string, rest: string)
    requires AllDigits(ds) && (rest != "" ==> !IsDigit(rest[0]))
    ensures LeadingDigits(ds + rest) == |ds|
  {
    hide LeadingDigits, IsDigit;
    LeadingDigitsAt(ds + rest, |ds|);
  }

  lemma {:induction false} LeadingDigitsAt(t: string, n: nat)
    requires n <= |t| && (forall i :: 0 <= i < n ==> IsDigit(t[i])) && (n < |t| ==> !IsDigit(t[n]))
    ensures LeadingDigits(t) == n
    decreases n
  {
    hide IsDigit;
    if n > 0 {
      LeadingDigitsAt(t[1..], n - 1);
    }
  }

  lemma DigitsAreNumber(n: nat)
    ensures IsNumber(Digits(n))
  {
    assert "" + Digits(n) == Digits(n);
    WholeIsNumber("", Digits(n));
  }

  /** A sign, an integer without superfluous zeros, a point and some digits form a number, and without digits do not. */
  lemma PointedIsNumber(sign: string, whole: string, fraction: string)
    requires sign == "" || sign == "-"
    requires whole != "" && AllDigits(whole) && (|whole| > 1 ==> whole[0] != '0') && AllDigits(fraction)
    ensures IsNumber(sign + whole + "." + fraction) <==> fraction != ""
  {
    var tail := "." + fraction;
    assert sign + whole + "." + fraction == sign + (whole + tail);
    Unsigned(sign, whole, tail);
    PointIsFraction(fraction);
  }

  lemma PointIsFraction(fraction: string)
    requires AllDigits(fraction)
    ensures IsFraction("." + fraction) <==> fraction != ""
  {
    assert ("." + fraction)[1..] == fraction;
    LeadingDigitsOf(fraction, "");
    assert fraction + "" == fraction;
    assert ("." + fraction)[1 + |fraction|..] == "";
  }

  /** The grammar looks past the sign and the integer part to what follows. */
  lemma Unsigned(sign: string, whole: string, tail: string)
    requires sign == "" || sign == "-"
    requires whole != "" && AllDigits(whole) && (|whole| > 1 ==> whole[0] != '0')
    requires tail != "" ==> !IsDigit(tail[0])
    ensures IsNumber(sign + (whole + tail)) <==> IsFraction(tail)
  {
    hide IsFraction, LeadingDigits;
    var s := sign + (whole + tail);
    var t := whole + tail;
    assert (if s[0] == '-' then s[1..] else s) == t by {
      assert t[0] == whole[0] && IsDigit(whole[0]);
      assert sign == "" ==> s == t;
      assert sign == "-" ==> s[1..] == t;
    }
    LeadingDigitsOf(whole, tail);
    assert t[|whole|..] == tail && t[0] == whole[0];
  }

  lemma WholeIsNumber(sign: string, whole: string)
    requires sign == "" || sign == "-"
    requires whole != "" && AllDigits(whole) && (|whole| > 1 ==> whole[0] != '0')
    ensures IsNumber(sign + whole)
  {
    assert sign + whole == sign + (whole + "");
    Unsigned(sign, whole, "");
  }

  /**
   The 31-character buffer can cut a printed float short. What is left is a JSON number except in exactly one case:
   sign and integer part take 30 characters, so that the text ends in the decimal point.
   */
  lemma ClippedIsNumber(v: real, d: nat)
    requires d > 0
    ensures IsNumber(Clipped(FixedText(v, d))) <==> |IntegerText(v, d)| != 30
  {
    var sign := if v < 0.0 then "-" else "";
    var whole := Digits(Quotient(Scaled(v, d), Pow10(d)));
    var fraction := FractionText(v, d);
    var text := FixedText(v, d);
    assert text == sign + whole + "." + fraction;
    hide Scaled, Digits, FractionText, FixedText, IsNumber;
    if |text| <= 31 {
      PointedIsNumber(sign, whole, fraction);
    } else if |sign| + |whole| >= 31 {
      var kept := whole[..31 - |sign|];
      assert Clipped(text) == sign + kept;
      assert kept[0] == whole[0];
      WholeIsNumber(sign, kept);
    } else {
      var kept := fraction[..30 - |sign| - |whole|];
      assert Clipped(text) == sign + whole + "." + kept;
      PointedIsNumber(sign, whole, kept);
    }
  }

  lemma NothingIsZero()
    ensures ToNat("") == 0
  {
  }

  lemma {:induction false} PaddedReadBack(n: nat, k: nat)
    requires n < Pow10(k)
    ensures ToNat(Padded(n, k)) == n
  {
    hide ToNat, IsDigit;
    if k == 0 {
      assert ToNat("") == 0 by { NothingIsZero(); }
    } else {
      PaddedReadBack(n / 10, k - 1);
      ToNatAppend(Padded(n / 10, k - 1), n % 10);
    }
  }

  lemma Horner(a: nat, p: nat, b: nat, d: nat)
    ensures 10 * (a * p + b) + d == a * (10 * p) + (10 * b + d)
  {
  }

  lemma {:induction false} ToNatConcat(a: string, b: string)
    requires AllDigits(a) && AllDigits(b)
    ensures AllDigits(a + b)
    ensures ToNat(a + b) == ToNat(a) * Pow10(|b|) + ToNat(b)
    decreases |b|
  {
    if b == "" {
      assert a + b == a;
    } else {
      var n := |b| - 1;
      ToNatConcat(a, b[..n]);
      assert (a + b)[..|a + b| - 1] == a + b[..n] && (a + b)[|a + b| - 1] == b[n];
      Horner(ToNat(a), Pow10(n), ToNat(b[..n]), b[n] as int - '0' as int);
    }
  }

  /**
   An unclipped printed float reads back, as its digits times 10^-d, to within half a unit of its last
   place of the value printed.
   */
  lemma FixedReadBack(v: real, d: nat)
    ensures var whole := Digits(Quotient(Scaled(v, d), Pow10(d)));
            var fraction := FractionText(v, d);
            && FixedText(v, d) == (if v < 0.0 then "-" else "") + whole + "." + fraction
            && AllDigits(whole + fraction)
            && -0.5 <= ToNat(whole + fraction) as real - Units(v, d) <= 0.5
  {
    hide Units, Pow10;
    var q, p := Scaled(v, d), Pow10(d);
    DigitsReadBack(Quotient(q, p));
    PaddedReadBack(Remainder(q, p), d);
    ToNatConcat(Digits(Quotient(q, p)), Padded(Remainder(q, p), d));
    QuotientRemainder(q, p);
  }

  lemma QuotientRemainder(q: nat, p: nat)
    requires p > 0
    ensures q == Quotient(q, p) * p + Remainder(q, p)
  {
  }

  /** A value between 0 and a whole max prints no longer than max does. */
  lemma FixedTextLength(v: real, max: nat, d: nat, k: nat)
    requires 0.0 <= v <= max as real && k > 0 && max < Pow10(k)
    ensures |IntegerText(v, d)| <= k && |FixedText(v, d)| <= k + 1 + d
  {
    hide Scaled, Quotient, Remainder;
    ScaledAtMost(v, max, d);
    QuotientAtMost(Scaled(v, d), max, Pow10(d));
    DigitsLength(Quotient(Scaled(v, d), Pow10(d)), k);
  }

  lemma ScaledAtMost(v: real, max: nat, d: nat)
    requires 0.0 <= v <= max as real
    ensures Scaled(v, d) <= max * Pow10(d)
  {
    hide Pow10;
    UnitsAtMost(v, max, Pow10(d));
    RoundedAtMost(Units(v, d), max * Pow10(d));
  }

  lemma UnitsAtMost(v: real, max: nat, p: nat)
    requires 0.0 <= v <= max as real
    ensures 0.0 <= v * p as real <= (max * p) as real
  {
    assert v * p as real <= max as real * p as real;
    assert max as real * p as real == (max * p) as real;
  }

  lemma RoundedAtMost(x: real, n: nat)
    requires 0.0 <= x <= n as real
    ensures Rounded(x) <= n
  {
  }

  lemma QuotientAtMost(q: nat, max: nat, p: nat)
    requires p > 0 && q <= max * p
    ensures Quotient(q, p) <= max
  {
    var k := Quotient(q, p);
    QuotientRemainder(q, p);
    if k >= max + 1 {
      ProductMonotone(max + 1, k, p);
      assert false;
    }
  }

  lemma ProductMonotone(a: nat, b: nat, p: nat)
    requires a <= b
    ensures a * p <= b * p
  {
  }

  // ---- What a clipped number denotes ----

  /** Plain decimal text, without an exponent, taken apart. */
  function Unsign(s: string): string {
    if s != "" && s[0] == '-' then s[1..] else s
  }

  function Whole(s: string): string {
    var t := Unsign(s);
    t[..LeadingDigits(t)]
  }

  function Decimals(s: string): string {
    var t := Unsign(s);
    var n := LeadingDigits(t);
    if n < |t| && t[n] == '.' then t[n + 1..] else ""
  }

  /** The magnitude that a number denotes, in units of 10^-d; None for a text that is no number in such units. */
  function ReadUnits(s: string, d: nat): Option<nat> {
    if IsNumber(s) && AllDigits(Whole(s)) && AllDigits(Decimals(s)) && |Decimals(s)| <= d
    then Some(ToNat(Whole(s) + Decimals(s)) * Pow10(d - |Decimals(s)|))
    else None
  }

  lemma PartsOf(sign: string, whole: string, tail: string)
    requires sign == "" || sign == "-"
    requires whole != "" && AllDigits(whole)
    requires tail == "" || tail[0] == '.'
    ensures Whole(sign + whole + tail) == whole
    ensures Decimals(sign + whole + tail) == if tail == "" then "" else tail[1..]
  {
    var s, t := sign + whole + tail, whole + tail;
    assert s == sign + t;
    assert Unsign(s) == t by {
      assert t[0] == whole[0] && IsDigit(whole[0]);
      assert sign == "-" ==> s[1..] == t;
      assert sign == "" ==> s == t;
    }
    LeadingDigitsOf(whole, tail);
    hide LeadingDigits, Unsign;
    assert t[..|whole|] == whole;
    assert tail != "" ==> t[|whole|] == '.' && t[|whole| + 1..] == tail[1..];
  }

  /** A plain number without superfluous zeros is read as its digits, scaled. */
  lemma ReadPlain(sign: string, whole: string, tail: string, d: nat)
    requires sign == "" || sign == "-"
    requires whole != "" && AllDigits(whole) && (|whole| > 1 ==> whole[0] != '0')
    requires tail == "" || (tail[0] == '.' && AllDigits(tail[1..]) && 1 < |tail| <= d + 1)
    ensures var fraction := if tail == "" then "" else tail[1..];
            ReadUnits(sign + whole + tail, d) == Some(ToNat(whole + fraction) * Pow10(d - |fraction|))
  {
    hide ToNat, Pow10, IsNumber, Whole, Decimals, IsDigit;
    PartsOf(sign, whole, tail);
    if tail == "" {
      WholeIsNumber(sign, whole);
      assert sign + whole + tail == sign + whole;
    } else {
      PointedIsNumber(sign, whole, tail[1..]);
      assert "." + tail[1..] == tail;
      assert sign + whole + "." + tail[1..] == sign + whole + tail;
    }
  }

  /** How many decimals the 31 characters have room for. */
  function Kept(v: real, d: nat): (k: nat)
    ensures k <= d
  {
    var room := 30 - |IntegerText(v, d)|;
    if room < 0 then 0 else if room < d then room else d
  }

  /** The decimals the 31 characters hold, and those they do not. */
  function KeptText(v: real, d: nat): string {
    FractionText(v, d)[..Kept(v, d)]
  }

  function LostText(v: real, d: nat): string {
    FractionText(v, d)[Kept(v, d)..]
  }

  predicate AllZeros(s: string) {
    forall i :: 0 <= i < |s| ==> s[i] == '0'
  }

  /**
   Nothing that counts is cut off: the integer part fits, the text does not end in the decimal point, and every
   decimal lost is a zero.
   */
  predicate NothingLost(v: real, d: nat) {
    |IntegerText(v, d)| <= 31 && |IntegerText(v, d)| != 30 && AllZeros(LostText(v, d))
  }

  lemma {:induction false} ZerosDenoteZero(s: string)
    requires AllDigits(s)
    ensures ToNat(s) == 0 <==> AllZeros(s)
    decreases |s|
  {
    if s != "" {
      ZerosDenoteZero(s[..|s| - 1]);
      assert IsDigit(s[|s| - 1]);
    }
  }

  /** Scaled is the nearest whole number of units; only an even one is chosen in a tie. */
  lemma RoundedNearest(x: real)
    requires x >= 0.0
    ensures -0.5 <= Rounded(x) as real - x <= 0.5
    ensures Rounded(x) as real - x == 0.5 ==> Rounded(x) % 2 == 0
  {
  }

  /** What is lost is a whole number of units; the rest is still within half a unit only if nothing is. */
  lemma LostUnits(v: real, d: nat, r: nat, lost: nat)
    requires Scaled(v, d) == r + lost && (lost == 1 ==> r % 2 == 0)
    ensures -0.5 <= r as real - Units(v, d) <= 0.5 <==> lost == 0
  {
    hide Units, Rounded;
    RoundedNearest(Units(v, d));
  }

  lemma EvenMultiple(a: nat, k: nat)
    requires k > 0
    ensures (a * Pow10(k)) % 2 == 0
  {
    assert a * Pow10(k) == 2 * (a * (5 * Pow10(k - 1))) by {
      Associate(2, a, 5 * Pow10(k - 1));
    }
  }

  /** The printed digits cut after the first k decimals denote what is left of the scaled value. */
  lemma CutDigits(v: real, d: nat, k: nat)
    requires k <= d
    ensures var whole, fraction := Digits(Quotient(Scaled(v, d), Pow10(d))), FractionText(v, d);
            && |fraction| == d && AllDigits(whole + fraction[..k]) && AllDigits(fraction[k..])
            && Scaled(v, d) == ToNat(whole + fraction[..k]) * Pow10(d - k) + ToNat(fraction[k..])
  {
    hide Scaled, Pow10, ToNat, IsDigit;
    var q, p := Scaled(v, d), Pow10(d);
    var whole, fraction := Digits(Quotient(q, p)), FractionText(v, d);
    DigitsReadBack(Quotient(q, p));
    PaddedReadBack(Remainder(q, p), d);
    ToNatConcat(whole, fraction);
    QuotientRemainder(q, p);
    assert whole + fraction == (whole + fraction[..k]) + fraction[k..];
    ToNatConcat(whole + fraction[..k], fraction[k..]);
  }

  /** A number loses most of its magnitude when digits of its integer part are cut. */
  lemma CutInteger(whole: string, n: nat)
    requires AllDigits(whole) && 0 < n < |whole| && whole[0] != '0'
    ensures AllDigits(whole[..n]) && ToNat(whole) >= ToNat(whole[..n]) + 9
  {
    var kept, rest := whole[..n], whole[n..];
    assert kept + rest == whole;
    ToNatConcat(kept, rest);
    ZerosDenoteZero(kept);
    assert kept[0] != '0';
    hide ToNat;
    assert ToNat(kept) >= 1;
    assert ToNat(kept) * Pow10(|rest|) >= ToNat(kept) * 10 by {
      ProductMonotone(10, Pow10(|rest|), ToNat(kept));
    }
  }

  /**
   What the 31-character buffer leaves of a printed float is a number within half a unit of the last place of the value
   printed if and only if nothing that counts was cut off.
   */
  lemma ClippedReadBack(v: real, d: nat)
    requires d > 0
    ensures var r := ReadUnits(Clipped(FixedText(v, d)), d);
            r.Some? && -0.5 <= r.value as real - Units(v, d) <= 0.5 <==> NothingLost(v, d)
  {
    hide Scaled, Digits, FractionText, FixedText, IsNumber, Units, Pow10, ToNat, ReadUnits, IsDigit, IntegerText;
    var size := |IntegerText(v, d)|;
    if size == 30 {
      ClippedIsNumber(v, d);
      NoNumberNoUnits(Clipped(FixedText(v, d)), d);
    } else if size <= 31 {
      CutDecimals(v, d);
    } else {
      LongIntegerText(v, d);
    }
  }

  /** What is left of the decimal point and the decimals when the integer part fits. */
  function Tail(v: real, d: nat): string {
    if |IntegerText(v, d)| == 31 then "" else "." + KeptText(v, d)
  }

  lemma TailShape(v: real, d: nat)
    requires d > 0 && |IntegerText(v, d)| <= 31 && |IntegerText(v, d)| != 30
    ensures var tail, kept := Tail(v, d), KeptText(v, d);
            && |kept| == Kept(v, d) && AllDigits(kept)
            && (tail == "" ==> kept == "")
            && (tail != "" ==> tail[0] == '.' && tail[1..] == kept && 1 < |tail| <= d + 1)
  {
    assert AllDigits(FractionText(v, d)) && |FractionText(v, d)| == d;
    hide IntegerText, FractionText;
  }

  lemma ClipAt(head: string, fraction: string, k: nat)
    requires |head| <= 31 && fraction != "" && k <= |fraction|
    requires |head| < 31 ==> k == |fraction| || |head| + 1 + k == 31
    requires |head| < 31 ==> |head| + 1 + k <= 31
    ensures Clipped(head + "." + fraction) == head + if |head| == 31 then "" else "." + fraction[..k]
  {
    var text := head + "." + fraction;
    if |head| == 31 {
      assert text[..31] == head;
    } else if k == |fraction| {
      assert fraction[..k] == fraction;
      assert head + ("." + fraction) == text;
    } else {
      assert text[..31] == head + ("." + fraction[..k]);
    }
  }

  lemma CutText(v: real, d: nat)
    requires d > 0 && |IntegerText(v, d)| <= 31 && |IntegerText(v, d)| != 30
    ensures Clipped(FixedText(v, d)) == IntegerText(v, d) + Tail(v, d)
  {
    var head, fraction := IntegerText(v, d), FractionText(v, d);
    assert |fraction| == d;
    hide IntegerText, FractionText, Clipped;
    ClipAt(head, fraction, Kept(v, d));
  }

  lemma CutDecimalsText(v: real, d: nat, whole: string)
    requires d > 0 && |IntegerText(v, d)| <= 31 && |IntegerText(v, d)| != 30
    requires whole == Digits(Quotient(Scaled(v, d), Pow10(d)))
    ensures AllDigits(whole + KeptText(v, d))
    ensures ReadUnits(Clipped(FixedText(v, d)), d) == Some(ToNat(whole + KeptText(v, d)) * Pow10(d - Kept(v, d)))
  {
    var sign := if v < 0.0 then "-" else "";
    hide *;
    WholeDigits(v, d, sign, whole);
    TailShape(v, d);
    CutText(v, d);
    DigitsJoin(whole, KeptText(v, d));
    ReadPlain(sign, whole, Tail(v, d), d);
  }

  lemma WholeDigits(v: real, d: nat, sign: string, whole: string)
    requires sign == (if v < 0.0 then "-" else "")
    requires whole == Digits(Quotient(Scaled(v, d), Pow10(d)))
    ensures IntegerText(v, d) == sign + whole
    ensures whole != "" && AllDigits(whole) && (|whole| > 1 ==> whole[0] != '0')
  {
    hide Digits, Scaled, Pow10, Quotient, AllDigits;
  }

  lemma DigitsJoin(a: string, b: string)
    requires AllDigits(a) && AllDigits(b)
    ensures AllDigits(a + b)
  {
  }

  lemma CutDecimals(v: real, d: nat)
    requires d > 0 && |IntegerText(v, d)| <= 31 && |IntegerText(v, d)| != 30
    ensures var r := ReadUnits(Clipped(FixedText(v, d)), d);
            r.Some? && (-0.5 <= r.value as real - Units(v, d) <= 0.5 <==> NothingLost(v, d))
  {
    hide *;
    var whole := Digits(Quotient(Scaled(v, d), Pow10(d)));
    CutDecimalsText(v, d, whole);
    NothingLostIs(v, d);
    CutLoses(v, d, whole, ToNat(whole + KeptText(v, d)) * Pow10(d - Kept(v, d)));
  }

  lemma NothingLostIs(v: real, d: nat)
    requires |IntegerText(v, d)| <= 31 && |IntegerText(v, d)| != 30
    ensures NothingLost(v, d) <==> AllZeros(LostText(v, d))
  {
    hide IntegerText, AllZeros, LostText;
  }

  lemma CutLoses(v: real, d: nat, whole: string, r: nat)
    requires whole == Digits(Quotient(Scaled(v, d), Pow10(d))) && AllDigits(whole + KeptText(v, d))
    requires r == ToNat(whole + KeptText(v, d)) * Pow10(d - Kept(v, d))
    ensures -0.5 <= r as real - Units(v, d) <= 0.5 <==> AllZeros(LostText(v, d))
  {
    var kept, lost, k := KeptText(v, d), LostText(v, d), Kept(v, d);
    hide *;
    CutScaled(v, d, whole);
    ZerosDenoteZero(lost);
    OddLoss(whole + kept, d, k, lost);
    LostUnits(v, d, r, ToNat(lost));
  }

  lemma CutScaled(v: real, d: nat, whole: string)
    requires whole == Digits(Quotient(Scaled(v, d), Pow10(d)))
    ensures AllDigits(whole + KeptText(v, d)) && AllDigits(LostText(v, d)) && |LostText(v, d)| == d - Kept(v, d)
    ensures Scaled(v, d) == ToNat(whole + KeptText(v, d)) * Pow10(d - Kept(v, d)) + ToNat(LostText(v, d))
  {
    CutDigits(v, d, Kept(v, d));
    hide ToNat, Pow10, Scaled, Digits, Quotient, FractionText, IsDigit, AllDigits;
  }

  lemma NoNumberNoUnits(s: string, d: nat)
    requires !IsNumber(s)
    ensures ReadUnits(s, d) == None
  {
  }

  /** If exactly one unit is lost, decimals were cut, and what is left is an even number of units. */
  lemma OddLoss(digits: string, d: nat, k: nat, lost: string)
    requires AllDigits(digits) && AllDigits(lost) && k <= d && |lost| == d - k
    ensures ToNat(lost) == 1 ==> (ToNat(digits) * Pow10(d - k)) % 2 == 0
  {
    if k < d {
      EvenMultiple(ToNat(digits), d - k);
    } else {
      NothingIsZero();
      assert lost == "";
    }
  }

  lemma LongInteger(v: real, d: nat, sign: string, whole: string)
    requires d > 0 && sign == (if v < 0.0 then "-" else "")
    requires whole == Digits(Quotient(Scaled(v, d), Pow10(d))) && |sign| + |whole| >= 32
    ensures var r := ReadUnits(Clipped(FixedText(v, d)), d);
            r.Some? && r.value as real < Units(v, d) - 0.5
  {
    hide *;
    WholeDigits(v, d, sign, whole);
    LongFallsShort(v, d, whole, 31 - |sign|);
    LongReads(v, d, sign, whole, whole[..31 - |sign|]);
    NearScaled(v, d);
    var r := ReadUnits(Clipped(FixedText(v, d)), d);
    assert r.Some? && r.value + 9 <= Scaled(v, d);
    assert r.value as real + 9.0 <= Scaled(v, d) as real;
  }

  lemma LongReads(v: real, d: nat, sign: string, whole: string, kept: string)
    requires sign == (if v < 0.0 then "-" else "")
    requires whole == Digits(Quotient(Scaled(v, d), Pow10(d))) && |sign| + |whole| >= 32
    requires kept == whole[..31 - |sign|] && AllDigits(kept)
    ensures ReadUnits(Clipped(FixedText(v, d)), d) == Some(ReadWhole(kept, d))
  {
    hide *;
    CutInside(v, d, sign, whole);
    ReadInteger(sign, kept, d);
  }

  lemma ReadInteger(sign: string, whole: string, d: nat)
    requires sign == "" || sign == "-"
    requires whole != "" && AllDigits(whole) && (|whole| > 1 ==> whole[0] != '0')
    ensures ReadUnits(sign + whole + "", d) == Some(ReadWhole(whole, d))
  {
    hide *;
    ReadPlain(sign, whole, "", d);
    ReadWholeIs(whole, d);
  }

  lemma ReadWholeIs(s: string, d: nat)
    requires AllDigits(s)
    ensures AllDigits(s + "") && |""| <= d && ReadWhole(s, d) == ToNat(s + "") * Pow10(d - |""|)
  {
    assert s + "" == s;
    hide ToNat, Pow10;
  }

  /** Whole digits in units of 10^-d. */
  function ReadWhole(s: string, d: nat): nat
    requires AllDigits(s)
  {
    ToNat(s) * Pow10(d)
  }

  lemma LongFallsShort(v: real, d: nat, whole: string, n: nat)
    requires whole == Digits(Quotient(Scaled(v, d), Pow10(d))) && AllDigits(whole)
    requires 0 < n < |whole| && whole[0] != '0'
    ensures AllDigits(whole[..n]) && ReadWhole(whole[..n], d) + 9 <= Scaled(v, d)
  {
    hide Digits, Scaled, Quotient, Pow10, ToNat, IsDigit;
    CutInteger(whole, n);
    FewerUnits(ToNat(whole[..n]), ToNat(whole), Pow10(d));
    ScaledAtLeast(v, d, whole);
  }

  lemma CutInside(v: real, d: nat, sign: string, whole: string)
    requires sign == (if v < 0.0 then "-" else "")
    requires whole == Digits(Quotient(Scaled(v, d), Pow10(d))) && |sign| + |whole| >= 32
    ensures var kept := whole[..31 - |sign|];
            Clipped(FixedText(v, d)) == sign + kept + "" && kept != "" && kept[0] == whole[0] != '0'
  {
    hide Scaled, Digits, FractionText, Pow10;
  }

  lemma ScaledAtLeast(v: real, d: nat, whole: string)
    requires whole == Digits(Quotient(Scaled(v, d), Pow10(d))) && AllDigits(whole)
    ensures Scaled(v, d) >= ToNat(whole) * Pow10(d)
  {
    CutDigits(v, d, 0);
    hide *;
    assert whole + FractionText(v, d)[..0] == whole;
  }

  lemma FewerUnits(a: nat, b: nat, p: nat)
    requires b >= a + 9 && p > 0
    ensures a * p + 9 <= b * p
  {
    ProductMonotone(a + 9, b, p);
    assert (a + 9) * p == a * p + 9 * p;
  }

  lemma NearScaled(v: real, d: nat)
    ensures -0.5 <= Scaled(v, d) as real - Units(v, d) <= 0.5
  {
    hide Units, Rounded;
    RoundedNearest(Units(v, d));
  }

  /** A whole number of k digits prints its k digits before the point. */
  lemma WholeNumberLength(n: nat, d: nat, k: nat)
    requires k > 0 && Pow10(k - 1) <= n < Pow10(k)
    ensures |IntegerText(n as real, d)| == k
  {
    hide Pow10;
    WholeUnits(n, d);
    WholeQuotient(n, Pow10(d));
    DigitsLength(n, k);
    DigitsLengthAtLeast(n, k - 1);
  }

  lemma WholeUnits(n: nat, d: nat)
    ensures Scaled(n as real, d) == n * Pow10(d)
  {
    hide Pow10;
    var m := n * Pow10(d);
    assert Units(n as real, d) == m as real;
    assert (m as real).Floor == m;
  }

  lemma WholeQuotient(n: nat, p: nat)
    requires p > 0
    ensures Quotient(n * p, p) == n
  {
    QuotientAtMost(n * p, n, p);
    QuotientRemainder(n * p, p);
    if Quotient(n * p, p) < n {
      FewerTimes(Quotient(n * p, p), n, p);
    }
  }

  lemma FewerTimes(a: nat, b: nat, p: nat)
    requires a < b
    ensures a * p + p <= b * p
  {
    ProductMonotone(a + 1, b, p);
    assert (a + 1) * p == a * p + p;
  }

  /** 2^97 and 2^103 are single-precision floats; they print with 30 and 32 digits before the point. */
  const FLOAT_OF_30_DIGITS: nat := 158456325028528675187087900672
  const FLOAT_OF_32_DIGITS: nat := 10141204801825835211973625643008

  /**
   Both ways of losing something happen: a float whose text is cut right after its point, so that no number is
   left, and one cut inside its integer part, which reads back as a far smaller number.
   */
  lemma CutFloats(d: nat)
    requires d > 0
    ensures var v := FLOAT_OF_30_DIGITS as real;
            |IntegerText(v, d)| == 30 && !IsNumber(Clipped(FixedText(v, d)))
    ensures var v := FLOAT_OF_32_DIGITS as real;
            var text := Clipped(FixedText(v, d));
            |IntegerText(v, d)| == 32 && IsNumber(text) && ReadUnits(text, d).Some?
            && ReadUnits(text, d).value as real < Units(v, d) - 0.5
  {
    HighPowers();
    hide *;
    WholeNumberLength(FLOAT_OF_30_DIGITS, d, 30);
    ClippedIsNumber(FLOAT_OF_30_DIGITS as real, d);
    WholeNumberLength(FLOAT_OF_32_DIGITS, d, 32);
    ClippedIsNumber(FLOAT_OF_32_DIGITS as real, d);
    LongIntegerText(FLOAT_OF_32_DIGITS as real, d);
  }

  lemma LongIntegerText(v: real, d: nat)
    requires d > 0 && |IntegerText(v, d)| >= 32
    ensures var r := ReadUnits(Clipped(FixedText(v, d)), d);
            r.Some? && r.value as real < Units(v, d) - 0.5
  {
    LongInteger(v, d, if v < 0.0 then "-" else "", Digits(Quotient(Scaled(v, d), Pow10(d))));
  }

  lemma HighPowers()
    ensures Pow10(29) <= FLOAT_OF_30_DIGITS < Pow10(30)
    ensures Pow10(31) <= FLOAT_OF_32_DIGITS < Pow10(32)
  {
    assert Pow10(4) == 10_000;
    assert Pow10(8) == 100_000_000;
    Pow10Sum(8, 8);
    Pow10Sum(8, 16);
    Pow10Sum(4, 24);
    assert Pow10(29) == 10 * Pow10(28);
    assert Pow10(30) == 10 * Pow10(29);
    assert Pow10(31) == 10 * Pow10(30);
    assert Pow10(32) == 10 * Pow10(31);
  }
}
