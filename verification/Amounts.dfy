/** Amounts between decimal text and a whole number of the smallest unit. */
module Amounts {
  import opened Hex

  datatype Problem = NotAnAmount | TooManyDecimals | NotPositive

  datatype Result = Good(value: int) | Thrown(problem: Problem)

  predicate IsDigit(c: char) {
    '0' <= c <= '9'
  }

  predicate Digits(s: string) {
    forall i | 0 <= i < |s| :: IsDigit(s[i])
  }

  function DigitOf(n: nat): char
    requires n < 10
  {
    '0' + n as char
  }

  function ValueOf(c: char): nat
    requires IsDigit(c)
  {
    (c - '0') as nat
  }

  /** The number a run of digits spells; the empty run spells zero. */
  function Value(s: string): nat
    requires Digits(s)
  {
    if s == [] then 0 else Value(s[..|s| - 1]) * 10 + ValueOf(s[|s| - 1])
  }

  function Decimal(n: nat): string {
    if n < 10 then [DigitOf(n)] else Decimal(n / 10) + [DigitOf(n % 10)]
  }

  function IntText(v: int): string {
    if v < 0 then "-" + Decimal(-v) else Decimal(v)
  }

  function Zeros(n: nat): (s: string)
    ensures |s| == n && Digits(s) && forall i | 0 <= i < n :: s[i] == '0'
  {
    seq(n, _ => '0')
  }

  function PadEnd(s: string, n: nat): string {
    if |s| >= n then s else s + Zeros(n - |s|)
  }

  function PadStart(s: string, n: nat): string {
    if |s| >= n then s else Zeros(n - |s|) + s
  }

  /** Without zeros at the end. */
  function StripEnd(s: string): string {
    if s != [] && s[|s| - 1] == '0' then StripEnd(s[..|s| - 1]) else s
  }

  /** Without zeros at the start, but for the last character. */
  function StripStart(s: string): string {
    if |s| > 1 && s[0] == '0' then StripStart(s[1..]) else s
  }

  function IndexOf(s: string, c: char): (i: nat)
    ensures i <= |s| && (forall k | 0 <= k < i :: s[k] != c) && (i < |s| ==> s[i] == c)
  {
    if s == [] || s[0] == c then 0
    else 1 + IndexOf(s[1..], c)
  }

  function Whole(s: string): string {
    s[..IndexOf(s, '.')]
  }

  /** What follows the first point; empty without one. */
  function Frac(s: string): string {
    var i := IndexOf(s, '.');
    if i < |s| then s[i + 1..] else ""
  }

  /** Digits, or digits, a point, and digits. */
  predicate IsAmount(s: string) {
    && Whole(s) != "" && Digits(Whole(s))
    && Digits(Frac(s)) && ('.' in s ==> Frac(s) != "")
  }

  /** Leading zeros do not reach the number: `scaled` is read without them. */
  function ToStroops(amount: string, decimals: nat): Result {
    var text := Trim(amount);
    if !IsAmount(text) then Thrown(NotAnAmount)
    else if |Frac(text)| > decimals then Thrown(TooManyDecimals)
    else
      var scaled := StripStart(Whole(text) + PadEnd(Frac(text), decimals));
      DigitsStripped(Whole(text) + PadEnd(Frac(text), decimals));
      var value := Value(scaled);
      if value <= 0 then Thrown(NotPositive) else Good(value)
  }

  /** The last `n` characters, as slicing from `-n` reads them: with `n` zero, all of them. */
  function SliceFromEnd(s: string, n: nat): string {
    if n == 0 || n >= |s| then s else s[|s| - n..]
  }

  /** All but the last `n` characters, as slicing to `-n` reads them: with `n` zero, none. */
  function SliceToEnd(s: string, n: nat): string {
    if n == 0 || n >= |s| then "" else s[..|s| - n]
  }

  function FromStroops(value: int, decimals: nat): string {
    var s := PadStart(IntText(value), decimals + 1);
    var frac := StripEnd(SliceFromEnd(s, decimals));
    if frac != "" then SliceToEnd(s, decimals) + "." + frac else SliceToEnd(s, decimals)
  }

  // ---- numerals ------------------------------------------------------------------------

  lemma {:induction false} DigitsStripped(s: string)
    requires Digits(s)
    ensures Digits(StripStart(s)) && Value(StripStart(s)) == Value(s)
    ensures s != "" ==> StripStart(s) != "" && (StripStart(s)[0] != '0' || |StripStart(s)| == 1)
    ensures |StripStart(s)| <= |s|
    ensures s == Zeros(|s| - |StripStart(s)|) + StripStart(s)
    decreases |s|
  {
    hide Value;
    if |s| > 1 && s[0] == '0' {
      DigitsStripped(s[1..]);
      assert s == Zeros(1) + s[1..];
      ValueSkipsZeros(1, s[1..]);
    }
  }

  lemma {:induction false} ValueSkipsZeros(n: nat, s: string)
    requires Digits(s)
    ensures Value(Zeros(n) + s) == Value(s)
    decreases n + |s|
  {
    var z := Zeros(n) + s;
    if s != [] {
      assert z[..|z| - 1] == Zeros(n) + s[..|s| - 1];
      ValueSkipsZeros(n, s[..|s| - 1]);
    } else if n > 0 {
      assert z[..|z| - 1] == Zeros(n - 1) + s;
      ValueSkipsZeros(n - 1, s);
    }
  }

  lemma {:induction false} DecimalSpells(n: nat)
    ensures Decimal(n) != "" && Digits(Decimal(n)) && Value(Decimal(n)) == n
    ensures n > 0 ==> Decimal(n)[0] != '0'
    decreases n
  {
    if n >= 10 {
      DecimalSpells(n / 10);
      var s := Decimal(n);
      assert s[..|s| - 1] == Decimal(n / 10);
    } else {
      assert Decimal(n)[..0] == "";
    }
  }

  /** Digits of the same length that spell the same number are the same. */
  lemma {:induction false} ValueIsInjective(s: string, t: string)
    requires Digits(s) && Digits(t) && |s| == |t| && Value(s) == Value(t)
    ensures s == t
    decreases |s|
  {
    if s != [] {
      var n := |s| - 1;
      ValueIsInjective(s[..n], t[..n]);
      assert s == s[..n] + [s[n]] && t == t[..n] + [t[n]];
    }
  }

  function Power10(n: nat): nat {
    if n == 0 then 1 else 10 * Power10(n - 1)
  }

  lemma {:induction false} ValueBounds(s: string)
    requires Digits(s)
    ensures Value(s) < Power10(|s|)
    ensures s != "" && s[0] != '0' ==> Value(s) >= Power10(|s| - 1)
    decreases |s|
  {
    if s != [] {
      ValueBounds(s[..|s| - 1]);
    }
  }

  lemma {:induction false} PowerGrows(m: nat, n: nat)
    requires m <= n
    ensures Power10(m) <= Power10(n)
    decreases n
  {
    if m < n {
      PowerGrows(m, n - 1);
    }
  }

  /** Digits without a leading zero are the decimal form of what they spell. */
  lemma DecimalOfValue(s: string)
    requires Digits(s) && s != "" && s[0] != '0'
    ensures Decimal(Value(s)) == s
  {
    hide Decimal, Value, Power10;
    var n := Value(s);
    var t := Decimal(n);
    DecimalSpells(n);
    ValueBounds(s);
    ValueBounds(t);
    PowerIsPositive(|s| - 1);
    if |s| < |t| {
      PowerGrows(|s|, |t| - 1);
    } else if |t| < |s| {
      PowerGrows(|t|, |s| - 1);
    }
    ValueIsInjective(s, t);
  }

  lemma {:induction false} PowerIsPositive(n: nat)
    ensures Power10(n) >= 1
  {
    if n > 0 {
      PowerIsPositive(n - 1);
    }
  }

  lemma {:induction false} ValueOfConcat(s: string, t: string)
    requires Digits(s) && Digits(t)
    ensures Digits(s + t) && Value(s + t) == Value(s) * Power10(|t|) + Value(t)
    decreases |t|
  {
    if t == [] {
      assert s + t == s;
    } else {
      var n := |t| - 1;
      assert (s + t)[..|s + t| - 1] == s + t[..n];
      ValueOfConcat(s, t[..n]);
      TenTimes(Value(s), Power10(n), Value(t[..n]));
    }
  }

  lemma TenTimes(x: nat, p: nat, y: nat)
    ensures (x * p + y) * 10 == x * (10 * p) + y * 10
  {
  }

  lemma {:induction false} StripEndSplits(s: string)
    ensures |StripEnd(s)| <= |s|
    ensures s == StripEnd(s) + Zeros(|s| - |StripEnd(s)|)
    ensures StripEnd(s) != "" ==> StripEnd(s)[|StripEnd(s)| - 1] != '0'
    decreases |s|
  {
    if s != [] && s[|s| - 1] == '0' {
      StripEndSplits(s[..|s| - 1]);
      assert s == s[..|s| - 1] + "0";
    }
  }

  // ---- what an accepted amount is worth ------------------------------------------------

  /** An amount is accepted exactly when it has the form, not too many decimals, and a digit that is
      not zero; its value is then the written number times ten to the decimals, exactly. */
  lemma ToStroopsIsExact(amount: string, decimals: nat)
    ensures var text := Trim(amount);
            match ToStroops(amount, decimals)
            case Good(v) =>
              && IsAmount(text) && |Frac(text)| <= decimals && v > 0
              && v * Power10(|Frac(text)|) == Value(Whole(text) + Frac(text)) * Power10(decimals)
            case Thrown(NotAnAmount) => !IsAmount(text)
            case Thrown(TooManyDecimals) => IsAmount(text) && |Frac(text)| > decimals
            case Thrown(NotPositive) => IsAmount(text) && |Frac(text)| <= decimals && Value(Whole(text) + Frac(text)) == 0
  {
    hide Value, StripStart, Power10, Trim, Whole, Frac;
    var text := Trim(amount);
    if IsAmount(text) && |Frac(text)| <= decimals {
      PaddedIsWorth(Whole(text), Frac(text), decimals);
    }
  }

  lemma PaddedIsWorth(whole: string, frac: string, decimals: nat)
    requires Digits(whole) && Digits(frac) && |frac| <= decimals
    ensures var padded := whole + PadEnd(frac, decimals);
            && Digits(padded) && Digits(StripStart(padded))
            && Value(StripStart(padded)) == Value(padded)
            && Value(padded) * Power10(|frac|) == Value(whole + frac) * Power10(decimals)
            && (Value(padded) == 0 <==> Value(whole + frac) == 0)
  {
    hide Value, StripStart, Power10;
    var k := decimals - |frac|;
    assert PadEnd(frac, decimals) == frac + Zeros(k);
    assert whole + (frac + Zeros(k)) == (whole + frac) + Zeros(k);
    DigitsStripped(whole + PadEnd(frac, decimals));
    ValueOfConcat(whole + frac, Zeros(k));
    ZerosAreWorthless(k);
    PowerIsPositive(k);
    PowersMultiply(|frac|, k);
    ScaleBoth(Value(whole + frac), Power10(k), Power10(|frac|), Power10(decimals));
  }

  lemma ZerosAreWorthless(n: nat)
    ensures Value(Zeros(n)) == 0
  {
    ValueSkipsZeros(n, "");
    assert Zeros(n) + "" == Zeros(n);
  }

  lemma ScaleBoth(x: nat, k: nat, f: nat, d: nat)
    requires d == k * f && k >= 1
    ensures x * k * f == x * d
    ensures x * k == 0 <==> x == 0
  {
  }

  lemma {:induction false} PowersMultiply(m: nat, n: nat)
    ensures Power10(m + n) == Power10(n) * Power10(m)
    decreases n
  {
    if n > 0 {
      PowersMultiply(m, n - 1);
    }
  }

  /** The ten digits, and the number a run of them spells, on an example. */
  lemma NumeralsAreDecimal(n: nat)
    ensures n < 10 ==> DigitOf(n) == "0123456789"[n] && IsDigit(DigitOf(n)) && ValueOf(DigitOf(n)) == n
    ensures Digits("105") && Value("105") == 105
    ensures Power10(3) == 1000
  {
    assert "105"[..2] == "10" && "10"[..1] == "1" && "1"[..0] == "";
    assert Value("1") == 1;
    assert Value("10") == 10;
  }

  /** Nothing prints as a bare zero with decimals, and as nothing at all without. */
  lemma ZeroPrints(decimals: nat)
    ensures FromStroops(0, decimals) == if decimals == 0 then "" else "0"
  {
    hide PadStart, StripEnd;
    assert Decimal(0) == "0";
    if decimals == 0 {
      assert StripEnd("0") == "" by { AllZerosStrip(1); assert Zeros(1) == "0"; }
      assert PadStart("0", 1) == "0" by { LongEnough("0", 1); }
    } else {
      ZeroPads(decimals);
      var s := PadStart("0", decimals + 1);
      assert SliceFromEnd(s, decimals) == Zeros(decimals) && SliceToEnd(s, decimals) == "0";
      AllZerosStrip(decimals);
    }
  }

  lemma ZeroPads(decimals: nat)
    requires decimals >= 1
    ensures PadStart("0", decimals + 1) == Zeros(decimals + 1) == "0" + Zeros(decimals)
  {
  }

  lemma {:induction false} AllZerosStrip(n: nat)
    ensures StripEnd(Zeros(n)) == ""
    decreases n
  {
    if n > 0 {
      assert Zeros(n)[..n - 1] == Zeros(n - 1);
      AllZerosStrip(n - 1);
    }
  }

  // ---- there and back ------------------------------------------------------------------

  lemma PlainTextSplits(whole: string, frac: string)
    requires Digits(whole) && whole != "" && Digits(frac)
    ensures var text := if frac == "" then whole else whole + "." + frac;
            Trim(text) == text && Whole(text) == whole && Frac(text) == frac && IsAmount(text)
  {
    var text := if frac == "" then whole else whole + "." + frac;
    TrimTight(text);
    FirstPoint(text, |whole|);
  }

  lemma FirstPoint(text: string, i: nat)
    requires i <= |text| && Digits(text[..i]) && (i < |text| ==> text[i] == '.')
    ensures IndexOf(text, '.') == i
  {
    forall k | 0 <= k < i
      ensures text[k] != '.'
    {
      assert IsDigit(text[..i][k]);
    }
  }

  /** The sections the printer cuts. */
  lemma PrinterCuts(value: nat, decimals: nat)
    requires decimals >= 1
    ensures var s := PadStart(Decimal(value), decimals + 1);
            && |s| >= decimals + 1 && Digits(s) && Value(s) == value
            && SliceToEnd(s, decimals) != "" && Digits(SliceToEnd(s, decimals))
            && |SliceFromEnd(s, decimals)| == decimals && Digits(SliceFromEnd(s, decimals))
            && SliceToEnd(s, decimals) + SliceFromEnd(s, decimals) == s
  {
    hide Decimal, Value;
    var t := Decimal(value);
    DecimalSpells(value);
    if |t| < decimals + 1 {
      ValueSkipsZeros(decimals + 1 - |t|, t);
    }
  }

  lemma PrintedReadsBack(value: nat, decimals: nat)
    requires value > 0 && decimals >= 1
    ensures ToStroops(FromStroops(value, decimals), decimals) == Good(value)
  {
    hide PadStart, SliceFromEnd, SliceToEnd, Trim, Whole, Frac, IsAmount;
    PrinterCuts(value, decimals);
    var s := PadStart(Decimal(value), decimals + 1);
    var whole, raw := SliceToEnd(s, decimals), SliceFromEnd(s, decimals);
    var frac := StripEnd(raw);
    StripEndSplits(raw);
    assert forall i | 0 <= i < |frac| :: frac[i] == raw[i];
    PlainTextSplits(whole, frac);
    assert PadEnd(frac, decimals) == raw;
    DigitsStripped(s);
  }

  /** Printing and reading back gives the amount, for every whole number and every number of decimals,
      exactly when the amount is positive and there is at least one decimal. */
  lemma RoundTripIff(value: int, decimals: nat)
    ensures ToStroops(FromStroops(value, decimals), decimals) == Good(value) <==> value > 0 && decimals >= 1
  {
    if value > 0 && decimals >= 1 {
      PrintedReadsBack(value, decimals);
    } else if value > 0 {
      WithoutDecimalsUnreadable(value);
    } else {
      ToStroopsIsExact(FromStroops(value, decimals), decimals);
    }
  }

  /** With no decimals the printer puts the point before the whole number, and nothing reads it. */
  lemma WithoutDecimalsUnreadable(value: nat)
    requires value > 0
    ensures FromStroops(value, 0) == "." + StripEnd(Decimal(value))
    ensures ToStroops(FromStroops(value, 0), 0) == Thrown(NotAnAmount)
  {
    hide Decimal, Value;
    DecimalSpells(value);
    StripEndSplits(Decimal(value));
    var frac := StripEnd(Decimal(value));
    assert frac != "";
    assert frac[|frac| - 1] == Decimal(value)[|frac| - 1];
    PointFirstIsNoAmount(frac);
  }

  lemma PointFirstIsNoAmount(frac: string)
    requires frac != "" && !IsSpace(frac[|frac| - 1])
    ensures ToStroops("." + frac, 0) == Thrown(NotAnAmount)
  {
    var text := "." + frac;
    assert text[|text| - 1] == frac[|frac| - 1];
    TrimTight(text);
    FirstPoint(text, 0);
  }

  /** An amount without redundant zeros: none before the last whole digit, none at the end of the
      decimals, no point without decimals. */
  function Canonical(text: string): string {
    var whole, frac := StripStart(Whole(text)), StripEnd(Frac(text));
    if frac != "" then whole + "." + frac else whole
  }

  /** Padding a numeral to the length of digits that spell the same gives those digits back. */
  lemma PaddedNumeral(s: string)
    requires Digits(s) && Value(s) > 0
    ensures |Decimal(Value(s))| <= |s| && PadStart(Decimal(Value(s)), |s|) == s
  {
    hide Value, Decimal, Power10;
    var t := Decimal(Value(s));
    DecimalSpells(Value(s));
    ValueBounds(s);
    ValueBounds(t);
    if |t| > |s| {
      PowerGrows(|s|, |t| - 1);
    }
    ValueSkipsZeros(|s| - |t|, t);
    ValueIsInjective(s, Zeros(|s| - |t|) + t);
    assert |s| == |t| ==> Zeros(0) + t == t;
  }

  /** The digits the printer starts from are those that were read, but for leading zeros. */
  lemma PrinterSeesTheDigits(whole: string, padded: string)
    requires Digits(whole) && whole != "" && Digits(padded)
    requires Value(whole + padded) > 0
    ensures Digits(whole + padded)
    ensures PadStart(Decimal(Value(whole + padded)), |padded| + 1) == StripStart(whole) + padded
  {
    hide Value, Decimal, Power10, StripStart, PadStart;
    var w := StripStart(whole);
    DigitsStripped(whole);
    ValueOfConcat(whole, padded);
    ValueOfConcat(w, padded);
    var s := w + padded;
    if |w| > 1 {
      assert s[0] == w[0];
      DecimalOfValue(s);
      LongEnough(s, |padded| + 1);
    } else {
      PaddedNumeral(s);
    }
  }

  lemma LongEnough(s: string, n: nat)
    requires |s| >= n
    ensures PadStart(s, n) == s
  {
  }

  lemma PrintsFrom(whole: string, frac: string, decimals: nat)
    requires Digits(whole) && whole != "" && Digits(frac) && |frac| <= decimals && decimals >= 1
    requires Digits(whole + PadEnd(frac, decimals)) && Value(whole + PadEnd(frac, decimals)) > 0
    ensures FromStroops(Value(whole + PadEnd(frac, decimals)), decimals) ==
            var f := StripEnd(frac); if f != "" then StripStart(whole) + "." + f else StripStart(whole)
  {
    hide Value, Decimal, PadStart, StripStart, StripEnd, FromStroops;
    var padded := PadEnd(frac, decimals);
    PrinterSeesTheDigits(whole, padded);
    DigitsStripped(whole);
    PrintsSections(Value(whole + padded), StripStart(whole), padded);
    StripPadding(frac, decimals - |frac|);
  }

  /** What the printer makes of a number whose padded digits are `whole` and `padded`. */
  lemma PrintsSections(value: nat, whole: string, padded: string)
    requires padded != "" && whole != "" && PadStart(Decimal(value), |padded| + 1) == whole + padded
    ensures FromStroops(value, |padded|) ==
            var f := StripEnd(padded); if f != "" then whole + "." + f else whole
  {
    hide Decimal, PadStart, StripEnd;
    var s := whole + padded;
    assert SliceToEnd(s, |padded|) == whole && SliceFromEnd(s, |padded|) == padded;
  }

  /** Reading and printing back gives the same text without its redundant zeros and its surrounding
      white space. */
  lemma PrintsCanonical(amount: string, decimals: nat)
    requires decimals >= 1 && ToStroops(amount, decimals).Good?
    ensures FromStroops(ToStroops(amount, decimals).value, decimals) == Canonical(Trim(amount))
  {
    hide Trim, Value, Whole, Frac, StripStart, StripEnd, FromStroops;
    var text := Trim(amount);
    DigitsStripped(Whole(text) + PadEnd(Frac(text), decimals));
    PrintsFrom(Whole(text), Frac(text), decimals);
  }

  /** That takes at least one decimal: without any, no accepted amount prints back as itself. */
  lemma PrintsCanonicalIff(amount: string, decimals: nat)
    requires ToStroops(amount, decimals).Good?
    ensures FromStroops(ToStroops(amount, decimals).value, decimals) == Canonical(Trim(amount)) <==> decimals >= 1
  {
    hide Trim, Whole, Frac, FromStroops;
    if decimals >= 1 {
      PrintsCanonical(amount, decimals);
    } else {
      var value := ToStroops(amount, 0).value;
      WithoutDecimalsUnreadable(value);
      assert FromStroops(value, 0)[0] == '.';
      DigitsStripped(Whole(Trim(amount)));
      assert IsDigit(Canonical(Trim(amount))[0]);
    }
  }

  lemma {:induction false} StripPadding(s: string, n: nat)
    ensures StripEnd(s + Zeros(n)) == StripEnd(s)
    decreases n
  {
    if n == 0 {
      assert s + Zeros(0) == s;
    } else {
      assert (s + Zeros(n))[..|s| + n - 1] == s + Zeros(n - 1);
      StripPadding(s, n - 1);
    }
  }
}
