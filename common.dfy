/**
 * Number formatting for the info panel's table: `get_number_suffix` and `round_`.
 *
 * Numbers are the strings the source receives; Python's `Decimal` arithmetic on
 * them is modelled exactly with natural numbers over digit strings.
 */
module Common {
  import opened Wrappers
  import opened Text

  /** The exceptions the two functions can raise. */
  datatype Error =
    | ValueError           // raised explicitly, or by `int()` on a non-integer string
    | NotImplementedError  // more than 15 digits
    | InvalidOperation     // `Decimal()` of a string that is not a number

  /** The rounding mode of Python's global decimal context. */
  datatype Rounding = RoundHalfEven | RoundHalfUp

  /** The suffix for 1-3, 4-6, 7-9, 10-12 and 13-15 digits: index = (digits - 1) / 3. */
  const Suffixes: seq<string> := ["", "k", "M", "B", "T"]

  function Abs(x: int): nat {
    if x < 0 then -x else x
  }

  /** `get_number_suffix`: the magnitude suffix for a string of digits. */
  function GetNumberSuffix(number: string): (r: Result<string, Error>)
    ensures r.Success? <==> number != [] && AllDigits(number) && |number| <= 15
    ensures number == [] || !AllDigits(number) ==> r == Failure(ValueError)
    ensures number != [] && AllDigits(number) && |number| > 15 ==> r == Failure(NotImplementedError)
    ensures r.Success? ==> r.value == Suffixes[(|number| - 1) / 3]
  {
    if number == [] then Failure(ValueError)
    else if !AllDigits(number) then Failure(ValueError)
    else if |number| > 15 then Failure(NotImplementedError)
    else if |number| >= 13 then Success("T")
    else if |number| >= 10 then Success("B")
    else if |number| >= 7 then Success("M")
    else if |number| >= 4 then Success("k")
    else Success("")
  }

  /** The parametrised suffix test table and the three rejected inputs. */
  lemma GetNumberSuffixExamples()
    ensures GetNumberSuffix("") == Failure(ValueError)
    ensures GetNumberSuffix("5.30") == Failure(ValueError)
    ensures GetNumberSuffix("1,234") == Failure(ValueError)
    ensures GetNumberSuffix("1") == Success("") && GetNumberSuffix("100") == Success("")
    ensures GetNumberSuffix("1000") == Success("k") && GetNumberSuffix("100000") == Success("k")
    ensures GetNumberSuffix("1000000") == Success("M") && GetNumberSuffix("100000000") == Success("M")
    ensures GetNumberSuffix("1000000000") == Success("B") && GetNumberSuffix("100000000000") == Success("B")
    ensures GetNumberSuffix("1000000000000") == Success("T")
    ensures GetNumberSuffix("100000000000000") == Success("T")
  {
    assert !IsDigit("5.30"[1]);
    assert !IsDigit("1,234"[1]);
  }

  /** `q` is a nearest integer to `n / d`. */
  predicate Nearest(q: nat, n: nat, d: nat) {
    2 * Abs(q * d - n) <= d
  }

  /** When `n / d` lies exactly halfway, `q` is the upper neighbour. */
  predicate TieGoesUp(q: nat, n: nat, d: nat)
    requires d > 0
  {
    2 * (n % d) == d ==> q * d > n
  }

  /** When `n / d` lies exactly halfway, `q` is the even neighbour. */
  predicate TieGoesEven(q: nat, n: nat, d: nat)
    requires d > 0
  {
    2 * (n % d) == d ==> q % 2 == 0
  }

  /**
   * `Decimal(n) / Decimal(d)` quantized to an integer in the given rounding mode:
   * the nearest integer to n / d, ties going up (half-up) or to the even neighbour.
   */
  function RoundDiv(n: nat, d: nat, mode: Rounding): (q: nat)
    requires d > 0
    ensures Nearest(q, n, d)
    ensures mode == RoundHalfUp ==> TieGoesUp(q, n, d)
    ensures mode == RoundHalfEven ==> TieGoesEven(q, n, d)
  {
    var q0, rem := n / d, n % d;
    assert n == q0 * d + rem;
    assert (q0 + 1) * d - n == d - rem;
    if 2 * rem < d then q0
    else if 2 * rem > d then q0 + 1
    else if mode == RoundHalfUp || q0 % 2 == 1 then q0 + 1
    else q0
  }

  /** `str(x)` for a Decimal x quantized to "1.00", given as a number of hundredths. */
  function FormatCents(cents: nat): (s: string)
    ensures |s| >= 4 && s[|s| - 3] == '.'
    ensures AllDigits(s[..|s| - 3]) && AllDigits(s[|s| - 2..])
    ensures s[..|s| - 3] == Decimal(cents / 100)
    ensures ValueOf(s[..|s| - 3]) * 100 + ValueOf(s[|s| - 2..]) == cents
  {
    var whole := Decimal(cents / 100);
    var tens, units := cents % 100 / 10, cents % 10;
    var fraction := [DigitChar(tens), DigitChar(units)];
    TwoDigits(tens, units);
    CentsDigits(cents);
    var s := whole + "." + fraction;
    assert s[..|s| - 3] == whole;
    assert s[|s| - 2..] == fraction;
    s
  }

  lemma TwoDigits(tens: nat, units: nat)
    requires tens < 10 && units < 10
    ensures AllDigits([DigitChar(tens), DigitChar(units)])
    ensures ValueOf([DigitChar(tens), DigitChar(units)]) == tens * 10 + units
  {
    var fraction := [DigitChar(tens), DigitChar(units)];
    var first := fraction[..1];
    assert first == [DigitChar(tens)];
    assert first[..0] == [];
    assert ValueOf(first) == DigitValue(DigitChar(tens));
    assert ValueOf(fraction) == ValueOf(first) * 10 + DigitValue(DigitChar(units));
  }

  lemma CentsDigits(cents: nat)
    ensures cents % 100 / 10 < 10 && cents % 10 < 10
    ensures (cents / 100) * 100 + (cents % 100 / 10) * 10 + cents % 10 == cents
  {
    var h, r := cents / 100, cents % 100;
    assert cents == h * 100 + r;
    var t, u := r / 10, r % 10;
    assert r == t * 10 + u;
    assert u == cents % 10;
  }

  /** `len % 3 or 3`: how many digits stand before the decimal point of an abbreviated number. */
  function LeadingGroup(len: nat): nat {
    if len % 3 == 0 then 3 else len % 3
  }

  /** `Decimal(number) / 10 ** (len - i)` quantized to hundredths, counted in hundredths. */
  function WholeCents(number: string, mode: Rounding): nat
    requires AllDigits(number) && |number| > 3
  {
    RoundDiv(ValueOf(number) * 100, Pow10(|number| - LeadingGroup(|number|)), mode)
  }

  /** Lines 46-53: a whole number, rounded to hundredths of its leading group of digits. */
  function RoundWhole(number: string, mode: Rounding): (r: Result<string, Error>)
    requires '.' !in number
    ensures |number| <= 3 ==> r == Success(number)
    ensures |number| > 3 ==> (r.Success? <==> AllDigits(number) && |number| <= 15)
    ensures |number| > 3 && !AllDigits(number) ==> r == Failure(InvalidOperation)
    ensures |number| > 15 && AllDigits(number) ==> r == Failure(NotImplementedError)
  {
    if |number| <= 3 then Success(number)
    else if !AllDigits(number) then Failure(InvalidOperation)
    else
      var suffix :- GetNumberSuffix(number);
      Success(FormatCents(WholeCents(number, mode)) + suffix)
  }

  /** `whole.fraction` times 100 * 10^|fraction|: its hundredths, scaled to an integer. */
  function ScaledHundredths(whole: string, fraction: string): nat
    requires AllDigits(whole) && AllDigits(fraction)
  {
    (ValueOf(whole) * Pow10(|fraction|) + ValueOf(fraction)) * 100
  }

  /**
   * Lines 54-59: a number with a decimal point, quantized half-up to hundredths;
   * a zero fraction is dropped.
   */
  function RoundFraction(whole: string, fraction: string): (r: Result<string, Error>)
    ensures r.Success? <==> AllDigits(whole) && AllDigits(fraction) && (whole != [] || fraction != [])
    ensures r.Failure? ==> r.error == InvalidOperation
    ensures r.Success? ==> r.value != []
    ensures r.Success? ==>
      AllDigits(r.value)
      || (|r.value| >= 4 && r.value[|r.value| - 3] == '.' && AllDigits(r.value[|r.value| - 2..]))
  {
    if !AllDigits(whole) || !AllDigits(fraction) || (whole == [] && fraction == []) then
      Failure(InvalidOperation)
    else
      var cents := RoundDiv(ScaledHundredths(whole, fraction), Pow10(|fraction|), RoundHalfUp);
      if cents % 100 == 0 then Success(Decimal(cents / 100)) else Success(FormatCents(cents))
  }

  /**
   * `round_` on a string, with the rounding mode the global decimal context holds
   * when it is called (it is half-even until some call has taken the decimal-point path).
   */
  function Round(number: string, mode: Rounding): (r: Result<string, Error>)
    ensures number == [] ==> r == Failure(ValueError)
    ensures Count(number, '.') > 1 ==> r == Failure(ValueError)
    ensures number != [] && '.' !in number && |number| <= 3 ==> r == Success(number)
  {
    if number == [] then Failure(ValueError)
    else
      var parts := Split(number, '.');
      SplitParts(number, '.');
      CountPositive(number, '.');
      assert '.' !in number ==> parts == [number] by {
        if '.' !in number { SplitNoSep(number, '.'); }
      }
      if |parts| > 2 then Failure(ValueError)
      else
        var whole := parts[0];
        var n := if |whole| > 3 then whole else number;
        if '.' !in n then RoundWhole(n, mode)
        else RoundFraction(whole, parts[1])
  }

  /** The rounding mode the global decimal context holds after `round_` returns or raises. */
  function RoundingAfter(number: string, mode: Rounding): (after: Rounding)
    ensures after == mode || after == RoundHalfUp
  {
    if number == [] then mode
    else
      var parts := Split(number, '.');
      if |parts| > 2 || |parts[0]| > 3 || |parts| == 1 then mode else RoundHalfUp
  }

  // ---------------------------------------------------------------------------
  // What `round_` promises

  /**
   * A whole number of 4 to 15 digits becomes its value in units of the suffix
   * (thousands, millions, ...) rounded to hundredths, followed by the suffix.
   */
  lemma RoundWholeNumber(number: string, mode: Rounding) returns (cents: nat)
    requires AllDigits(number) && 4 <= |number| <= 15
    ensures Round(number, mode) == Success(FormatCents(cents) + Suffixes[(|number| - 1) / 3])
    ensures Nearest(cents, ValueOf(number) * 100, Pow10(3 * ((|number| - 1) / 3)))
    ensures mode == RoundHalfUp ==> TieGoesUp(cents, ValueOf(number) * 100, Pow10(3 * ((|number| - 1) / 3)))
    ensures mode == RoundHalfEven ==> TieGoesEven(cents, ValueOf(number) * 100, Pow10(3 * ((|number| - 1) / 3)))
  {
    RoundWholeUnfold(number, mode);
    WholeCentsNearest(number, mode);
    cents := WholeCents(number, mode);
  }

  lemma WholeCentsNearest(number: string, mode: Rounding)
    requires AllDigits(number) && 4 <= |number| <= 15
    ensures Nearest(WholeCents(number, mode), ValueOf(number) * 100, Pow10(3 * ((|number| - 1) / 3)))
    ensures mode == RoundHalfUp ==> TieGoesUp(WholeCents(number, mode), ValueOf(number) * 100, Pow10(3 * ((|number| - 1) / 3)))
    ensures mode == RoundHalfEven ==> TieGoesEven(WholeCents(number, mode), ValueOf(number) * 100, Pow10(3 * ((|number| - 1) / 3)))
  {
    GroupExponent(|number|);
  }

  /** A whole number of more than 15 digits has no suffix: NotImplementedError. */
  lemma RoundTooLong(number: string, mode: Rounding)
    requires AllDigits(number) && |number| > 15
    ensures Round(number, mode) == Failure(NotImplementedError)
  {
    NoPointInDigits(number);
    RoundWithoutPoint(number, mode);
  }

  /** A point-free string of more than 3 characters that is not a number: `Decimal()` raises InvalidOperation. */
  lemma RoundNotANumber(number: string, mode: Rounding)
    requires '.' !in number && |number| > 3 && !AllDigits(number)
    ensures Round(number, mode) == Failure(InvalidOperation)
  {
    RoundWithoutPoint(number, mode);
  }

  lemma RoundWholeUnfold(number: string, mode: Rounding)
    requires AllDigits(number) && 4 <= |number| <= 15
    ensures Round(number, mode) == Success(FormatCents(WholeCents(number, mode)) + Suffixes[(|number| - 1) / 3])
  {
    NoPointInDigits(number);
    RoundWithoutPoint(number, mode);
  }

  /** `len % 3 or 3` leading digits leave a multiple of three digits below the suffix unit. */
  lemma GroupExponent(len: nat)
    requires 4 <= len <= 15
    ensures len - LeadingGroup(len) == 3 * ((len - 1) / 3)
  {
    if len <= 6 {
      assert (len - 1) / 3 == 1;
    } else if len <= 9 {
      assert (len - 1) / 3 == 2;
    } else if len <= 12 {
      assert (len - 1) / 3 == 3;
    } else {
      assert (len - 1) / 3 == 4;
    }
  }

  lemma NoPointInDigits(s: string)
    requires AllDigits(s)
    ensures '.' !in s
  {
    forall k | 0 <= k < |s| ensures s[k] != '.' {
      assert IsDigit(s[k]);
    }
  }

  lemma RoundWithoutPoint(number: string, mode: Rounding)
    requires number != [] && '.' !in number
    ensures Round(number, mode) == RoundWhole(number, mode)
  {
    SplitNoSep(number, '.');
  }

  /** When the whole part has more than 3 digits, the fraction is discarded before rounding. */
  lemma RoundDropsFraction(whole: string, fraction: string, mode: Rounding)
    requires |whole| > 3 && '.' !in whole && '.' !in fraction
    ensures Round(whole + "." + fraction, mode) == Round(whole, mode)
  {
    var number := whole + "." + fraction;
    assert Join([whole, fraction], '.') == number;
    SplitJoin([whole, fraction], '.');
    SplitNoSep(whole, '.');
  }

  /**
   * A number with a decimal point and at most 3 whole digits is rounded half-up to
   * hundredths; the result shows exactly two fraction digits, or none when they are zero.
   */
  lemma RoundDecimalNumber(whole: string, fraction: string, mode: Rounding) returns (cents: nat)
    requires AllDigits(whole) && AllDigits(fraction) && |whole| <= 3
    requires whole != [] || fraction != []
    ensures Round(whole + "." + fraction, mode)
            == Success(if cents % 100 == 0 then Decimal(cents / 100) else FormatCents(cents))
    ensures Nearest(cents, ScaledHundredths(whole, fraction), Pow10(|fraction|))
    ensures TieGoesUp(cents, ScaledHundredths(whole, fraction), Pow10(|fraction|))
  {
    RoundWithPoint(whole, fraction, mode);
    cents := RoundDiv(ScaledHundredths(whole, fraction), Pow10(|fraction|), RoundHalfUp);
  }

  lemma RoundWithPoint(whole: string, fraction: string, mode: Rounding)
    requires AllDigits(whole) && AllDigits(fraction) && |whole| <= 3
    ensures Round(whole + "." + fraction, mode) == RoundFraction(whole, fraction)
    ensures RoundingAfter(whole + "." + fraction, mode) == RoundHalfUp
  {
    DecimalSplit(whole, fraction);
    var number := whole + "." + fraction;
    assert number[|whole|] == '.';
  }

  /** A string without a decimal point takes the whole-number path, which leaves the rounding mode as it was. */
  lemma WholePathKeepsMode(number: string, mode: Rounding)
    requires '.' !in number
    ensures RoundingAfter(number, mode) == mode
  {
    if number != [] {
      SplitNoSep(number, '.');
    }
  }

  /** On the decimal-point path the caller's rounding mode plays no part, and is half-up afterwards. */
  lemma RoundFractionIgnoresMode(whole: string, fraction: string, mode: Rounding)
    requires AllDigits(whole) && AllDigits(fraction) && |whole| <= 3
    ensures Round(whole + "." + fraction, mode) == Round(whole + "." + fraction, RoundHalfEven)
    ensures RoundingAfter(whole + "." + fraction, mode) == RoundHalfUp
  {
    RoundWithPoint(whole, fraction, mode);
    RoundWithPoint(whole, fraction, RoundHalfEven);
  }

  lemma DecimalSplit(whole: string, fraction: string)
    requires AllDigits(whole) && AllDigits(fraction)
    ensures Split(whole + "." + fraction, '.') == [whole, fraction]
  {
    NoPointInDigits(whole);
    NoPointInDigits(fraction);
    assert Join([whole, fraction], '.') == whole + "." + fraction;
    SplitJoin([whole, fraction], '.');
  }

  lemma ThousandsGroup(len: nat)
    requires 4 <= len <= 6
    ensures len - LeadingGroup(len) == 3 && (len - 1) / 3 == 1
  {
    GroupExponent(len);
  }

  lemma MillionsGroup(len: nat)
    requires 7 <= len <= 9
    ensures len - LeadingGroup(len) == 6 && (len - 1) / 3 == 2
  {
    GroupExponent(len);
  }

  /** 4 to 6 digits: thousands. */
  lemma RoundThousands(number: string, mode: Rounding)
    requires AllDigits(number) && 4 <= |number| <= 6
    ensures Round(number, mode) == Success(FormatCents(RoundDiv(ValueOf(number) * 100, 1000, mode)) + "k")
  {
    RoundWholeUnfold(number, mode);
    ThousandsGroup(|number|);
    assert Pow10(3) == 1000;
  }

  /** 7 to 9 digits: millions. */
  lemma RoundMillions(number: string, mode: Rounding)
    requires AllDigits(number) && 7 <= |number| <= 9
    ensures Round(number, mode) == Success(FormatCents(RoundDiv(ValueOf(number) * 100, 1000000, mode)) + "M")
  {
    RoundWholeUnfold(number, mode);
    MillionsGroup(|number|);
    assert Pow10(6) == 1000000;
  }

  // Formatted hundredths used below.

  lemma Cents107()
    ensures FormatCents(107) == "1.07"
  {
    assert Decimal(1) == "1";
  }

  lemma Cents1007()
    ensures FormatCents(1007) == "10.07"
  {
    assert Decimal(1) == "1";
    assert Decimal(10) == "10";
  }

  lemma Cents749()
    ensures FormatCents(749) == "7.49"
  {
    assert Decimal(7) == "7";
  }

  lemma Cents7485()
    ensures FormatCents(7485) == "74.85"
  {
    assert Decimal(7) == "7";
    assert Decimal(74) == "74";
  }

  lemma Cents74853()
    ensures FormatCents(74853) == "748.53"
  {
    assert Decimal(7) == "7";
    assert Decimal(74) == "74";
    assert Decimal(748) == "748";
  }

  lemma Cents100()
    ensures FormatCents(100) == "1.00"
  {
    assert Decimal(1) == "1";
  }

  lemma Cents101()
    ensures FormatCents(101) == "1.01"
  {
    assert Decimal(1) == "1";
  }

  // Digit values of the literals used below, one decimal digit at a time.

  lemma DigitsOf1072()
    ensures AllDigits("1072") && ValueOf("1072") == 1072
  {
    assert Decimal(1) == "1";
    assert Decimal(10) == "10";
    assert Decimal(107) == "107";
    assert Decimal(1072) == "1072";
  }

  lemma DigitsOf10072()
    ensures AllDigits("10072") && ValueOf("10072") == 10072
  {
    assert Decimal(1) == "1";
    assert Decimal(10) == "10";
    assert Decimal(100) == "100";
    assert Decimal(1007) == "1007";
    assert Decimal(10072) == "10072";
  }

  lemma DigitsOf7485275()
    ensures AllDigits("7485275") && ValueOf("7485275") == 7485275
  {
    assert Decimal(7) == "7";
    assert Decimal(74) == "74";
    assert Decimal(748) == "748";
    assert Decimal(7485) == "7485";
    assert Decimal(74852) == "74852";
    assert Decimal(748527) == "748527";
    assert Decimal(7485275) == "7485275";
  }

  lemma DigitsOf74852750()
    ensures AllDigits("74852750") && ValueOf("74852750") == 74852750
  {
    assert Decimal(7) == "7";
    assert Decimal(74) == "74";
    assert Decimal(748) == "748";
    assert Decimal(7485) == "7485";
    assert Decimal(74852) == "74852";
    assert Decimal(748527) == "748527";
    assert Decimal(7485275) == "7485275";
    assert Decimal(74852750) == "74852750";
  }

  lemma DigitsOf748527500()
    ensures AllDigits("748527500") && ValueOf("748527500") == 748527500
  {
    assert Decimal(7) == "7";
    assert Decimal(74) == "74";
    assert Decimal(748) == "748";
    assert Decimal(7485) == "7485";
    assert Decimal(74852) == "74852";
    assert Decimal(748527) == "748527";
    assert Decimal(7485275) == "7485275";
    assert Decimal(74852750) == "74852750";
    assert Decimal(748527500) == "748527500";
  }

  lemma DigitsOf1005()
    ensures AllDigits("1005") && ValueOf("1005") == 1005
  {
    assert Decimal(1) == "1";
    assert Decimal(10) == "10";
    assert Decimal(100) == "100";
    assert Decimal(1005) == "1005";
  }

  lemma DigitsOf182()
    ensures AllDigits("182") && ValueOf("182") == 182
  {
    assert Decimal(1) == "1";
    assert Decimal(18) == "18";
    assert Decimal(182) == "182";
  }

  lemma DigitsOf445()
    ensures AllDigits("445") && ValueOf("445") == 445
  {
    assert Decimal(4) == "4";
    assert Decimal(44) == "44";
    assert Decimal(445) == "445";
  }

  lemma DigitsOf675()
    ensures AllDigits("675") && ValueOf("675") == 675
  {
    assert Decimal(6) == "6";
    assert Decimal(67) == "67";
    assert Decimal(675) == "675";
  }

  lemma DigitsOf995()
    ensures AllDigits("995") && ValueOf("995") == 995
  {
    assert Decimal(9) == "9";
    assert Decimal(99) == "99";
    assert Decimal(995) == "995";
  }

  lemma DigitsOf5()
    ensures AllDigits("5") && ValueOf("5") == 5
  {
    assert Decimal(5) == "5";
  }

  lemma DigitsOf1()
    ensures AllDigits("1") && ValueOf("1") == 1
  {
    assert Decimal(1) == "1";
  }

  lemma DigitsOf2()
    ensures AllDigits("2") && ValueOf("2") == 2
  {
    assert Decimal(2) == "2";
  }

  /** Lemma-level view of a decimal-point call, for concrete checks. */
  lemma RoundPointCase(whole: string, fraction: string, mode: Rounding, scaled: nat, scale: nat, cents: nat)
    requires AllDigits(whole) && AllDigits(fraction) && |whole| <= 3 && (whole != [] || fraction != [])
    requires scale == Pow10(|fraction|) && scaled == ScaledHundredths(whole, fraction)
    requires cents == RoundDiv(scaled, scale, RoundHalfUp)
    ensures Round(whole + "." + fraction, mode)
            == Success(if cents % 100 == 0 then Decimal(cents / 100) else FormatCents(cents))
  {
    RoundWithPoint(whole, fraction, mode);
  }

  lemma Example1072(mode: Rounding)
    ensures Round("1072", mode) == Success("1.07k")
  {
    DigitsOf1072();
    RoundThousands("1072", mode);
    assert ValueOf("1072") * 100 == 107200;
    assert RoundDiv(107200, 1000, mode) == 107;
    Cents107();
    assert FormatCents(107) + "k" == "1.07k";
  }

  lemma Example10072(mode: Rounding)
    ensures Round("10072", mode) == Success("10.07k")
  {
    DigitsOf10072();
    RoundThousands("10072", mode);
    assert ValueOf("10072") * 100 == 1007200;
    assert RoundDiv(1007200, 1000, mode) == 1007;
    Cents1007();
    assert FormatCents(1007) + "k" == "10.07k";
  }

  lemma Example7485275(mode: Rounding)
    ensures Round("7485275", mode) == Success("7.49M")
  {
    DigitsOf7485275();
    RoundMillions("7485275", mode);
    assert ValueOf("7485275") * 100 == 748527500;
    assert RoundDiv(748527500, 1000000, mode) == 749;
    Cents749();
    assert FormatCents(749) + "M" == "7.49M";
  }

  lemma Example74852750(mode: Rounding)
    ensures Round("74852750", mode) == Success("74.85M")
  {
    DigitsOf74852750();
    RoundMillions("74852750", mode);
    assert ValueOf("74852750") * 100 == 7485275000;
    assert RoundDiv(7485275000, 1000000, mode) == 7485;
    Cents7485();
    assert FormatCents(7485) + "M" == "74.85M";
  }

  lemma Example748527500(mode: Rounding)
    ensures Round("748527500", mode) == Success("748.53M")
  {
    DigitsOf748527500();
    RoundMillions("748527500", mode);
    assert ValueOf("748527500") * 100 == 74852750000;
    assert RoundDiv(74852750000, 1000000, mode) == 74853;
    Cents74853();
    assert FormatCents(74853) + "M" == "748.53M";
  }

  /** A tie on the whole-number path: the answer depends on the rounding mode left by earlier calls. */
  lemma Example1005()
    ensures Round("1005", RoundHalfEven) == Success("1.00k")
    ensures Round("1005", RoundHalfUp) == Success("1.01k")
  {
    Example1005Even();
    Example1005Up();
  }

  lemma Example1005Even()
    ensures Round("1005", RoundHalfEven) == Success("1.00k")
  {
    DigitsOf1005();
    RoundThousands("1005", RoundHalfEven);
    assert ValueOf("1005") * 100 == 100500;
    assert RoundDiv(100500, 1000, RoundHalfEven) == 100;
    Cents100();
    assert FormatCents(100) + "k" == "1.00k";
  }

  lemma Example1005Up()
    ensures Round("1005", RoundHalfUp) == Success("1.01k")
  {
    DigitsOf1005();
    RoundThousands("1005", RoundHalfUp);
    assert ValueOf("1005") * 100 == 100500;
    assert RoundDiv(100500, 1000, RoundHalfUp) == 101;
    Cents101();
    assert FormatCents(101) + "k" == "1.01k";
  }

  lemma Example182point5(mode: Rounding)
    ensures Round("182.5", mode) == Success("182.50")
  {
    DigitsOf182();
    DigitsOf5();
    assert Pow10(1) == 10;
    assert ScaledHundredths("182", "5") == 182500;
    assert RoundDiv(182500, 10, RoundHalfUp) == 18250;
    assert "182.5" == "182" + "." + "5";
    RoundPointCase("182", "5", mode, 182500, 10, 18250);
    Cents18250();
  }

  lemma Cents18250()
    ensures FormatCents(18250) == "182.50"
  {
    assert Decimal(1) == "1";
    assert Decimal(18) == "18";
    assert Decimal(182) == "182";
  }

  lemma Example1point445(mode: Rounding)
    ensures Round("1.445", mode) == Success("1.45")
  {
    DigitsOf1();
    DigitsOf445();
    assert Pow10(3) == 1000;
    assert ScaledHundredths("1", "445") == 144500;
    assert RoundDiv(144500, 1000, RoundHalfUp) == 145;
    assert "1.445" == "1" + "." + "445";
    RoundPointCase("1", "445", mode, 144500, 1000, 145);
    Cents145();
  }

  lemma Cents145()
    ensures FormatCents(145) == "1.45"
  {
    assert Decimal(1) == "1";
  }

  lemma Example2point675(mode: Rounding)
    ensures Round("2.675", mode) == Success("2.68")
  {
    DigitsOf2();
    DigitsOf675();
    assert Pow10(3) == 1000;
    assert ScaledHundredths("2", "675") == 267500;
    assert RoundDiv(267500, 1000, RoundHalfUp) == 268;
    assert "2.675" == "2" + "." + "675";
    RoundPointCase("2", "675", mode, 267500, 1000, 268);
    Cents268();
  }

  lemma Cents268()
    ensures FormatCents(268) == "2.68"
  {
    assert Decimal(2) == "2";
  }

  lemma Example1point995(mode: Rounding)
    ensures Round("1.995", mode) == Success("2")
  {
    DigitsOf1();
    DigitsOf995();
    assert Pow10(3) == 1000;
    assert ScaledHundredths("1", "995") == 199500;
    assert RoundDiv(199500, 1000, RoundHalfUp) == 200;
    assert "1.995" == "1" + "." + "995";
    RoundPointCase("1", "995", mode, 199500, 1000, 200);
    assert Decimal(2) == "2";
  }

  /** The parametrised `round_` test table and its two rejected inputs, in either rounding mode. */
  lemma RoundExamples(mode: Rounding)
    ensures Round("", mode) == Failure(ValueError)
    ensures Round("1.1.1", mode) == Failure(ValueError)
    ensures Round("379", mode) == Success("379")
    ensures Round("182.5", mode) == Success("182.50")
    ensures Round("1.445", mode) == Success("1.45")
    ensures Round("2.675", mode) == Success("2.68")
    ensures Round("1.995", mode) == Success("2")
    ensures Round("1072", mode) == Success("1.07k")
    ensures Round("10072", mode) == Success("10.07k")
    ensures Round("7485275", mode) == Success("7.49M")
    ensures Round("74852750", mode) == Success("74.85M")
    ensures Round("748527500", mode) == Success("748.53M")
  {
    assert Count("1.1.1", '.') == 2 by {
      assert "1.1.1"[1..] == ".1.1" && ".1.1"[1..] == "1.1" && "1.1"[1..] == ".1";
      assert ".1"[1..] == "1" && "1"[1..] == "";
    }
    assert '.' !in "379" by { assert "379"[0] != '.' && "379"[1] != '.' && "379"[2] != '.'; }
    Example182point5(mode);
    Example1point445(mode);
    Example2point675(mode);
    Example1point995(mode);
    Example1072(mode);
    Example10072(mode);
    Example7485275(mode);
    Example74852750(mode);
    Example748527500(mode);
  }
}
