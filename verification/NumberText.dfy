/**
 Decimal texts of numbers, after crates/xript-expr/src/value.rs: the layout of shortest digits
 (section 6.1.6.1.20 of ECMA-262), the literals the reader accepts, and fixed-point rounding
 (section 21.1.3.3 of ECMA-262).
 */
module NumberText {
  import opened Prelude
  import opened Decimal

  /** A number `count * 10^power`, with a sign. */
  datatype Scaled = Scaled(negative: bool, count: nat, power: int)

  /** Both spell the same number. */
  ghost predicate SameNumber(a: Scaled, b: Scaled) {
    && a.negative == b.negative
    && (if a.power >= b.power then a.count * Pow10(a.power - b.power) == b.count
        else a.count == b.count * Pow10(b.power - a.power))
  }

  // ----- Decimal literals -----

  predicate Signed(text: string) { text != "" && (text[0] == '+' || text[0] == '-') }

  /** The digits of a literal before its exponent, how many stand after the point, and what follows. */
  datatype Mantissa = Mantissa(digits: string, fraction: nat, rest: string)

  function ReadMantissa(body: string): (m: Mantissa)
    ensures AllDigits(m.digits)
  {
    var n := DigitCount(body);
    if n < |body| && body[n] == '.' then
      var f := DigitCount(body[n + 1..]);
      assert body[n + 1..n + 1 + f] == body[n + 1..][..f];
      Mantissa(body[..n] + body[n + 1..n + 1 + f], f, body[n + 1 + f..])
    else Mantissa(body[..n], 0, body[n..])
  }

  function Unsigned(text: string): string {
    if Signed(text) then text[1..] else text
  }

  predicate Negative(text: string) { text != "" && text[0] == '-' }

  /** What a decimal literal denotes: optional sign, digits with an optional point, optional exponent. */
  function Reading(text: string): Option<Scaled> {
    var m := ReadMantissa(Unsigned(text));
    if m.digits == "" then None
    else
      match ReadExponent(m.rest)
      case None => None
      case Some(e) => Some(Scaled(Negative(text), Number(m.digits), e - m.fraction))
  }

  /** The exponent behind a mantissa: none is zero. */
  function ReadExponent(rest: string): Option<int> {
    if rest == "" then Some(0)
    else if rest[0] != 'e' && rest[0] != 'E' then None
    else
      var body := Unsigned(rest[1..]);
      var n := DigitCount(body);
      if n == 0 || n < |body| then None
      else
        assert body[..n] == body;
        var size: int := Number(body);
        Some(if Negative(rest[1..]) then -size else size)
  }

  /** The digit run at `start`. */
  method SkipDigits(text: string, start: nat) returns (i: nat)
    requires start <= |text|
    ensures start <= i <= |text| && i == start + DigitCount(text[start..])
  {
    i := start;
    assert text[i..] == text[start..];
    while i < |text| && IsDigit(text[i])
      invariant start <= i <= |text|
      invariant DigitCount(text[start..]) == i - start + DigitCount(text[i..])
    {
      assert text[i..][1..] == text[i + 1..];
      i := i + 1;
    }
  }

  /** Where the digits and point of a literal end, and whether it has any digit. */
  method ScanMantissa(text: string) returns (i: nat, any: bool)
    ensures i <= |text| && text[i..] == ReadMantissa(Unsigned(text)).rest
    ensures any <==> ReadMantissa(Unsigned(text)).digits != ""
  {
    hide *;
    var start := SignLength(text);
    i := SkipDigits(text, start);
    any := i > start;
    if i < |text| && text[i] == '.' {
      var from, whole := i + 1, i;
      i := SkipDigits(text, from);
      any := any || i > from;
      MantissaSpan(text, start, whole, i - from);
    } else {
      MantissaSpan(text, start, i, 0);
    }
  }

  /** How many characters the sign takes. */
  function SignLength(text: string): (n: nat)
    ensures n <= |text| && text[n..] == Unsigned(text)
  {
    if Signed(text) then 1 else 0
  }

  lemma SliceOfSlice(text: string, start: nat, k: nat, end: nat)
    requires start + k == end <= |text|
    ensures text[start..][k..] == text[end..]
    ensures end < |text| ==> text[start..][k] == text[end]
  {
  }

  /** Where the mantissa of a body ends, and how many digits it has. */
  lemma MantissaAt(body: string, n: nat, f: nat)
    requires n == DigitCount(body) && f == if n < |body| && body[n] == '.' then DigitCount(body[n + 1..]) else 0
    ensures var m := ReadMantissa(body); var end := if n < |body| && body[n] == '.' then n + 1 + f else n;
      end <= |body| && m.rest == body[end..] && |m.digits| == n + f
  {
    hide DigitCount, AllDigits;
  }

  /** The same in positions of the whole text. */
  lemma MantissaSpan(text: string, start: nat, i: nat, f: nat)
    requires start <= i <= |text| && i == start + DigitCount(text[start..])
    requires f == if i < |text| && text[i] == '.' then DigitCount(text[i + 1..]) else 0
    ensures var m := ReadMantissa(text[start..]); var end := if i < |text| && text[i] == '.' then i + 1 + f else i;
      end <= |text| && m.rest == text[end..] && |m.digits| == i - start + f
  {
    hide *;
    var n := i - start;
    SliceOfSlice(text, start, n, i);
    if i < |text| && text[i] == '.' {
      SliceOfSlice(text, start, n + 1, i + 1);
      MantissaAt(text[start..], n, f);
      SliceOfSlice(text, start, n + 1 + f, i + 1 + f);
    } else {
      MantissaAt(text[start..], n, 0);
    }
  }

  method IsDecimalLiteral(text: string) returns (accepted: bool)
    ensures accepted <==> Reading(text).Some?
  {
    hide Number, ReadMantissa, ReadExponent, AllDigits;
    var i, any := ScanMantissa(text);
    if !any {
      return false;
    }
    accepted := EndsInExponent(text, i);
  }

  /** Whether nothing, or one well-formed exponent, is left from `start` on. */
  method EndsInExponent(text: string, start: nat) returns (accepted: bool)
    requires start <= |text|
    ensures accepted <==> ReadExponent(text[start..]).Some?
  {
    var i := start;
    if i < |text| && (text[i] == 'e' || text[i] == 'E') {
      i := i + 1;
      assert text[start..][1..] == text[i..];
      if i < |text| && (text[i] == '+' || text[i] == '-') {
        assert text[i..][1..] == text[i + 1..];
        i := i + 1;
      }
      assert Unsigned(text[start + 1..]) == text[i..];
      var from := i;
      i := SkipDigits(text, from);
      if i == from {
        return false;
      }
    }
    return i == |text|;
  }

  // ----- The layout of shortest digits -----

  function LayoutDigits(digits: string, point: int): string {
    var k := |digits|;
    if k <= point && point <= 21 then digits + Zeros(point - k)
    else if 0 < point && point <= 21 then digits[..point] + "." + digits[point..]
    else if -6 < point && point <= 0 then "0." + Zeros(-point) + digits
    else
      var exponent := point - 1;
      var sign := if exponent < 0 then "-" else "+";
      var mantissa := if k <= 1 then digits else digits[..1] + "." + digits[1..];
      mantissa + "e" + sign + Spelling(if exponent < 0 then -exponent else exponent)
  }

  lemma MantissaWhole(whole: string, rest: string)
    requires AllDigits(whole) && (rest == "" || (!IsDigit(rest[0]) && rest[0] != '.'))
    ensures ReadMantissa(whole + rest) == Mantissa(whole, 0, rest)
  {
    DigitCountOfSum(whole, rest);
    assert (whole + rest)[..|whole|] == whole && (whole + rest)[|whole|..] == rest;
  }

  lemma MantissaPointed(whole: string, fraction: string, rest: string)
    requires AllDigits(whole) && AllDigits(fraction) && (rest == "" || !IsDigit(rest[0]))
    ensures ReadMantissa(whole + ("." + (fraction + rest))) == Mantissa(whole + fraction, |fraction|, rest)
  {
    hide DigitCount, AllDigits;
    var after := fraction + rest;
    var body := whole + ("." + after);
    DigitCountOfSum(whole, "." + after);
    DigitCountOfSum(fraction, rest);
    assert body[..|whole|] == whole && body[|whole| + 1..] == after;
    assert body[|whole| + 1..|whole| + 1 + |fraction|] == fraction && body[|whole| + 1 + |fraction|..] == rest;
  }

  lemma ExponentReads(negative: bool, digits: string)
    requires AllDigits(digits) && digits != ""
    ensures ReadExponent("e" + ((if negative then "-" else "+") + digits))
         == Some(if negative then -(Number(digits) as int) else Number(digits) as int)
  {
    hide Number, DigitCount;
    var sign := if negative then "-" else "+";
    var rest := "e" + (sign + digits);
    assert rest[1..] == sign + digits && (sign + digits)[1..] == digits;
    assert Unsigned(sign + digits) == digits;
    DigitCountOfSum(digits, "");
    assert digits + "" == digits;
  }

  /** A text that starts with a digit carries no sign. */
  lemma ReadsUnsigned(text: string, m: Mantissa, e: int)
    requires text != "" && IsDigit(text[0]) && ReadMantissa(text) == m && m.digits != ""
    requires ReadExponent(m.rest) == Some(e)
    ensures Reading(text) == Some(Scaled(false, Number(m.digits), e - m.fraction))
  {
    hide ReadMantissa, ReadExponent, Number;
  }

  /** Every laid-out text is an accepted literal and denotes `0.d1...dk * 10^point`. */
  lemma LayoutDenotes(digits: string, point: int)
    requires AllDigits(digits) && digits != ""
    ensures Reading(LayoutDigits(digits, point)).Some?
    ensures SameNumber(Reading(LayoutDigits(digits, point)).value, Scaled(false, Number(digits), point - |digits|))
  {
    hide Reading, LayoutDigits, SameNumber, Number;
    if |digits| <= point && point <= 21 {
      LayoutPadded(digits, point);
    } else if 0 < point && point <= 21 {
      LayoutPointed(digits, point);
    } else if -6 < point && point <= 0 {
      LayoutSmall(digits, point);
    } else {
      LayoutExponent(digits, point);
    }
    SameAsItself(Scaled(false, Number(digits), point - |digits|));
  }

  lemma SameAsItself(a: Scaled)
    ensures SameNumber(a, a)
  {
  }

  lemma LayoutPadded(digits: string, point: int)
    requires AllDigits(digits) && digits != "" && |digits| <= point <= 21
    ensures Reading(LayoutDigits(digits, point)).Some?
    ensures SameNumber(Reading(LayoutDigits(digits, point)).value, Scaled(false, Number(digits), point - |digits|))
  {
    hide *;
    var zeros := Zeros(point - |digits|);
    DigitsJoin(digits, zeros);
    NumberOfSum(digits, zeros);
    NumberOfZeros(point - |digits|);
    PaddedText(digits, point);
    ReadsWhole(digits + zeros, "", 0);
    SameScaled(Number(digits), point - |digits|);
  }

  lemma SameScaled(count: nat, power: nat)
    ensures SameNumber(Scaled(false, count * Pow10(power), 0), Scaled(false, count, power))
  {
  }

  // What each branch of the layout spells.

  lemma PaddedText(digits: string, point: int)
    requires |digits| <= point <= 21
    ensures LayoutDigits(digits, point) == digits + Zeros(point - |digits|) + ""
  {
    hide Zeros, Spelling;
    assert digits + Zeros(point - |digits|) + "" == digits + Zeros(point - |digits|);
  }

  lemma PointedText(digits: string, point: int)
    requires 0 < point < |digits| && point <= 21
    ensures LayoutDigits(digits, point) == digits[..point] + ("." + (digits[point..] + ""))
  {
    hide Zeros, Spelling;
    PointRegroups(digits[..point], digits[point..], "");
  }

  lemma SmallText(digits: string, point: int)
    requires digits != "" && -6 < point <= 0
    ensures LayoutDigits(digits, point) == "0" + ("." + (Zeros(-point) + digits + ""))
  {
    hide Zeros, Spelling;
    PointRegroups("0", Zeros(-point) + digits, "");
    assert "0" + "." == "0.";
    Regrouped("0.", Zeros(-point), digits);
  }

  lemma ScientificText(digits: string, point: int)
    requires digits != "" && (point > 21 || point <= -6)
    ensures var rest := ExponentText(point - 1);
      LayoutDigits(digits, point) == if |digits| == 1 then digits + rest else digits[..1] + ("." + (digits[1..] + rest))
  {
    hide *;
    ScientificParts(digits, point);
    if |digits| != 1 {
      PointRegroups(digits[..1], digits[1..], ExponentText(point - 1));
    }
  }

  /** The exponent form: the digits with a point behind the first, where there are more, then the exponent. */
  lemma ScientificParts(digits: string, point: int)
    requires digits != "" && (point > 21 || point <= -6)
    ensures LayoutDigits(digits, point)
      == (if |digits| == 1 then digits else digits[..1] + "." + digits[1..]) + ExponentText(point - 1)
  {
    hide Zeros, Spelling;
    var e := point - 1;
    var mantissa := if |digits| == 1 then digits else digits[..1] + "." + digits[1..];
    FourRegroup(mantissa, if e < 0 then "-" else "+", Spelling(if e < 0 then -e else e));
  }

  lemma FourRegroup(mantissa: string, sign: string, size: string)
    ensures mantissa + "e" + sign + size == mantissa + ("e" + (sign + size))
  {
    Regrouped(mantissa, "e", sign);
    Regrouped(mantissa, "e" + sign, size);
    Regrouped("e", sign, size);
  }

  lemma PointRegroups(a: string, b: string, c: string)
    ensures a + "." + b + c == a + ("." + (b + c))
    ensures c == "" ==> a + "." + b == a + ("." + (b + c))
  {
  }

  function ExponentText(e: int): string {
    "e" + ((if e < 0 then "-" else "+") + Spelling(if e < 0 then -e else e))
  }

  lemma ExponentTextReads(e: int)
    ensures ReadExponent(ExponentText(e)) == Some(e)
    ensures ExponentText(e) != "" && !IsDigit(ExponentText(e)[0]) && ExponentText(e)[0] != '.'
  {
    hide ReadExponent, Number, Spelling;
    var size := if e < 0 then -e else e;
    ExponentReads(e < 0, Spelling(size));
    SpellingSpells(size);
  }

  lemma NoExponent()
    ensures ReadExponent("") == Some(0)
  {
  }

  /** A whole mantissa with a readable tail. */
  lemma ReadsWhole(whole: string, rest: string, e: int)
    requires AllDigits(whole) && whole != "" && (rest == "" || (!IsDigit(rest[0]) && rest[0] != '.'))
    requires rest == "" ==> e == 0
    requires rest != "" ==> ReadExponent(rest) == Some(e)
    ensures Reading(whole + rest) == Some(Scaled(false, Number(whole), e))
  {
    hide Reading, Number, ReadMantissa, ReadExponent;
    MantissaWhole(whole, rest);
    NoExponent();
    ReadsUnsigned(whole + rest, Mantissa(whole, 0, rest), e);
  }

  /** A pointed mantissa with a readable tail. */
  lemma ReadsPointed(whole: string, fraction: string, rest: string, e: int)
    requires AllDigits(whole) && whole != "" && AllDigits(fraction) && AllDigits(whole + fraction)
    requires rest == "" || !IsDigit(rest[0])
    requires rest == "" ==> e == 0
    requires rest != "" ==> ReadExponent(rest) == Some(e)
    ensures Reading(whole + ("." + (fraction + rest))) == Some(Scaled(false, Number(whole + fraction), e - |fraction|))
  {
    hide Reading, Number, ReadMantissa, ReadExponent;
    MantissaPointed(whole, fraction, rest);
    NoExponent();
    ReadsUnsigned(whole + ("." + (fraction + rest)), Mantissa(whole + fraction, |fraction|, rest), e);
  }

  lemma LayoutPointed(digits: string, point: int)
    requires AllDigits(digits) && 0 < point < |digits| && point <= 21
    ensures Reading(LayoutDigits(digits, point)) == Some(Scaled(false, Number(digits), point - |digits|))
  {
    hide *;
    PointedText(digits, point);
    DigitsSplit(digits, point);
    ReadsPointed(digits[..point], digits[point..], "", 0);
  }

  lemma LayoutSmall(digits: string, point: int)
    requires AllDigits(digits) && digits != "" && -6 < point <= 0
    ensures Reading(LayoutDigits(digits, point)) == Some(Scaled(false, Number(digits), point - |digits|))
  {
    hide *;
    var zeros := Zeros(-point);
    LeadingZeros(-point, digits);
    SmallText(digits, point);
    ReadsPointed("0", zeros + digits, "", 0);
  }

  lemma LeadingZeros(n: nat, digits: string)
    requires AllDigits(digits)
    ensures AllDigits("0") && AllDigits(Zeros(n) + digits) && AllDigits("0" + (Zeros(n) + digits))
    ensures Number("0" + (Zeros(n) + digits)) == Number(digits)
  {
    hide Number;
    NumberOfZeros(1);
    assert Zeros(1) == Zeros(0) + "0" == "0";
    NumberOfSum("0", Zeros(n) + digits);
    NumberOfSum(Zeros(n), digits);
    NumberOfZeros(n);
  }

  lemma LayoutExponent(digits: string, point: int)
    requires AllDigits(digits) && digits != "" && (point > 21 || point <= -6)
    ensures Reading(LayoutDigits(digits, point)) == Some(Scaled(false, Number(digits), point - |digits|))
  {
    hide *;
    ScientificText(digits, point);
    ExponentTextReads(point - 1);
    if |digits| == 1 {
      ReadsWhole(digits, ExponentText(point - 1), point - 1);
    } else {
      DigitsSplit(digits, 1);
      ReadsPointed(digits[..1], digits[1..], ExponentText(point - 1), point - 1);
    }
  }
}
