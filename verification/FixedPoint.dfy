/**
 Fixed-point texts, after `format_fixed` of crates/xript-expr/src/value.rs: the exact digits of a
 number, cut after the wanted places, with a carry loop that rounds a half away from zero.
 */
module FixedPoint {
  import opened Prelude
  import opened Decimal
  import opened NumberText

  /** The exact decimal expansion of a number, as far as it goes. */
  datatype Exact = Exact(negative: bool, whole: string, fraction: string)

  ghost predicate IsExact(x: Exact) {
    x.whole != "" && AllDigits(x.whole) && AllDigits(x.fraction)
  }

  /** `r` is the integer nearest to `n / p`, the larger one on a tie (section 21.1.3.3 of ECMA-262). */
  ghost predicate NearestTiesUp(n: nat, p: nat, r: nat) {
    2 * n - p < 2 * (r * p) <= 2 * n + p
  }

  /** Nothing lies nearer, and of two equally near integers it is the larger. */
  lemma NearestTiesUpIsNearest(n: nat, p: nat, r: nat, other: nat)
    requires p > 0 && NearestTiesUp(n, p, r)
    ensures Distance(r * p, n) <= Distance(other * p, n)
    ensures Distance(r * p, n) == Distance(other * p, n) ==> other <= r
  {
    if other < r {
      assert other * p + p <= r * p by { MulStep(other, r, p); }
    } else if other > r {
      assert r * p + p <= other * p by { MulStep(r, other, p); }
    }
  }

  lemma MulStep(a: nat, b: nat, p: nat)
    requires a < b
    ensures a * p + p <= b * p
  {
    assert (a + 1) * p <= b * p;
  }

  /** The first `places` digits after the point, kept behind the whole part, and what is cut off. */
  lemma CutAt(whole: string, fraction: string, places: nat)
    requires AllDigits(whole) && AllDigits(fraction) && places < |fraction|
    ensures AllDigits(whole + fraction[..places]) && AllDigits(fraction[places..])
    ensures AllDigits(whole + fraction)
    ensures Number(whole + fraction)
         == Number(whole + fraction[..places]) * Pow10(|fraction| - places) + Number(fraction[places..])
  {
    hide Number, Pow10;
    var kept, cut := whole + fraction[..places], fraction[places..];
    assert whole + fraction == kept + cut;
    NumberOfSum(kept, cut);
  }

  /** The first digit cut off says whether at least half is cut off. */
  lemma FirstCutDecides(cut: string)
    requires cut != "" && AllDigits(cut)
    ensures DigitOf(cut[0]) >= 5 <==> 2 * Number(cut) >= Pow10(|cut|)
  {
    hide Number, DigitOf;
    var rest := cut[1..];
    assert cut == [cut[0]] + rest;
    NumberOfSum([cut[0]], rest);
    OneDigit(cut[0]);
    HalfOfDigit(DigitOf(cut[0]), Pow10(|rest|), Number(rest));
  }

  lemma HalfOfDigit(d: nat, p: nat, r: nat)
    requires r < p
    ensures d >= 5 <==> 2 * (d * p + r) >= 10 * p
  {
    if d >= 5 {
      assert d * p >= 5 * p;
    } else {
      assert d * p <= 4 * p;
    }
  }

  /** `kept` with one added in its last place, carrying. */
  method AddOne(kept: string) returns (r: string)
    requires AllDigits(kept)
    ensures AllDigits(r) && |kept| <= |r| <= |kept| + 1
    ensures Number(r) == Number(kept) + 1
  {
    hide Number, Pow10, Zeros, DigitOf;
    r := kept;
    var i := |r|;
    AllOfIt(kept);
    while true
      invariant 0 <= i <= |kept| == |r|
      invariant r == kept[..i] + Zeros(|kept| - i)
      invariant AllDigits(kept[..i])
      invariant (Number(kept[..i]) + 1) * Pow10(|kept| - i) == Number(kept) + 1
      decreases i
    {
      if i == 0 {
        LeadingOne(kept);
        r := "1" + r;
        return;
      }
      i := i - 1;
      DigitReplaced(kept, i);
      if r[i] == '9' {
        NineCarries(kept, i);
        r := r[i := '0'];
      } else {
        DigitRises(kept, i);
        r := r[i := DigitChar(DigitOf(r[i]) + 1)];
        return;
      }
    }
  }

  lemma AllOfIt(kept: string)
    requires AllDigits(kept)
    ensures kept == kept[..|kept|] + Zeros(0) && (Number(kept[..|kept|]) + 1) * Pow10(0) == Number(kept) + 1
  {
    assert kept[..|kept|] == kept && kept + "" == kept;
  }

  lemma {:induction false} ZeroInFront(n: nat)
    requires n > 0
    ensures Zeros(n) == "0" + Zeros(n - 1)
  {
    if n > 1 {
      ZeroInFront(n - 1);
    }
  }

  /** Behind `kept[..i + 1]` stand zeros: the digit at `i` is still the old one, and what replacing it gives. */
  lemma DigitReplaced(kept: string, i: nat)
    requires i < |kept|
    ensures var r := kept[..i + 1] + Zeros(|kept| - i - 1);
      && r[i] == kept[i]
      && r[i := '0'] == kept[..i] + Zeros(|kept| - i)
      && forall c :: r[i := c] == kept[..i] + [c] + Zeros(|kept| - i - 1)
  {
    hide Zeros;
    ZeroInFront(|kept| - i);
  }

  lemma LeadingOne(kept: string)
    requires AllDigits(kept) && (Number(kept[..0]) + 1) * Pow10(|kept|) == Number(kept) + 1
    ensures AllDigits("1" + Zeros(|kept|)) && Number("1" + Zeros(|kept|)) == Number(kept) + 1
    ensures kept[..0] + Zeros(|kept|) == Zeros(|kept|)
  {
    hide Number, Pow10;
    NumberOfSum("1", Zeros(|kept|));
    NumberOfZeros(|kept|);
    OneDigit('1');
    assert ['1'] == "1";
    NothingSpelled();
    assert kept[..0] == "";
  }

  lemma NineCarries(kept: string, i: nat)
    requires AllDigits(kept) && i < |kept| && kept[i] == '9'
    requires (Number(kept[..i + 1]) + 1) * Pow10(|kept| - i - 1) == Number(kept) + 1
    ensures (Number(kept[..i]) + 1) * Pow10(|kept| - i) == Number(kept) + 1
  {
    hide Number;
    assert kept[..i + 1] == kept[..i] + [kept[i]];
    LastDigit(kept[..i], kept[i]);
    TenTimesMore(Number(kept[..i]), Pow10(|kept| - i - 1));
  }

  lemma TenTimesMore(x: nat, p: nat)
    ensures (10 * x + 9 + 1) * p == (x + 1) * (10 * p)
  {
  }

  lemma DigitRises(kept: string, i: nat)
    requires AllDigits(kept) && i < |kept| && kept[i] != '9'
    requires (Number(kept[..i + 1]) + 1) * Pow10(|kept| - i - 1) == Number(kept) + 1
    ensures DigitOf(kept[i]) < 9
    ensures var r := kept[..i] + [DigitChar(DigitOf(kept[i]) + 1)] + Zeros(|kept| - i - 1);
      AllDigits(r) && Number(r) == Number(kept) + 1
  {
    hide Number, Pow10, AllDigits, DigitOf;
    DigitBelowNine(kept, i);
    var up := DigitChar(DigitOf(kept[i]) + 1);
    assert kept[..i + 1] == kept[..i] + [kept[i]];
    DigitsSplit(kept, i);
    OneDigitText(up);
    DigitsJoin(kept[..i], [up]);
    DigitsJoin(kept[..i] + [up], Zeros(|kept| - i - 1));
    LastDigit(kept[..i], kept[i]);
    LastDigit(kept[..i], up);
    NumberOfSum(kept[..i] + [up], Zeros(|kept| - i - 1));
    NumberOfZeros(|kept| - i - 1);
  }

  lemma DigitBelowNine(kept: string, i: nat)
    requires AllDigits(kept) && i < |kept| && kept[i] != '9'
    ensures IsDigit(kept[i]) && DigitOf(kept[i]) < 9
  {
  }

  lemma OneDigitText(c: char)
    requires IsDigit(c)
    ensures AllDigits([c])
  {
  }

  /**
   The digits kept for `places`, rounded: as an integer, the nearest to the number times ten to the `places`.
   With more places than there are digits, all the digits.
   */
  method RoundKept(whole: string, fraction: string, places: nat) returns (kept: string)
    requires AllDigits(whole) && AllDigits(fraction)
    ensures AllDigits(kept) && AllDigits(whole + fraction)
    ensures places <= |fraction| ==>
      && |kept| >= |whole| + places
      && NearestTiesUp(Number(whole + fraction), Pow10(|fraction| - places), Number(kept))
    ensures places >= |fraction| ==> kept == whole + fraction
  {
    hide Number, Pow10;
    DigitsJoin(whole, fraction);
    if places >= |fraction| {
      kept := whole + fraction;
      ItsOwnNearest(Number(kept));
      return;
    }
    kept := whole + fraction[..places];
    ghost var cut := fraction[places..];
    CutAt(whole, fraction, places);
    FirstCutDecides(cut);
    ghost var k, p, c := Number(kept), Pow10(|fraction| - places), Number(cut);
    assert (k + 1) * p == k * p + p;
    if DigitOf(fraction[places]) >= 5 {
      kept := AddOne(kept);
    }
  }

  lemma ItsOwnNearest(n: nat)
    ensures NearestTiesUp(n, Pow10(0), n)
  {
  }

  /** The text of rounded digits, cut so that `places` of them follow the point. */
  function FixedText(negative: bool, kept: string, places: nat): string
    requires places <= |kept|
  {
    var split := |kept| - places;
    (if negative then "-" else "") + kept[..split] + (if places == 0 then "" else "." + kept[split..])
  }

  /**
   `toFixed` from a number's exact digits. `plain` is the number's ordinary text, which stands in
   from 1e21 up. None is a split before the first digit, which the code does not survive.
   */
  method FormatFixed(x: Exact, places: nat, plain: string) returns (text: Option<string>, ghost kept: string)
    requires IsExact(x)
    ensures Number(x.whole) >= Pow10(21) ==> text == Some(plain)
    ensures Number(x.whole) < Pow10(21) ==>
      && AllDigits(kept) && AllDigits(x.whole + x.fraction)
      && text == (if places <= |kept| then Some(FixedText(x.negative, kept, places)) else None)
      && (places <= |x.fraction| ==>
           && |kept| >= |x.whole| + places
           && NearestTiesUp(Number(x.whole + x.fraction), Pow10(|x.fraction| - places), Number(kept)))
      && (places >= |x.fraction| ==> kept == x.whole + x.fraction)
  {
    hide Number, Pow10;
    if Number(x.whole) >= Pow10(21) {
      return Some(plain), "";
    }
    var rounded := RoundKept(x.whole, x.fraction, places);
    kept := rounded;
    if places > |rounded| {
      text := None;
      return;
    }
    var split := |rounded| - places;
    var sign := if x.negative then "-" else "";
    if places == 0 {
      assert sign + rounded[..split] + "" == sign + rounded[..split];
      text := Some(sign + rounded[..split]);
    } else {
      text := Some(sign + rounded[..split] + ("." + rounded[split..]));
    }
  }

  /**
   Asked for at most as many places as the expansion has digits, the text denotes the rounded number; asked
   for more, it denotes the number only if that is zero.
   */
  lemma PlacesPastTheDigits(x: Exact, places: nat)
    requires IsExact(x) && |x.fraction| < places < |x.whole| + |x.fraction|
    ensures AllDigits(x.whole + x.fraction)
    ensures var kept := x.whole + x.fraction;
      var read := Reading(FixedText(x.negative, kept, places));
      && read.Some?
      && (SameNumber(read.value, Scaled(x.negative, Number(kept), 0 - |x.fraction|)) <==> Number(kept) == 0)
  {
    hide Reading, Number, AllDigits, FixedText;
    var kept := x.whole + x.fraction;
    DigitsJoin(x.whole, x.fraction);
    FixedTextDenotes(x.negative, kept, places);
    MoreIsLess(Number(kept), places - |x.fraction|);
  }

  lemma MoreIsLess(n: nat, k: nat)
    requires k > 0
    ensures n == n * Pow10(k) <==> n == 0
  {
    hide Pow10;
    Pow10Step(k - 1);
    if n > 0 {
      assert n * Pow10(k) >= n * 10 by { TenFold(n, Pow10(k)); }
    }
  }

  lemma TenFold(n: nat, p: nat)
    requires p >= 10
    ensures n * p >= n * 10
  {
  }

  /** A fixed text is a decimal literal that denotes the rounded digits over ten to the `places`. */
  lemma FixedTextDenotes(negative: bool, kept: string, places: nat)
    requires AllDigits(kept) && places < |kept|
    ensures Reading(FixedText(negative, kept, places)) == Some(Scaled(negative, Number(kept), 0 - places))
  {
    hide *;
    var split := |kept| - places;
    DigitsSplit(kept, split);
    if places == 0 {
      WholeText(kept);
      ReadsWhole(kept, "", 0);
    } else {
      FractionText(kept, places);
      ReadsPointed(kept[..split], kept[split..], "", 0);
    }
    if negative {
      NegativeText(kept, places);
      NegativeReads(FixedText(false, kept, places));
    }
  }

  lemma WholeText(kept: string)
    ensures FixedText(false, kept, 0) == kept + ""
  {
    assert kept[..|kept|] == kept;
  }

  lemma FractionText(kept: string, places: nat)
    requires 0 < places <= |kept|
    ensures FixedText(false, kept, places) == kept[..|kept| - places] + ("." + (kept[|kept| - places..] + ""))
  {
  }

  lemma NegativeText(kept: string, places: nat)
    requires AllDigits(kept) && places < |kept|
    ensures FixedText(true, kept, places) == "-" + FixedText(false, kept, places)
    ensures FixedText(false, kept, places) != "" && IsDigit(FixedText(false, kept, places)[0])
  {
    FirstOfDigits(kept);
  }

  lemma FirstOfDigits(kept: string)
    requires AllDigits(kept) && kept != ""
    ensures IsDigit(kept[0])
  {
  }

  lemma NegativeReads(text: string)
    requires text != "" && IsDigit(text[0]) && Reading(text).Some?
    ensures Reading("-" + text) == Some(Reading(text).value.(negative := true))
  {
    hide ReadMantissa, ReadExponent, Number;
    assert Unsigned("-" + text) == text;
  }
}
