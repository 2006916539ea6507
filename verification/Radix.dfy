/**
 Integers in a power-of-two radix, after `radix_integer` of crates/xript-expr/src/value.rs: the bits
 are cut to a 53-bit significand, rounded to nearest with ties to even, however many there are.
 */
module Radix {
  import opened Prelude

  /** A double without sign or fraction: `mantissa * 2^exponent`, or too large. */
  datatype Double = Finite(mantissa: nat, exponent: nat) | Infinite

  function Pow2(n: nat): (p: nat)
    ensures p >= 1
  {
    if n == 0 then 1 else 2 * Pow2(n - 1)
  }

  lemma {:induction false} Pow2Sum(a: nat, b: nat)
    ensures Pow2(a + b) == Pow2(a) * Pow2(b)
  {
    if a > 0 {
      Pow2Sum(a - 1, b);
    }
  }

  lemma Pow2Step(n: nat)
    ensures Pow2(n + 1) == 2 * Pow2(n)
  {
  }

  lemma Pow2Grows(a: nat, b: nat)
    requires a <= b
    ensures Pow2(a) <= Pow2(b)
  {
    Pow2Sum(a, b - a);
    MulAtLeast(Pow2(a), 1, Pow2(b - a));
  }

  lemma MulAtLeast(p: nat, a: nat, b: nat)
    requires a <= b
    ensures p * a <= p * b && a * p <= b * p
  {
  }

  // ----- What digits and bits spell -----

  /** The value of a digit, in any radix up to 36. */
  function DigitValue(c: char): Option<nat> {
    if '0' <= c <= '9' then Some((c as int - '0' as int) as nat)
    else if 'a' <= c <= 'z' then Some((c as int - 'a' as int) as nat + 10)
    else if 'A' <= c <= 'Z' then Some((c as int - 'A' as int) as nat + 10)
    else None
  }

  predicate InRadix(c: char, width: nat) { DigitValue(c).Some? && DigitValue(c).value < Pow2(width) }

  ghost predicate AllInRadix(digits: string, width: nat) {
    forall i :: 0 <= i < |digits| ==> InRadix(digits[i], width)
  }

  /** The integer a digit text spells in radix `2^width`. */
  ghost function RadixValue(digits: string, width: nat): nat
    requires AllInRadix(digits, width)
  {
    if digits == "" then 0
    else RadixValue(digits[..|digits| - 1], width) * Pow2(width) + DigitValue(digits[|digits| - 1]).value
  }

  /** The integer a bit sequence spells, most significant first. */
  function BitsValue(bits: seq<bool>): (n: nat)
    ensures n < Pow2(|bits|)
  {
    if bits == [] then 0
    else 2 * BitsValue(bits[..|bits| - 1]) + if bits[|bits| - 1] then 1 else 0
  }

  lemma {:induction false} BitsOfSum(a: seq<bool>, b: seq<bool>)
    ensures BitsValue(a + b) == BitsValue(a) * Pow2(|b|) + BitsValue(b)
    decreases |b|
  {
    hide BitsValue, Pow2;
    if b == [] {
      assert a + b == a;
      Nothing(b);
      NoShift();
    } else {
      var front, last := b[..|b| - 1], b[|b| - 1];
      BitsOfSum(a, front);
      assert a + b == a + front + [last] && b == front + [last];
      LastBit(a + front, last);
      LastBit(front, last);
      TwiceTimes(BitsValue(a), Pow2(|front|));
      Pow2Step(|front|);
    }
  }

  lemma LastBit(front: seq<bool>, last: bool)
    ensures BitsValue(front + [last]) == 2 * BitsValue(front) + if last then 1 else 0
  {
    assert (front + [last])[..|front|] == front;
  }

  lemma TwiceTimes(x: nat, p: nat)
    ensures x * (2 * p) == 2 * (x * p)
  {
  }

  /** Leading zeros spell nothing. */
  lemma {:induction false} LeadingZeros(bits: seq<bool>, k: nat)
    requires k <= |bits| && forall i :: 0 <= i < k ==> !bits[i]
    ensures BitsValue(bits) == BitsValue(bits[k..])
  {
    assert bits == bits[..k] + bits[k..];
    BitsOfSum(bits[..k], bits[k..]);
    AllZero(bits[..k]);
  }

  lemma {:induction false} AllZero(bits: seq<bool>)
    requires forall i :: 0 <= i < |bits| ==> !bits[i]
    ensures BitsValue(bits) == 0
  {
    if bits != [] {
      AllZero(bits[..|bits| - 1]);
    }
  }

  /** A leading one makes the value at least half of what the length allows. */
  lemma LeadingOne(bits: seq<bool>)
    requires bits != [] && bits[0]
    ensures BitsValue(bits) >= Pow2(|bits| - 1)
  {
    hide Pow2, BitsValue;
    assert bits == [true] + bits[1..];
    BitsOfSum([true], bits[1..]);
    OneBit(true);
  }

  lemma OneBit(bit: bool)
    ensures BitsValue([bit]) == if bit then 1 else 0
  {
    assert [bit][..0] == [];
  }

  /** The value is zero exactly when no bit is set. */
  lemma {:induction false} ZeroWhenNoneSet(bits: seq<bool>)
    ensures BitsValue(bits) > 0 <==> exists i :: 0 <= i < |bits| && bits[i]
  {
    if bits != [] {
      var front := bits[..|bits| - 1];
      ZeroWhenNoneSet(front);
      assert forall i :: 0 <= i < |front| ==> front[i] == bits[i];
    }
  }

  // ----- Spelling the bits of each digit -----

  function ShiftRight(d: nat, k: nat): nat {
    if k == 0 then d else ShiftRight(d / 2, k - 1)
  }

  /** The `width` low bits of a digit, the highest first. */
  function DigitBits(d: nat, width: nat): (bits: seq<bool>)
    ensures |bits| == width
  {
    seq(width, i requires 0 <= i < width => ShiftRight(d, width - 1 - i) % 2 == 1)
  }

  lemma {:induction false} DigitBitsSpell(d: nat, width: nat)
    requires d < Pow2(width)
    ensures BitsValue(DigitBits(d, width)) == d
  {
    if width > 0 {
      DigitBitsSpell(d / 2, width - 1);
      forall i | 0 <= i < width - 1 ensures DigitBits(d, width)[i] == DigitBits(d / 2, width - 1)[i] {
        assert ShiftRight(d, width - 1 - i) == ShiftRight(d / 2, width - 2 - i);
      }
      assert DigitBits(d, width)[..width - 1] == DigitBits(d / 2, width - 1);
      assert ShiftRight(d, 0) == d;
    }
  }

  method CollectBits(digits: string, width: nat) returns (r: Option<seq<bool>>)
    ensures r.Some? <==> AllInRadix(digits, width)
    ensures r.Some? ==> BitsValue(r.value) == RadixValue(digits, width)
  {
    hide BitsValue, Pow2, DigitBits;
    var bits: seq<bool> := [];
    NoDigits(width);
    for i := 0 to |digits|
      invariant AllInRadix(digits[..i], width)
      invariant BitsValue(bits) == RadixValue(digits[..i], width)
    {
      var c := digits[i];
      if !InRadix(c, width) {
        return None;
      }
      OneMoreDigit(digits, i, width);
      BitsOfSum(bits, DigitBits(DigitValue(c).value, width));
      bits := bits + DigitBits(DigitValue(c).value, width);
    }
    assert digits[..|digits|] == digits;
    return Some(bits);
  }

  lemma NoDigits(width: nat)
    ensures RadixValue("", width) == 0 == BitsValue([])
  {
  }

  lemma OneMoreDigit(digits: string, i: nat, width: nat)
    requires i < |digits| && AllInRadix(digits[..i], width) && InRadix(digits[i], width)
    ensures AllInRadix(digits[..i + 1], width)
    ensures BitsValue(DigitBits(DigitValue(digits[i]).value, width)) == DigitValue(digits[i]).value
    ensures RadixValue(digits[..i + 1], width)
         == RadixValue(digits[..i], width) * Pow2(width) + DigitValue(digits[i]).value
  {
    hide BitsValue, Pow2, DigitBits;
    assert digits[..i + 1][..i] == digits[..i];
    DigitBitsSpell(DigitValue(digits[i]).value, width);
  }

  // ----- Rounding -----

  /** `m * 2^e` is no farther from `n` than `m1 * 2^e1`; if both are equally far, `m` is even or they are equal. */
  ghost predicate AsNear(n: nat, m: nat, e: nat, m1: nat, e1: nat) {
    var here, there := m * Pow2(e), m1 * Pow2(e1);
    && Distance(here, n) <= Distance(there, n)
    && (Distance(here, n) == Distance(there, n) ==> here == there || m % 2 == 0)
  }

  /** `m * 2^e` is the value with a 53-bit significand nearest to `n`, ties to even. */
  ghost predicate NearestDouble(n: nat, m: nat, e: nat) {
    && m < Pow2(53)
    && (e > 0 ==> Pow2(52) <= m)
    && forall m1: nat, e1: nat :: m1 < Pow2(53) ==> AsNear(n, m, e, m1, e1)
  }

  /** From here on a rounded value has no double: halfway between the largest one and `2^1024`. */
  ghost predicate Overflows(n: nat) { n >= (Pow2(54) - 1) * Pow2(970) }

  /** `m * p` is a multiple of `p` nearest to `n`, even on a tie. */
  ghost predicate NearestMultiple(n: nat, p: nat, m: nat) {
    && 2 * n - p <= 2 * (m * p) <= 2 * n + p
    && (2 * (m * p) == 2 * n - p || 2 * (m * p) == 2 * n + p ==> m % 2 == 0)
  }

  /** Among the multiples of `p`, none is nearer. */
  lemma NoMultipleIsNearer(n: nat, p: nat, m: nat, other: nat)
    requires p > 0 && NearestMultiple(n, p, m)
    ensures Distance(m * p, n) <= Distance(other * p, n)
    ensures Distance(m * p, n) == Distance(other * p, n) ==> m == other || m % 2 == 0
  {
    if other < m {
      MulAtLeast(p, other + 1, m);
      assert (other + 1) * p == other * p + p;
    } else if other > m {
      MulAtLeast(p, m + 1, other);
      assert (m + 1) * p == m * p + p;
    }
  }

  /** A candidate with a smaller exponent lies below every 53-bit multiple of `2^e`. */
  lemma SmallerExponentLiesBelow(m1: nat, e1: nat, e: nat)
    requires m1 < Pow2(53) && e1 < e
    ensures m1 * Pow2(e1) < Pow2(52) * Pow2(e)
  {
    hide Pow2;
    Pow2Step(52);
    Pow2Step(e - 1);
    Pow2Grows(e1, e - 1);
    MulAtLeast(m1, Pow2(e1), Pow2(e - 1));
    HalfOfEach(m1, Pow2(52), Pow2(e - 1));
  }

  lemma HalfOfEach(m: nat, q: nat, p: nat)
    requires m < 2 * q && p > 0
    ensures m * p < q * (2 * p)
  {
    MulAtLeast(p, m + 1, 2 * q);
    assert (m + 1) * p == m * p + p;
    assert 2 * q * p == q * (2 * p);
  }

  /** The nearest multiple of `2^e` is nearest among all values of a 53-bit significand. */
  lemma NearestOfAll(n: nat, floor: nat, e: nat, m: nat, m1: nat, e1: nat)
    requires Pow2(52) <= floor && floor * Pow2(e) <= n && NearestMultiple(n, Pow2(e), m) && m1 < Pow2(53)
    ensures AsNear(n, m, e, m1, e1)
  {
    hide Pow2, NearestMultiple;
    var p := Pow2(e);
    if e1 >= e {
      Pow2Sum(e1 - e, e);
      assert m1 * Pow2(e1) == (m1 * Pow2(e1 - e)) * p by { Reassociated(m1, Pow2(e1 - e), p); }
      NoMultipleIsNearer(n, p, m, m1 * Pow2(e1 - e));
    } else {
      SmallerExponentLiesBelow(m1, e1, e);
      MulAtLeast(p, Pow2(52), floor);
      NoMultipleIsNearer(n, p, m, floor);
    }
  }

  lemma Reassociated(a: nat, b: nat, c: nat)
    ensures a * (b * c) == a * b * c
  {
  }

  /** The rounding step: the 53 leading bits, the next one and whether any bit behind it is set. */
  lemma RoundedIsNearest(n: nat, p: nat, m: nat, rest: nat, round: bool, sticky: bool)
    requires p > 0 && p % 2 == 0 && n == m * p + rest && rest < p
    requires round <==> 2 * rest >= p
    requires round ==> (sticky <==> 2 * rest > p)
    ensures NearestMultiple(n, p, if round && (sticky || m % 2 == 1) then m + 1 else m)
  {
    assert (m + 1) * p == m * p + p;
  }

  /** What the bit after the significand and the bits behind it say about the part cut off. */
  lemma CutOff(rest: seq<bool>)
    requires rest != []
    ensures rest[0] <==> 2 * BitsValue(rest) >= Pow2(|rest|)
    ensures rest[0] ==> (BitsValue(rest[1..]) > 0 <==> 2 * BitsValue(rest) > Pow2(|rest|))
  {
    hide Pow2, BitsValue;
    assert rest == [rest[0]] + rest[1..];
    BitsOfSum([rest[0]], rest[1..]);
    OneBit(rest[0]);
    Pow2Step(|rest| - 1);
  }

  /** Carrying into a 54th bit shifts it out again: the same value, an even significand. */
  lemma CarriedOut(n: nat, e: nat)
    requires forall m1: nat, e1: nat :: m1 < Pow2(53) ==> AsNear(n, Pow2(53), e, m1, e1)
    ensures NearestDouble(n, Pow2(52), e + 1)
  {
    hide Pow2;
    Pow2Step(52);
    Pow2Step(51);
    Pow2Step(e);
    Swapped(Pow2(52), Pow2(e));
    Pow2Grows(0, 52);
    var m, up := Pow2(52), e + 1;
    forall m1: nat, e1: nat | m1 < Pow2(53) ensures AsNear(n, m, up, m1, e1) {
      assert AsNear(n, Pow2(53), e, m1, e1);
    }
  }

  lemma Swapped(q: nat, p: nat)
    ensures q * (2 * p) == 2 * q * p
  {
  }

  /** An integer of at most 53 bits is its own nearest double. */
  lemma ExactIsNearest(n: nat)
    requires n < Pow2(53)
    ensures NearestDouble(n, n, 0) && n * Pow2(0) == n
  {
    hide Pow2;
    NoShift();
    forall m1: nat, e1: nat ensures AsNear(n, n, 0, m1, e1) {
    }
  }

  lemma NoShift()
    ensures Pow2(0) == 1
  {
  }

  /** A product of a 53-bit significand and a power of two: exact, or infinite from `2^1024` on. */
  function Scale(mantissa: nat, exponent: nat): Double {
    if mantissa * Pow2(exponent) >= Pow2(1024) then Infinite else Finite(mantissa, exponent)
  }

  /** The significand and exponent of a bit sequence longer than 53 that starts with a one. */
  method RoundBits(bits: seq<bool>) returns (mantissa: nat, exponent: nat)
    requires |bits| > 53 && bits[0]
    ensures NearestDouble(BitsValue(bits), mantissa, exponent) && Pow2(52) <= mantissa
    ensures mantissa * Pow2(exponent) >= Pow2(1024) <==> Overflows(BitsValue(bits))
    ensures exponent >= |bits| - 53 >= 1
  {
    hide Pow2, BitsValue, NearestDouble, NearestMultiple, Overflows;
    ghost var n := BitsValue(bits);
    mantissa := BitsValue(bits[..53]);
    var round := bits[53];
    var sticky := AnySet(bits[54..]);
    exponent := |bits| - 53;
    ghost var floor := mantissa;
    SplitBits(bits);
    if round && (sticky || mantissa % 2 == 1) {
      mantissa := mantissa + 1;
    }
    RoundedBits(bits, sticky);
    NearestOfRounded(n, floor, exponent, mantissa);
    OverflowsWhenCarried(bits, mantissa);
    if mantissa == Pow2(53) {
      CarriedOut(n, exponent);
      HalvedPower();
      SameWhenCarried(exponent);
      mantissa := mantissa / 2;
      exponent := exponent + 1;
    }
  }

  predicate AnySet(bits: seq<bool>)
    ensures AnySet(bits) <==> BitsValue(bits) > 0
  {
    ZeroWhenNoneSet(bits);
    exists i :: 0 <= i < |bits| && bits[i]
  }

  lemma SplitBits(bits: seq<bool>)
    requires |bits| > 53 && bits[0]
    ensures BitsValue(bits) == BitsValue(bits[..53]) * Pow2(|bits| - 53) + BitsValue(bits[53..])
    ensures Pow2(52) <= BitsValue(bits[..53]) < Pow2(53)
  {
    hide Pow2, BitsValue;
    assert bits == bits[..53] + bits[53..];
    BitsOfSum(bits[..53], bits[53..]);
    LeadingOne(bits[..53]);
  }

  lemma RoundedBits(bits: seq<bool>, sticky: bool)
    requires |bits| > 53 && bits[0] && (sticky <==> BitsValue(bits[54..]) > 0)
    ensures var m := BitsValue(bits[..53]);
      NearestMultiple(BitsValue(bits), Pow2(|bits| - 53), if bits[53] && (sticky || m % 2 == 1) then m + 1 else m)
  {
    hide Pow2, BitsValue, NearestMultiple;
    SplitBits(bits);
    assert bits[53..][1..] == bits[54..];
    CutOff(bits[53..]);
    Pow2Step(|bits| - 54);
    RoundedIsNearest(BitsValue(bits), Pow2(|bits| - 53), BitsValue(bits[..53]), BitsValue(bits[53..]), bits[53],
      sticky);
  }

  lemma NearestOfRounded(n: nat, floor: nat, e: nat, m: nat)
    requires Pow2(52) <= floor <= m && floor * Pow2(e) <= n && NearestMultiple(n, Pow2(e), m)
    ensures m < Pow2(53) ==> NearestDouble(n, m, e)
    ensures forall m1: nat, e1: nat :: m1 < Pow2(53) ==> AsNear(n, m, e, m1, e1)
  {
    hide Pow2, NearestMultiple, AsNear;
    forall m1: nat, e1: nat | m1 < Pow2(53) ensures AsNear(n, m, e, m1, e1) {
      NearestOfAll(n, floor, e, m, m1, e1);
    }
  }

  lemma HalvedPower()
    ensures Pow2(53) / 2 == Pow2(52)
  {
    hide Pow2;
    Pow2Step(52);
  }

  lemma SameWhenCarried(e: nat)
    ensures Pow2(52) * Pow2(e + 1) == Pow2(53) * Pow2(e)
  {
    hide Pow2;
    Pow2Step(52);
    Pow2Step(e);
    Swapped(Pow2(52), Pow2(e));
  }

  /** The rounded significand reaches `2^1024` exactly when the integer lies past the last double. */
  lemma OverflowsWhenCarried(bits: seq<bool>, m: nat)
    requires |bits| > 53 && bits[0]
    requires Pow2(52) <= m <= Pow2(53) && NearestMultiple(BitsValue(bits), Pow2(|bits| - 53), m)
    ensures m * Pow2(|bits| - 53) >= Pow2(1024) <==> Overflows(BitsValue(bits))
  {
    hide Pow2, BitsValue, NearestMultiple;
    LeadingOne(bits);
    if |bits| > 1024 {
      LongOverflows(BitsValue(bits), |bits|, m);
    } else if |bits| < 1024 {
      ShortFits(BitsValue(bits), |bits|, m);
    } else {
      Pow2Sum(53, 971);
      Pow2Step(970);
      Pow2Step(53);
      Pow2Step(52);
      LastDouble(BitsValue(bits), Pow2(53), Pow2(970), m);
    }
  }

  lemma LongOverflows(n: nat, length: nat, m: nat)
    requires length > 1024 && Pow2(length - 1) <= n && Pow2(52) <= m
    ensures m * Pow2(length - 53) >= Pow2(1024) && Overflows(n)
  {
    hide Pow2;
    Pow2Sum(52, length - 53);
    MulAtLeast(Pow2(length - 53), Pow2(52), m);
    Pow2Grows(1024, length - 1);
    Threshold();
  }

  lemma ShortFits(n: nat, length: nat, m: nat)
    requires 53 < length < 1024 && n < Pow2(length) && m <= Pow2(53)
    ensures m * Pow2(length - 53) < Pow2(1024) && !Overflows(n)
  {
    hide Pow2;
    Pow2Sum(53, length - 53);
    MulAtLeast(Pow2(length - 53), m, Pow2(53));
    Pow2Grows(length, 1023);
    Pow2Step(1023);
    Threshold();
  }

  /** Where the threshold lies: between `2^1023` and `2^1024`. */
  lemma Threshold()
    ensures Pow2(1023) <= (Pow2(54) - 1) * Pow2(970) < Pow2(1024)
  {
    hide Pow2;
    Pow2Sum(54, 970);
    Pow2Sum(53, 970);
    Pow2Step(53);
    Pow2Grows(0, 53);
    NoShift();
    MulAtLeast(Pow2(970), Pow2(53), Pow2(54) - 1);
    assert (Pow2(54) - 1) * Pow2(970) == Pow2(54) * Pow2(970) - Pow2(970);
  }

  lemma LastDouble(n: nat, top: nat, half: nat, m: nat)
    requires half > 0 && top >= 2 && top % 2 == 0 && m <= top && NearestMultiple(n, 2 * half, m)
    ensures m * (2 * half) >= top * (2 * half) <==> n >= (2 * top - 1) * half
  {
    TopMultiple(top, half);
    OneMore(m, 2 * half);
    if m + 1 < top {
      MulAtLeast(2 * half, m + 2, top);
      OneMore(m + 1, 2 * half);
    }
    PastTheHalf(n, half, m * (2 * half), top * (2 * half), m == top, m % 2 == 0);
  }

  lemma PastTheHalf(n: nat, half: nat, here: nat, limit: nat, reached: bool, even: bool)
    requires half > 0 && n - half <= here <= n + half && (here == n - half || here == n + half ==> even)
    requires if reached then even && here == limit else here <= limit - 2 * half && (here > limit - 4 * half ==> !even)
    ensures here >= limit <==> n >= limit - half
  {
  }

  lemma OneMore(m: nat, p: nat)
    ensures (m + 1) * p == m * p + p
  {
  }

  lemma TopMultiple(top: nat, half: nat)
    ensures (2 * top - 1) * half == top * (2 * half) - half
  {
  }

  /** `Number("0x...")` and its kin: no digit text is `None`, any other the nearest double, ties to even. */
  method RadixInteger(digits: string, width: nat) returns (r: Option<Double>)
    ensures r.Some? <==> AllInRadix(digits, width)
    ensures r.Some? ==>
      var n := RadixValue(digits, width);
      match r.value
      case Finite(m, e) => NearestDouble(n, m, e) && !Overflows(n)
      case Infinite => Overflows(n)
  {
    hide Pow2, BitsValue, NearestDouble, Overflows, RadixValue, AllInRadix;
    var collected := CollectBits(digits, width);
    if collected.None? {
      return None;
    }
    var bits := collected.value;
    var first := 0;
    while first < |bits| && !bits[first]
      invariant first <= |bits| && forall i :: 0 <= i < first ==> !bits[i]
    {
      first := first + 1;
    }
    LeadingZeros(bits, first);
    if first == |bits| {
      Nothing(bits[first..]);
      ExactIsNearest(0);
      SmallStays(0);
      return Some(Finite(0, 0));
    }
    bits := bits[first..];
    if |bits| <= 53 {
      Pow2Grows(|bits|, 53);
      ExactIsNearest(BitsValue(bits));
      SmallStays(BitsValue(bits));
      return Some(Finite(BitsValue(bits), 0));
    }
    var mantissa, exponent := RoundBits(bits);
    if exponent > 1024 {
      FarOut(mantissa, exponent);
      return Some(Infinite);
    }
    return Some(Scale(mantissa, exponent));
  }

  lemma Nothing(bits: seq<bool>)
    requires bits == []
    ensures BitsValue(bits) == 0 < Pow2(53)
  {
  }

  lemma SmallStays(n: nat)
    requires n < Pow2(53)
    ensures !Overflows(n)
  {
    hide Pow2;
    Threshold();
    Pow2Grows(53, 1023);
  }

  lemma FarOut(mantissa: nat, exponent: nat)
    requires Pow2(52) <= mantissa && exponent > 1024
    ensures mantissa * Pow2(exponent) >= Pow2(1024)
  {
    hide Pow2;
    Pow2Grows(1024, exponent);
    Pow2Grows(0, 52);
    NoShift();
    MulAtLeast(Pow2(exponent), 1, mantissa);
  }
}
