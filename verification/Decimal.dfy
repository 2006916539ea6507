/** Decimal digit texts and the numbers they spell. */
module Decimal {

  function Pow10(n: nat): (p: nat)
    ensures p >= 1
  {
    if n == 0 then 1 else 10 * Pow10(n - 1)
  }

  predicate IsDigit(c: char) { '0' <= c <= '9' }

  ghost predicate AllDigits(s: string) { forall i :: 0 <= i < |s| ==> IsDigit(s[i]) }

  lemma DigitsJoin(a: string, b: string)
    requires AllDigits(a) && AllDigits(b)
    ensures AllDigits(a + b)
  {
  }

  lemma DigitsSplit(s: string, k: nat)
    requires AllDigits(s) && k <= |s|
    ensures AllDigits(s[..k]) && AllDigits(s[k..]) && s[..k] + s[k..] == s
  {
  }

  function DigitOf(c: char): (d: nat)
    requires IsDigit(c)
    ensures d < 10
  {
    (c as int - '0' as int) as nat
  }

  function DigitChar(d: nat): (c: char)
    requires d < 10
    ensures IsDigit(c) && DigitOf(c) == d
  {
    ('0' as int + d) as char
  }

  /** The number a digit text spells; the empty text spells zero. */
  function Number(s: string): (n: nat)
    requires AllDigits(s)
    ensures n < Pow10(|s|)
  {
    if s == "" then 0
    else 10 * Number(s[..|s| - 1]) + DigitOf(s[|s| - 1])
  }

  lemma {:induction false} NumberOfSum(a: string, b: string)
    requires AllDigits(a) && AllDigits(b)
    ensures Number(a + b) == Number(a) * Pow10(|b|) + Number(b)
    decreases |b|
  {
    hide Number, Pow10;
    NothingSpelled();
    if b == "" {
      assert a + b == a;
    } else {
      var front, last := b[..|b| - 1], b[|b| - 1];
      Pow10Step(|front|);
      DigitsJoin(a, front);
      NumberOfSum(a, front);
      LastDigit(a + front, last);
      LastDigit(front, last);
      assert a + b == a + front + [last] && b == front + [last];
      TenTimes(Number(a), Pow10(|front|));
    }
  }

  lemma NothingSpelled()
    ensures Number("") == 0 && Pow10(0) == 1
  {
  }

  lemma Pow10Step(n: nat)
    ensures Pow10(n + 1) == 10 * Pow10(n)
  {
  }

  lemma TenTimes(x: nat, p: nat)
    ensures x * (10 * p) == 10 * (x * p)
  {
  }

  lemma LastDigit(front: string, last: char)
    requires AllDigits(front) && IsDigit(last)
    ensures Number(front + [last]) == 10 * Number(front) + DigitOf(last)
  {
    assert (front + [last])[..|front|] == front;
  }

  lemma OneDigit(c: char)
    requires IsDigit(c)
    ensures Number([c]) == DigitOf(c)
  {
    assert [c][..0] == "";
  }

  function Zeros(n: nat): (z: string)
    ensures |z| == n && AllDigits(z)
  {
    if n == 0 then "" else Zeros(n - 1) + "0"
  }

  lemma {:induction false} NumberOfZeros(n: nat)
    ensures Number(Zeros(n)) == 0
  {
    if n > 0 {
      NumberOfZeros(n - 1);
      assert Zeros(n)[..n - 1] == Zeros(n - 1);
    }
  }

  /** The decimal spelling of a number, without leading zeros. */
  function Spelling(n: nat): (s: string)
    ensures |s| >= 1 && AllDigits(s)
  {
    if n < 10 then [DigitChar(n)] else Spelling(n / 10) + [DigitChar(n % 10)]
  }

  lemma {:induction false} SpellingSpells(n: nat)
    ensures Number(Spelling(n)) == n
    decreases n
  {
    var s := Spelling(n);
    if n < 10 {
      assert s[..0] == "";
    } else {
      SpellingSpells(n / 10);
      assert s[..|s| - 1] == Spelling(n / 10);
    }
  }

  /** How many digits a text starts with. */
  function DigitCount(s: string): (n: nat)
    ensures n <= |s| && AllDigits(s[..n]) && (n < |s| ==> !IsDigit(s[n]))
  {
    if s != "" && IsDigit(s[0]) then 1 + DigitCount(s[1..]) else 0
  }

  lemma {:induction false} DigitCountOfSum(a: string, b: string)
    requires AllDigits(a) && (b == "" || !IsDigit(b[0]))
    ensures DigitCount(a + b) == |a|
    decreases |a|
  {
    if a == "" {
      assert a + b == b;
    } else {
      assert (a + b)[1..] == a[1..] + b;
      DigitCountOfSum(a[1..], b);
    }
  }

  /** Digit texts of one length that spell the same number are the same. */
  lemma {:induction false} NumberIsUnique(a: string, b: string)
    requires AllDigits(a) && AllDigits(b) && |a| == |b| && Number(a) == Number(b)
    ensures a == b
    decreases |a|
  {
    if a != "" {
      var n := |a| - 1;
      NumberIsUnique(a[..n], b[..n]);
      assert a == a[..n] + [a[n]] && b == b[..n] + [b[n]];
    }
  }

  lemma ZeroIsOneDigit()
    ensures |Spelling(0)| == 1
  {
  }
}
