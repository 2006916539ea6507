/**
 The table-driven checksum of docs/src/components/zip.ts, and the bit-at-a-time division it stands for.
 */
module Crc32 {

  newtype byte = x: int | 0 <= x < 256

  /** A 32-bit word. Wrapped so that proofs can treat its operations by their laws alone. */
  datatype Word = Word(bits: bv32)

  function Xor(a: Word, b: Word): Word { Word(a.bits ^ b.bits) }
  function Half(a: Word): Word { Word(a.bits >> 1) }
  function HighBytes(a: Word): Word { Word(a.bits >> 8) }
  function Masked(a: Word, mask: bv32): Word { Word(a.bits & mask) }
  predicate Odd(a: Word) { a.bits & 1 == 1 }
  function OfByte(b: byte): Word { Word(b as bv32) }

  const ZERO: Word := Word(0)
  const ONES: Word := Word(0xffff_ffff)

  /** The reversed polynomial of PKWARE APPNOTE, section 4.4.7. */
  const POLYNOMIAL: Word := Word(0xedb8_8320)

  /** One step of the shift register. */
  function Step(c: Word): Word {
    if Odd(c) then Xor(POLYNOMIAL, Half(c)) else Half(c)
  }

  function Steps(c: Word, k: nat): Word
    decreases k
  {
    if k == 0 then c else Steps(Step(c), k - 1)
  }

  // ----- The reference: one message bit at a time -----

  /** Feeds the lowest `n` bits of `bits`, lowest first, each into the register before it shifts. */
  function FeedBits(crc: Word, bits: Word, n: nat): Word
    decreases n
  {
    if n == 0 then crc else FeedBits(Step(Xor(crc, Masked(bits, 1))), Half(bits), n - 1)
  }

  function FeedBytes(crc: Word, bytes: seq<byte>): Word {
    if bytes == [] then crc
    else FeedBits(FeedBytes(crc, bytes[..|bytes| - 1]), OfByte(bytes[|bytes| - 1]), 8)
  }

  /** The checksum of a message, bit by bit. */
  function BitwiseCrc(bytes: seq<byte>): Word {
    Xor(FeedBytes(ONES, bytes), ONES)
  }

  // ----- Laws of the word operations -----

  lemma XorCommutes(a: Word, b: Word)
    ensures Xor(a, b) == Xor(b, a)
  {
  }

  lemma XorAssociates(a: Word, b: Word, c: Word)
    ensures Xor(Xor(a, b), c) == Xor(a, Xor(b, c))
  {
  }

  lemma XorCancels(a: Word)
    ensures Xor(a, a) == ZERO && Xor(a, ZERO) == a
  {
  }

  lemma XorLaws(a: Word, b: Word, c: Word)
    ensures Xor(a, b) == Xor(b, a)
    ensures Xor(Xor(a, b), c) == Xor(a, Xor(b, c))
    ensures Xor(a, a) == ZERO && Xor(a, ZERO) == a
  {
    hide Xor;
    XorCommutes(a, b);
    XorAssociates(a, b, c);
    XorCancels(a);
  }

  lemma HalfOfXor(a: Word, b: Word)
    ensures Half(Xor(a, b)) == Xor(Half(a), Half(b))
  {
  }

  lemma HighBytesOfXor(a: Word, b: Word)
    ensures HighBytes(Xor(a, b)) == Xor(HighBytes(a), HighBytes(b))
  {
  }

  lemma OddXor(a: bv32, b: bv32)
    ensures (a ^ b) & 1 == (a & 1) ^ (b & 1)
    ensures a & 1 == 0 || a & 1 == 1
  {
  }

  lemma OddOfXor(a: Word, b: Word)
    ensures Odd(Xor(a, b)) <==> Odd(a) != Odd(b)
  {
    OddXor(a.bits, b.bits);
    OddXor(b.bits, a.bits);
  }

  lemma LowBitApart(a: Word)
    ensures Xor(Masked(a, 1), Masked(a, 0xffff_fffe)) == a
  {
  }

  lemma LowByteApart(a: Word)
    ensures Xor(Masked(a, 0xff), Masked(a, 0xffff_ff00)) == a
  {
  }

  lemma LowBitClear(a: Word)
    ensures !Odd(Masked(a, 0xffff_fffe))
  {
  }

  lemma LowBitHalvesAway(a: Word)
    ensures Half(Masked(a, 0xffff_fffe)) == Half(a)
  {
  }

  lemma ByteHasEightBits(b: byte)
    ensures Half(Half(Half(Half(Half(Half(Half(Half(OfByte(b))))))))) == ZERO
    ensures HighBytes(OfByte(b)) == ZERO
  {
    assert (b as bv32) & 0xff == b as bv32;
  }

  /** The bits of `a` under `mask` are clear. */
  predicate Clear(a: Word, mask: bv32) { a.bits & mask == 0 }

  lemma HalvesClear(a: Word, mask: bv32, rest: bv32)
    requires Clear(a, mask) && mask & 1 == 1 && rest == mask >> 1
    ensures !Odd(a) && Clear(Half(a), rest)
  {
  }

  lemma MaskClears(a: Word)
    ensures Clear(Masked(a, 0xffff_ff00), 0xff)
  {
  }

  lemma EightHalvesOfMasked(a: Word)
    ensures Half(Half(Half(Half(Half(Half(Half(Half(Masked(a, 0xffff_ff00))))))))) == HighBytes(a)
  {
  }

  // ----- Why a table of 256 entries is enough -----

  /** Stepping distributes over exclusive or. */
  lemma StepIsLinear(a: Word, b: Word)
    ensures Step(Xor(a, b)) == Xor(Step(a), Step(b))
  {
    hide Xor, Half, Odd, HighBytes;
    var p, x, y := POLYNOMIAL, Half(a), Half(b);
    HalfOfXor(a, b);
    OddOfXor(a, b);
    XorLaws(p, x, y);
    XorLaws(x, p, y);
    XorLaws(Xor(p, x), p, y);
    XorLaws(x, p, p);
  }

  lemma {:induction false} StepsAreLinear(a: Word, b: Word, k: nat)
    ensures Steps(Xor(a, b), k) == Xor(Steps(a, k), Steps(b, k))
    decreases k
  {
    hide Xor, Step;
    if k > 0 {
      StepIsLinear(a, b);
      StepsAreLinear(Step(a), Step(b), k - 1);
    }
  }

  function Halved(b: Word, n: nat): Word
    decreases n
  {
    if n == 0 then b else Halved(Half(b), n - 1)
  }

  lemma OneBitStep(c: Word, b: Word)
    ensures Step(Xor(c, b)) == Xor(Step(Xor(c, Masked(b, 1))), Half(b))
  {
    hide Xor, Half, Odd, Masked;
    LowBitApart(b);
    LowBitClear(b);
    LowBitHalvesAway(b);
    XorLaws(c, Masked(b, 1), Masked(b, 0xffff_fffe));
    StepIsLinear(Xor(c, Masked(b, 1)), Masked(b, 0xffff_fffe));
  }

  /** Mixing all the bits in first and then stepping is the same as feeding them one by one. */
  lemma {:induction false} MixedInAtOnce(c: Word, b: Word, n: nat)
    ensures Steps(Xor(c, b), n) == Xor(FeedBits(c, b, n), Halved(b, n))
    decreases n
  {
    hide Xor, Step, Half, Masked;
    if n > 0 {
      OneBitStep(c, b);
      MixedInAtOnce(Step(Xor(c, Masked(b, 1))), Half(b), n - 1);
    }
  }

  lemma EightHalvings(b: Word)
    ensures Halved(b, 8) == Half(Half(Half(Half(Half(Half(Half(Half(b))))))))
  {
    hide Half;
  }

  /** The next `n` halvings of `a` start even. */
  predicate Evens(a: Word, n: nat)
    decreases n
  {
    n == 0 || (!Odd(a) && Evens(Half(a), n - 1))
  }

  lemma {:induction false} EvensJustShift(a: Word, n: nat)
    requires Evens(a, n)
    ensures Steps(a, n) == Halved(a, n)
    decreases n
  {
    hide Odd, Half, Xor;
    if n > 0 {
      EvensJustShift(Half(a), n - 1);
    }
  }

  lemma MaskedStartsEven(c: Word)
    ensures Evens(Masked(c, 0xffff_ff00), 8)
  {
    hide Odd, Half, Clear, Masked;
    var h := Masked(c, 0xffff_ff00);
    MaskClears(c);
    HalvesClear(h, 0xff, 0x7f);
    HalvesClear(Half(h), 0x7f, 0x3f);
    HalvesClear(Half(Half(h)), 0x3f, 0x1f);
    HalvesClear(Half(Half(Half(h))), 0x1f, 0xf);
    var m := Half(Half(Half(Half(h))));
    HalvesClear(m, 0xf, 0x7);
    HalvesClear(Half(m), 0x7, 0x3);
    HalvesClear(Half(Half(m)), 0x3, 0x1);
    HalvesClear(Half(Half(Half(m))), 0x1, 0x0);
    assert Evens(m, 4);
  }

  /** A word whose low byte is clear only shifts for eight steps. */
  lemma HighBytesJustShift(c: Word)
    ensures Steps(Masked(c, 0xffff_ff00), 8) == HighBytes(c)
  {
    hide Odd, Half, Masked, HighBytes, Steps, Halved;
    MaskedStartsEven(c);
    EvensJustShift(Masked(c, 0xffff_ff00), 8);
    EightHalvings(Masked(c, 0xffff_ff00));
    EightHalvesOfMasked(c);
  }

  /** The entry for a low byte, and the rest of the register shifted, make eight steps. */
  lemma EightStepsByTable(c: Word)
    ensures Steps(c, 8) == Xor(Steps(Masked(c, 0xff), 8), HighBytes(c))
  {
    hide Xor, Half, Odd, HighBytes, Masked, Steps;
    LowByteApart(c);
    StepsAreLinear(Masked(c, 0xff), Masked(c, 0xffff_ff00), 8);
    HighBytesJustShift(c);
  }

  /** One byte through the table is its eight bits through the register. */
  lemma ByteByTable(crc: Word, b: byte)
    ensures Xor(Steps(Masked(Xor(crc, OfByte(b)), 0xff), 8), HighBytes(crc)) == FeedBits(crc, OfByte(b), 8)
  {
    hide Xor, Half, HighBytes, Masked, Steps, FeedBits, Halved, OfByte;
    var v := OfByte(b);
    ByteHasEightBits(b);
    EightHalvings(v);
    EightStepsByTable(Xor(crc, v));
    HighBytesOfXor(crc, v);
    XorLaws(HighBytes(crc), ZERO, ZERO);
    MixedInAtOnce(crc, v, 8);
    XorLaws(FeedBits(crc, v, 8), ZERO, ZERO);
  }

  /** A word as a table index. */
  function IndexOf(low: Word): nat { low.bits as nat }

  lemma IndexInTable(low: Word)
    requires low.bits <= 0xff
    ensures IndexOf(low) < 256 && Word(IndexOf(low) as bv32) == low
  {
  }

  lemma LowByteIsSmall(c: Word)
    ensures Masked(c, 0xff).bits <= 0xff
  {
  }

  ghost predicate IsTable(table: seq<Word>) {
    |table| == 256 && forall n :: 0 <= n < 256 ==> table[n] == Steps(Word(n as bv32), 8)
  }

  method BuildTable() returns (table: seq<Word>)
    ensures IsTable(table)
  {
    hide Xor, Half, Odd;
    var entries := new Word[256];
    for n := 0 to 256
      invariant forall m :: 0 <= m < n ==> entries[m] == Steps(Word(m as bv32), 8)
    {
      var c := Word(n as bv32);
      for k := 0 to 8
        invariant Steps(c, 8 - k) == Steps(Word(n as bv32), 8)
      {
        c := if Odd(c) then Xor(POLYNOMIAL, Half(c)) else Half(c);
      }
      entries[n] := c;
    }
    table := entries[..];
  }

  method TableCrc(table: seq<Word>, bytes: seq<byte>) returns (crc: Word)
    requires IsTable(table)
    ensures crc == BitwiseCrc(bytes)
  {
    hide Xor, Half, HighBytes, Masked, Steps, FeedBits, IndexOf;
    crc := ONES;
    for i := 0 to |bytes|
      invariant crc == FeedBytes(ONES, bytes[..i])
    {
      ByteByTable(crc, bytes[i]);
      assert bytes[..i + 1][..i] == bytes[..i];
      var low := Masked(Xor(crc, OfByte(bytes[i])), 0xff);
      LowByteIsSmall(Xor(crc, OfByte(bytes[i])));
      IndexInTable(low);
      crc := Xor(table[IndexOf(low)], HighBytes(crc));
    }
    assert bytes[..|bytes|] == bytes;
    crc := Xor(crc, ONES);
  }
}
