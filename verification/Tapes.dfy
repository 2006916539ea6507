/**
 The tape a value crosses on, after runtimes/js/src/crossing.ts: shape codes, numbers, joined text
 and leaves, each read from its own cursor.
 */
module Tapes {
  import opened Prelude
  import opened Graph
  import Decimal

  type Code = nat

  const UNDEFINED: Code := 117
  const NULL: Code := 110
  const TRUE: Code := 116
  const FALSE: Code := 102
  const NUMBER: Code := 100
  const TEXT: Code := 115
  const BIGINT: Code := 98
  const CYCLE: Code := 99
  const SYMBOL: Code := 121
  const BARE_SYMBOL: Code := 89
  const UNITS: Code := 119
  const LEAF: Code := 70
  const ARRAY_START: Code := 91
  const ARRAY_END: Code := 93
  const OBJECT_START: Code := 123
  const OBJECT_END: Code := 125

  const MAX_CROSSING_DEPTH: nat := 2048

  datatype Tape = Tape(codes: seq<Code>, numbers: seq<Number>, text: Text, leaves: seq<nat>)

  const BLANK: Tape := Tape([], [], [], [])

  function Plus(a: Tape, b: Tape): Tape {
    Tape(a.codes + b.codes, a.numbers + b.numbers, a.text + b.text, a.leaves + b.leaves)
  }

  lemma PlusAssociates(a: Tape, b: Tape, c: Tape)
    ensures Plus(Plus(a, b), c) == Plus(a, Plus(b, c))
  {
    assert a.codes + b.codes + c.codes == a.codes + (b.codes + c.codes);
    assert a.numbers + b.numbers + c.numbers == a.numbers + (b.numbers + c.numbers);
    assert a.text + b.text + c.text == a.text + (b.text + c.text);
    assert a.leaves + b.leaves + c.leaves == a.leaves + (b.leaves + c.leaves);
  }

  lemma PlusBlank(a: Tape)
    ensures Plus(a, BLANK) == a == Plus(BLANK, a)
  {
    assert a.codes + [] == a.codes == [] + a.codes;
    assert a.numbers + [] == a.numbers == [] + a.numbers;
    assert a.text + [] == a.text == [] + a.text;
    assert a.leaves + [] == a.leaves == [] + a.leaves;
  }

  function OneCode(c: Code): Tape { Tape([c], [], [], []) }

  function StartCode(list: bool): Code { if list then ARRAY_START else OBJECT_START }
  function EndCode(list: bool): Code { if list then ARRAY_END else OBJECT_END }

  // ----- Numbers and spellings -----

  function Length(n: nat): Number { Finite(n as real) }

  function CountOf(n: Number): nat {
    if n.Finite? && n.value >= 0.0 then n.value.Floor as nat else 0
  }

  lemma CountOfLength(n: nat)
    ensures CountOf(Length(n)) == n
  {
  }

  function UnitNumbers(t: Text): (numbers: seq<Number>)
    ensures |numbers| == |t|
  {
    seq(|t|, i requires 0 <= i < |t| => Finite(t[i] as real))
  }

  function UnitOf(n: Number): Unit { (CountOf(n) % 0x1_0000) as Unit }

  function UnitsOf(numbers: seq<Number>): (t: Text)
    ensures |t| == |numbers|
  {
    seq(|numbers|, i requires 0 <= i < |numbers| => UnitOf(numbers[i]))
  }

  lemma UnitsComeBack(t: Text)
    ensures UnitsOf(UnitNumbers(t)) == t
  {
    forall i | 0 <= i < |t| ensures UnitOf(UnitNumbers(t)[i]) == t[i] {
      CountOfLength(t[i] as nat);
    }
  }

  function High(u: Unit): bool { 0xd800 <= u <= 0xdbff }
  function Low(u: Unit): bool { 0xdc00 <= u <= 0xdfff }

  /** Every surrogate stands in a pair. */
  predicate Paired(t: Text) {
    if t == [] then true
    else if High(t[0]) then |t| >= 2 && Low(t[1]) && Paired(t[2..])
    else !Low(t[0]) && Paired(t[1..])
  }

  /** A C string carries the text exactly: it holds no NUL and no lone surrogate. */
  predicate SafeText(t: Text) { 0 !in t && Paired(t) }

  lemma {:induction false} PairedJoins(a: Text, b: Text)
    requires Paired(a) && Paired(b)
    ensures Paired(a + b)
    decreases |a|
  {
    if a == [] {
      assert a + b == b;
    } else if High(a[0]) {
      assert (a + b)[2..] == a[2..] + b;
      PairedJoins(a[2..], b);
    } else {
      assert (a + b)[1..] == a[1..] + b;
      PairedJoins(a[1..], b);
    }
  }

  // ----- BigInts -----

  function CharsOf(t: Text): string {
    seq(|t|, i requires 0 <= i < |t| => if t[i] < 128 then t[i] as int as char else '?')
  }

  function AsciiUnits(s: string): (t: Text)
    ensures |t| == |s|
  {
    seq(|s|, i requires 0 <= i < |s| => if s[i] as int < 128 then s[i] as int as Unit else 0)
  }

  function IntegerText(i: int): Text {
    AsciiUnits(if i < 0 then "-" + Decimal.Spelling(-i) else Decimal.Spelling(i))
  }

  /** The integer of a decimal spelling, if it is one. */
  function IntegerOf(t: Text): int {
    var s := CharsOf(t);
    if s != "" && s[0] == '-' then -(DigitsValue(s[1..]) as int) else DigitsValue(s) as int
  }

  function DigitsValue(s: string): nat {
    if Decimal.DigitCount(s) == |s| then
      assert s[..|s|] == s;
      Decimal.Number(s)
    else 0
  }

  /** A decimal spelling: digits, with a minus sign or without. */
  predicate IsInteger(t: Text) {
    var s := CharsOf(t);
    var digits := if s != "" && s[0] == '-' then s[1..] else s;
    digits != "" && Decimal.DigitCount(digits) == |digits|
  }

  /** No other decimal spelling of the same length is the same integer. */
  lemma IntegerTextIsUnique(t: Text, i: int)
    requires IsInteger(t) && IntegerOf(t) == i && |t| == |IntegerText(i)|
    ensures t == IntegerText(i)
  {
    hide Decimal.Number, Decimal.Spelling, Decimal.DigitCount;
    var s, size: nat := CharsOf(t), if i < 0 then -i else i;
    var spelled := if i < 0 then "-" + Decimal.Spelling(size) else Decimal.Spelling(size);
    var digits := if s[0] == '-' then s[1..] else s;
    assert digits[..|digits|] == digits;
    AsciiComesBack(spelled);
    Decimal.SpellingSpells(size);
    if s[0] == '-' && i >= 0 {
      assert i == 0;
      Decimal.ZeroIsOneDigit();
    } else {
      Decimal.NumberIsUnique(digits, Decimal.Spelling(size));
      assert s == spelled;
      SameAscii(t, IntegerText(i));
    }
  }

  lemma SameAscii(a: Text, b: Text)
    requires CharsOf(a) == CharsOf(b) && forall i :: 0 <= i < |a| ==> CharsOf(a)[i] != '?'
    ensures a == b
  {
    assert |a| == |CharsOf(a)| == |b|;
    forall i | 0 <= i < |a| ensures a[i] == b[i] {
      assert CharsOf(a)[i] == CharsOf(b)[i];
    }
  }

  lemma IntegerComesBack(i: int)
    ensures IntegerOf(IntegerText(i)) == i && IsInteger(IntegerText(i))
  {
    hide Decimal.Number, Decimal.Spelling, Decimal.DigitCount;
    var size: nat := if i < 0 then -i else i;
    var digits := Decimal.Spelling(size);
    var s := if i < 0 then "-" + digits else digits;
    AsciiComesBack(s);
    Decimal.SpellingSpells(size);
    Decimal.DigitCountOfSum(digits, "");
    assert digits + "" == digits;
    if i < 0 {
      assert s[1..] == digits;
    } else {
      assert Decimal.IsDigit(digits[0]);
    }
  }

  lemma AsciiComesBack(s: string)
    requires forall i :: 0 <= i < |s| ==> s[i] as int < 128
    ensures CharsOf(AsciiUnits(s)) == s
  {
  }

  // ----- Spelling a tree -----

  /** A string as text, or, where a C string would not carry it, as its code units. */
  function TextTape(t: Text, units: bool): Tape {
    if units && !SafeText(t) then Tape([UNITS], [Length(|t|)] + UnitNumbers(t), [], [])
    else Spelled(TEXT, t)
  }

  function Spelled(code: Code, t: Text): Tape { Tape([code], [Length(|t|)], t, []) }

  function LeafTape(leaf: Leaf, units: bool): Tape {
    match leaf
    case Undefined => OneCode(UNDEFINED)
    case Null => OneCode(NULL)
    case Boolean(yes) => OneCode(if yes then TRUE else FALSE)
    case Numeric(n) => Tape([NUMBER], [n], [], [])
    case String(t) => TextTape(t, units)
    case BigInt(i) => Spelled(BIGINT, IntegerText(i))
    case Symbol(None) => OneCode(BARE_SYMBOL)
    case Symbol(Some(d)) => Spelled(SYMBOL, d)
    case Function(handle) => Tape([LEAF], [], [], [handle])
  }

  function CycleTape(up: nat): Tape { Tape([CYCLE], [Length(up)], [], []) }

  function KeyTape(key: Option<Text>, units: bool): Tape {
    if key.None? then BLANK else TextTape(key.value, units)
  }

  /** The tape of a tree; `units` allows code units in place of text. */
  function Encode(t: Tree, units: bool): Tape {
    match t
    case LeafTree(leaf) => LeafTape(leaf, units)
    case Cycle(up) => CycleTape(up)
    case Box(list, slots) => Plus(OneCode(StartCode(list)), Plus(EncodeSlots(slots, units), OneCode(EndCode(list))))
  }

  function EncodeSlots(slots: Slots, units: bool): Tape {
    match slots
    case Done => BLANK
    case Slot(key, value, rest) =>
      Plus(KeyTape(key, units), Plus(Encode(value, units), EncodeSlots(rest, units)))
  }

  // ----- Reading leaves -----

  datatype Taken = Taken(leaf: Leaf, rest: Tape)

  predicate HasText(t: Tape) { t.numbers != [] && CountOf(t.numbers[0]) <= |t.text| }

  function TakeText(t: Tape): (Text, Tape)
    requires t.codes != [] && HasText(t)
  {
    var n := CountOf(t.numbers[0]);
    (t.text[..n], Tape(t.codes[1..], t.numbers[1..], t.text[n..], t.leaves))
  }

  function Skip(t: Tape): Tape
    requires t.codes != []
  {
    t.(codes := t.codes[1..])
  }

  /** The leaf a tape starts with, if it starts with one. */
  function TakeLeaf(t: Tape): Option<Taken> {
    if t.codes == [] then None
    else
      var code := t.codes[0];
      if code == UNDEFINED then Some(Taken(Undefined, Skip(t)))
      else if code == NULL then Some(Taken(Null, Skip(t)))
      else if code == TRUE then Some(Taken(Boolean(true), Skip(t)))
      else if code == FALSE then Some(Taken(Boolean(false), Skip(t)))
      else if code == BARE_SYMBOL then Some(Taken(Symbol(None), Skip(t)))
      else if code == NUMBER then
        if t.numbers == [] then None
        else Some(Taken(Numeric(t.numbers[0]), Skip(t).(numbers := t.numbers[1..])))
      else if code == LEAF then
        if t.leaves == [] then None
        else Some(Taken(Function(t.leaves[0]), Skip(t).(leaves := t.leaves[1..])))
      else if code == UNITS then
        if t.numbers == [] || CountOf(t.numbers[0]) >= |t.numbers| then None
        else
          var n := CountOf(t.numbers[0]);
          Some(Taken(String(UnitsOf(t.numbers[1..n + 1])), Skip(t).(numbers := t.numbers[n + 1..])))
      else if (code == TEXT || code == BIGINT || code == SYMBOL) && HasText(t) then
        var (text, rest) := TakeText(t);
        var leaf := WordLeaf(code, text);
        if leaf.None? then None else Some(Taken(leaf.value, rest))
      else None
  }

  /** What a spelled text is read as; a BigInt's has to be digits. */
  function WordLeaf(code: Code, text: Text): Option<Leaf> {
    if code == TEXT then Some(String(text))
    else if code == SYMBOL then Some(Symbol(Some(text)))
    else if IsInteger(text) then Some(BigInt(IntegerOf(text)))
    else None
  }

  /** What was spelled is taken, and nothing else. */
  lemma LeafComesBack(leaf: Leaf, units: bool, rest: Tape)
    ensures TakeLeaf(Plus(LeafTape(leaf, units), rest)) == Some(Taken(leaf, rest))
  {
    hide IntegerText, IntegerOf, IsInteger, UnitNumbers, UnitsOf, SafeText, CountOf, TakeText, HasText, TakeLeaf, Plus;
    match leaf
    case String(t) =>
      if units && !SafeText(t) {
        UnitsTaken(t, rest);
      } else {
        SpelledTaken(TEXT, t, rest);
      }
    case BigInt(i) =>
      SpelledTaken(BIGINT, IntegerText(i), rest);
      IntegerComesBack(i);
    case Symbol(Some(d)) => SpelledTaken(SYMBOL, d, rest);
    case _ => SimpleTaken(leaf, units, rest);
  }

  lemma SpelledTaken(code: Code, t: Text, rest: Tape)
    requires code == TEXT || code == BIGINT || code == SYMBOL
    ensures var leaf := WordLeaf(code, t);
      TakeLeaf(Plus(Spelled(code, t), rest)) == if leaf.None? then None else Some(Taken(leaf.value, rest))
  {
    hide IntegerOf, IsInteger, CountOf, Length, UnitsOf;
    var all := Plus(Spelled(code, t), rest);
    CountOfLength(|t|);
    assert all.codes[1..] == rest.codes && all.numbers[1..] == rest.numbers;
    assert all.text[..|t|] == t && all.text[|t|..] == rest.text;
    assert all.leaves == rest.leaves;
  }

  lemma UnitsTaken(t: Text, rest: Tape)
    ensures TakeLeaf(Plus(Tape([UNITS], [Length(|t|)] + UnitNumbers(t), [], []), rest)) == Some(Taken(String(t), rest))
  {
    hide IntegerOf, IsInteger, CountOf, Length, UnitsOf, UnitNumbers;
    var all := Plus(Tape([UNITS], [Length(|t|)] + UnitNumbers(t), [], []), rest);
    CountOfLength(|t|);
    UnitsComeBack(t);
    assert all.codes[1..] == rest.codes && all.numbers[|t| + 1..] == rest.numbers;
    assert all.numbers[1..|t| + 1] == UnitNumbers(t);
    assert all.text == rest.text && all.leaves == rest.leaves;
  }

  lemma SimpleTaken(leaf: Leaf, units: bool, rest: Tape)
    requires !leaf.String? && !leaf.BigInt? && (leaf.Symbol? ==> leaf.description.None?)
    ensures TakeLeaf(Plus(LeafTape(leaf, units), rest)) == Some(Taken(leaf, rest))
  {
    hide IntegerOf, IsInteger, CountOf, Length, UnitsOf, UnitNumbers, IntegerText, TextTape;
    var all := Plus(LeafTape(leaf, units), rest);
    assert all.codes[1..] == rest.codes;
    assert leaf.Numeric? ==> all.numbers[1..] == rest.numbers;
    assert leaf.Function? ==> all.leaves[1..] == rest.leaves;
    assert !leaf.Numeric? ==> all.numbers == rest.numbers;
    assert !leaf.Function? ==> all.leaves == rest.leaves;
    assert all.text == rest.text;
  }
}
