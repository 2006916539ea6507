/**
 A tape as its reader meets it: the shape it was written with, and whatever texts arrived. A text that
 was decoded on the way may differ from the one that left, so a BigInt's digits need not be digits and
 an object's keys need not differ.
 */
module Wordings {
  import opened Prelude
  import opened Graph
  import opened Tapes

  datatype Raw = Word(code: Code, text: Text) | Simple(leaf: Leaf) | Back(up: nat) | Whole(list: bool, parts: Parts)
  datatype Parts = NoPart | Part(key: Option<Text>, value: Raw, rest: Parts)

  predicate IsWord(code: Code) { code == TEXT || code == BIGINT || code == SYMBOL }

  predicate IsSimple(leaf: Leaf) { !leaf.String? && !leaf.BigInt? && (leaf.Symbol? ==> leaf.description.None?) }

  ghost predicate RawOk(r: Raw, level: nat)
    decreases r
  {
    match r
    case Word(code, _) => IsWord(code)
    case Simple(leaf) => IsSimple(leaf)
    case Back(up) => 1 <= up <= level
    case Whole(list, parts) => PartsOk(list, parts, level + 1)
  }

  ghost predicate PartsOk(list: bool, parts: Parts, level: nat)
    decreases parts
  {
    match parts
    case NoPart => true
    case Part(key, value, rest) => (key.None? <==> list) && RawOk(value, level) && PartsOk(list, rest, level)
  }

  ghost function Weight(r: Raw): (n: nat)
    ensures n >= 1
  {
    match r
    case Whole(_, parts) => 1 + PartsWeight(parts)
    case _ => 1
  }

  ghost function PartsWeight(parts: Parts): nat {
    match parts
    case NoPart => 0
    case Part(_, value, rest) => 1 + Weight(value) + PartsWeight(rest)
  }

  // ----- The tape -----

  function RawTape(r: Raw): Tape {
    match r
    case Word(code, text) => Spelled(code, text)
    case Simple(leaf) => LeafTape(leaf, false)
    case Back(up) => CycleTape(up)
    case Whole(list, parts) => Plus(OneCode(StartCode(list)), Plus(PartsTape(parts), OneCode(EndCode(list))))
  }

  function PartsTape(parts: Parts): Tape {
    match parts
    case NoPart => BLANK
    case Part(key, value, rest) => Plus(KeyTape(key, false), Plus(RawTape(value), PartsTape(rest)))
  }

  /** A tree as it leaves. */
  function RawOf(t: Tree): Raw {
    match t
    case LeafTree(String(text)) => Word(TEXT, text)
    case LeafTree(BigInt(i)) => Word(BIGINT, IntegerText(i))
    case LeafTree(Symbol(Some(d))) => Word(SYMBOL, d)
    case LeafTree(leaf) => Simple(leaf)
    case Cycle(up) => Back(up)
    case Box(list, slots) => Whole(list, PartsOf(slots))
  }

  function PartsOf(slots: Slots): Parts {
    match slots
    case Done => NoPart
    case Slot(key, value, rest) => Part(key, RawOf(value), PartsOf(rest))
  }

  lemma {:induction false} RawOfSpells(t: Tree)
    ensures RawTape(RawOf(t)) == Encode(t, false)
  {
    hide IntegerText, Plus;
    if t.Box? {
      PartsOfSpell(t.slots);
    }
  }

  lemma {:induction false} PartsOfSpell(slots: Slots)
    ensures PartsTape(PartsOf(slots)) == EncodeSlots(slots, false)
  {
    hide Plus, Encode, RawTape, KeyTape;
    if slots.Slot? {
      RawOfSpells(slots.value);
      PartsOfSpell(slots.rest);
    }
  }

  lemma {:induction false} RawOfIsOk(t: Tree, level: nat)
    requires TreeOk(t, level)
    ensures RawOk(RawOf(t), level)
    decreases t
  {
    hide IntegerText;
    if t.Box? {
      PartsOfAreOk(t.list, t.slots, level + 1);
    }
  }

  lemma {:induction false} PartsOfAreOk(list: bool, slots: Slots, level: nat)
    requires SlotsOk(list, slots, level)
    ensures PartsOk(list, PartsOf(slots), level)
    decreases slots
  {
    hide TreeOk, RawOk;
    if slots.Slot? {
      RawOfIsOk(slots.value, level);
      PartsOfAreOk(list, slots.rest, level);
    }
  }

  // ----- What a reader makes of it -----

  /** A property defined on an object: an existing key keeps its place. */
  function Put(slots: Slots, key: Option<Text>, value: Tree): Slots {
    match slots
    case Done => Slot(key, value, Done)
    case Slot(k, v, rest) => if key.Some? && k == key then Slot(k, value, rest) else Slot(k, v, Put(rest, key, value))
  }

  /** The tree the reader ends up with; none where a BigInt's text is no integer. */
  function Sense(r: Raw): Option<Tree> {
    match r
    case Word(code, text) => (match WordLeaf(code, text) case None => None case Some(leaf) => Some(LeafTree(leaf)))
    case Simple(leaf) => Some(LeafTree(leaf))
    case Back(up) => Some(Cycle(up))
    case Whole(list, parts) =>
      (match SenseInto(Done, parts) case None => None case Some(slots) => Some(Box(list, slots)))
  }

  function SenseInto(done: Slots, parts: Parts): Option<Slots>
    decreases parts
  {
    match parts
    case NoPart => Some(done)
    case Part(key, value, rest) =>
      match Sense(value)
      case None => None
      case Some(t) => SenseInto(Put(done, key, t), rest)
  }

  /** No key of `a` is a key of `b`. */
  ghost predicate Apart(a: Slots, b: Slots) {
    match a
    case Done => true
    case Slot(key, _, rest) => (key.Some? ==> !HasKey(b, key.value)) && Apart(rest, b)
  }

  /** A tree that arrives as it left is read as it was. */
  lemma {:induction false} SenseOfRaw(t: Tree, level: nat)
    requires TreeOk(t, level)
    ensures Sense(RawOf(t)) == Some(t)
    decreases t
  {
    hide IntegerText, IntegerOf, IsInteger;
    match t
    case LeafTree(BigInt(i)) => IntegerComesBack(i);
    case Box(list, slots) => SenseOfParts(Done, list, slots, level + 1);
    case _ =>
  }

  lemma {:induction false} SenseOfParts(done: Slots, list: bool, slots: Slots, level: nat)
    requires SlotsOk(list, slots, level) && DistinctSlots(slots) && Apart(done, slots)
    ensures SenseInto(done, PartsOf(slots)) == Some(Appended(done, slots))
    decreases slots
  {
    hide TreeOk, Sense, RawOf;
    if slots.Done? {
      AppendedNothing(done);
    } else {
      SenseOfRaw(slots.value, level);
      PutLast(done, slots);
      AppendedStep(done, slots);
      SenseOfParts(Appended(done, Slot(slots.key, slots.value, Done)), list, slots.rest, level);
    }
  }

  lemma {:induction false} PutLast(done: Slots, slots: Slots)
    requires slots.Slot? && Apart(done, slots) && DistinctSlots(slots)
    ensures Put(done, slots.key, slots.value) == Appended(done, Slot(slots.key, slots.value, Done))
    ensures Apart(Put(done, slots.key, slots.value), slots.rest)
    decreases done
  {
    if done.Slot? {
      PutLast(done.rest, slots);
    }
  }

  // ----- Other texts in the same shape -----

  function Retext(r: Raw, x: Text): Raw
    requires |x| == |RawTape(r).text|
    decreases r
  {
    match r
    case Word(code, _) => Word(code, x)
    case Simple(_) => r
    case Back(_) => r
    case Whole(list, parts) => Whole(list, RetextParts(parts, x))
  }

  function KeyLength(key: Option<Text>): nat { if key.None? then 0 else |key.value| }

  lemma PartLengths(parts: Parts)
    requires parts.Part?
    ensures |PartsTape(parts).text| == KeyLength(parts.key) + |RawTape(parts.value).text| + |PartsTape(parts.rest).text|
    ensures PartsTape(parts).text
      == KeyTape(parts.key, false).text + (RawTape(parts.value).text + PartsTape(parts.rest).text)
  {
  }

  function RetextParts(parts: Parts, x: Text): Parts
    requires |x| == |PartsTape(parts).text|
    decreases parts
  {
    match parts
    case NoPart => NoPart
    case Part(key, value, rest) =>
      PartLengths(parts);
      var k := KeyLength(key);
      var v := k + |RawTape(value).text|;
      Part(if key.None? then None else Some(x[..k]), Retext(value, x[k..v]), RetextParts(rest, x[v..]))
  }

  lemma {:induction false} RetextIsOk(r: Raw, x: Text, level: nat)
    requires RawOk(r, level) && |x| == |RawTape(r).text|
    ensures RawOk(Retext(r, x), level)
    decreases r
  {
    if r.Whole? {
      RetextPartsAreOk(r.list, r.parts, x, level + 1);
    }
  }

  lemma {:induction false} RetextPartsAreOk(list: bool, parts: Parts, x: Text, level: nat)
    requires PartsOk(list, parts, level) && |x| == |PartsTape(parts).text|
    ensures PartsOk(list, RetextParts(parts, x), level)
    decreases parts
  {
    hide RawOk, RawTape, PartsTape, Retext;
    if parts.Part? {
      PartLengths(parts);
      var k := KeyLength(parts.key);
      var v := k + |RawTape(parts.value).text|;
      RetextIsOk(parts.value, x[k..v], level);
      RetextPartsAreOk(list, parts.rest, x[v..], level);
    }
  }

  /** Only the text of the tape is another. */
  lemma {:induction false} RetextTape(r: Raw, x: Text, level: nat)
    requires RawOk(r, level) && |x| == |RawTape(r).text|
    ensures RawTape(Retext(r, x)) == RawTape(r).(text := x)
    decreases r
  {
    hide IntegerText;
    match r
    case Whole(list, parts) =>
      RetextPartsTape(list, parts, x, level + 1);
      var inner := PartsTape(parts);
      assert inner.text == [] + (inner.text + []);
      assert x == [] + (x + []);
    case Simple(leaf) => assert x == [];
    case _ =>
  }

  lemma {:induction false} RetextPartsTape(list: bool, parts: Parts, x: Text, level: nat)
    requires PartsOk(list, parts, level) && |x| == |PartsTape(parts).text|
    ensures PartsTape(RetextParts(parts, x)) == PartsTape(parts).(text := x)
    decreases parts
  {
    hide RawOk, RawTape, Retext;
    if parts.Part? {
      PartLengths(parts);
      var k := KeyLength(parts.key);
      var v := k + |RawTape(parts.value).text|;
      RetextTape(parts.value, x[k..v], level);
      RetextPartsTape(list, parts.rest, x[v..], level);
      assert x == x[..k] + (x[k..v] + x[v..]);
    }
  }

  /** The same texts are the same words. */
  lemma {:induction false} RetextSame(r: Raw, level: nat)
    requires RawOk(r, level)
    ensures Retext(r, RawTape(r).text) == r
    decreases r
  {
    hide IntegerText;
    if r.Whole? {
      var inner := PartsTape(r.parts).text;
      assert [] + (inner + []) == inner;
      RetextPartsSame(r.list, r.parts, level + 1);
    }
  }

  lemma {:induction false} RetextPartsSame(list: bool, parts: Parts, level: nat)
    requires PartsOk(list, parts, level)
    ensures RetextParts(parts, PartsTape(parts).text) == parts
    decreases parts
  {
    hide RawOk, RawTape, Retext;
    if parts.Part? {
      PartLengths(parts);
      var x, k := PartsTape(parts).text, KeyLength(parts.key);
      var v := k + |RawTape(parts.value).text|;
      RetextSame(parts.value, level);
      RetextPartsSame(list, parts.rest, level);
      assert x[..k] == KeyTape(parts.key, false).text;
      assert x[k..v] == RawTape(parts.value).text && x[v..] == PartsTape(parts.rest).text;
    }
  }

  // ----- A reader that ends up with the tree has read the texts that left -----

  function Count(slots: Slots): nat {
    match slots
    case Done => 0
    case Slot(_, _, rest) => 1 + Count(rest)
  }

  function PartCount(parts: Parts): nat {
    match parts
    case NoPart => 0
    case Part(_, _, rest) => 1 + PartCount(rest)
  }

  /** The parts read one by one, none in place of another. */
  function Each(parts: Parts): Option<Slots> {
    match parts
    case NoPart => Some(Done)
    case Part(key, value, rest) =>
      match (Sense(value), Each(rest))
      case (Some(t), Some(slots)) => Some(Slot(key, t, slots))
      case _ => None
  }

  lemma {:induction false} PutCounts(slots: Slots, key: Option<Text>, value: Tree)
    ensures Count(Put(slots, key, value)) <= Count(slots) + 1
    ensures Count(Put(slots, key, value)) == Count(slots) + 1 ==>
      Put(slots, key, value) == Appended(slots, Slot(key, value, Done))
  {
    if slots.Slot? {
      PutCounts(slots.rest, key, value);
    }
  }

  /** As many slots as parts means that none was put in place of another. */
  lemma {:induction false} AllPutLast(done: Slots, parts: Parts)
    requires SenseInto(done, parts).Some?
    ensures Each(parts).Some? && Count(SenseInto(done, parts).value) <= Count(done) + PartCount(parts)
    ensures Count(SenseInto(done, parts).value) == Count(done) + PartCount(parts) ==>
      SenseInto(done, parts).value == Appended(done, Each(parts).value)
    decreases parts
  {
    hide Sense;
    if parts.NoPart? {
      AppendedNothing(done);
    } else {
      var t := Sense(parts.value).value;
      PutCounts(done, parts.key, t);
      AllPutLast(Put(done, parts.key, t), parts.rest);
      AppendedStep(done, Slot(parts.key, t, Each(parts.rest).value));
    }
  }

  lemma {:induction false} RetextKeepsCount(slots: Slots, x: Text)
    requires |x| == |PartsTape(PartsOf(slots)).text|
    ensures PartCount(RetextParts(PartsOf(slots), x)) == Count(slots)
    decreases slots
  {
    hide RawTape, RawOf, Retext;
    if slots.Slot? {
      PartLengths(PartsOf(slots));
      var v := KeyLength(slots.key) + |RawTape(RawOf(slots.value)).text|;
      RetextKeepsCount(slots.rest, x[v..]);
    }
  }

  lemma {:induction false} OnlyTheSameText(t: Tree, x: Text, level: nat)
    requires TreeOk(t, level) && |x| == |RawTape(RawOf(t)).text|
    requires Sense(Retext(RawOf(t), x)) == Some(t)
    ensures x == RawTape(RawOf(t)).text
    decreases t
  {
    hide IntegerText, IntegerOf, IsInteger;
    match t
    case LeafTree(BigInt(i)) => IntegerTextIsUnique(x, i);
    case Box(list, slots) =>
      var parts := RetextParts(PartsOf(slots), x);
      AllPutLast(Done, parts);
      RetextKeepsCount(slots, x);
      OnlyTheSameTexts(list, slots, x, level + 1);
      assert [] + (x + []) == x;
    case _ =>
  }

  lemma NoText(x: Text)
    requires |x| == |PartsTape(NoPart).text|
    ensures x == PartsTape(NoPart).text
  {
  }

  lemma {:induction false} OnlyTheSameTexts(list: bool, slots: Slots, x: Text, level: nat)
    requires SlotsOk(list, slots, level) && |x| == |PartsTape(PartsOf(slots)).text|
    requires Each(RetextParts(PartsOf(slots), x)) == Some(slots)
    ensures x == PartsTape(PartsOf(slots)).text
    decreases slots
  {
    hide TreeOk, RawTape, RawOf, Retext, Sense, PartsTape;
    if slots.Done? {
      NoText(x);
    } else {
      PartLengths(PartsOf(slots));
      var k := KeyLength(slots.key);
      var v := k + |RawTape(RawOf(slots.value)).text|;
      OnlyTheSameText(slots.value, x[k..v], level);
      OnlyTheSameTexts(list, slots.rest, x[v..], level);
      assert x == x[..k] + (x[k..v] + x[v..]);
    }
  }

  /** With other texts in the shape of a tree, a reader ends up with the tree exactly when they are the same. */
  lemma SameTreeSameText(t: Tree, x: Text)
    requires TreeOk(t, 0) && |x| == |Encode(t, false).text|
    ensures RawTape(RawOf(t)) == Encode(t, false) && RawOk(Retext(RawOf(t), x), 0)
    ensures RawTape(Retext(RawOf(t), x)) == Encode(t, false).(text := x)
    ensures Sense(Retext(RawOf(t), x)) == Some(t) <==> x == Encode(t, false).text
  {
    hide RawTape, RawOf, Encode, Retext, Sense, RawOk, TreeOk;
    RawOfSpells(t);
    RawOfIsOk(t, 0);
    RetextIsOk(RawOf(t), x, 0);
    RetextTape(RawOf(t), x, 0);
    if x == Encode(t, false).text {
      RetextSame(RawOf(t), 0);
      SenseOfRaw(t, 0);
    } else if Sense(Retext(RawOf(t), x)) == Some(t) {
      OnlyTheSameText(t, x, 0);
    }
  }
}
