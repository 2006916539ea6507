/**
 Marked JSON, after runtimes/js/src/crossing.ts: a JSON tree in which every value JSON cannot spell
 is a string that starts with the context's mark.
 */
module Marks {
  import opened Graph
  import opened Tapes

  const MARKED_UNDEFINED: Unit := 117
  const MARKED_NAN: Unit := 110
  const MARKED_INFINITY: Unit := 105
  const MARKED_NEGATIVE_INFINITY: Unit := 106
  const MARKED_NEGATIVE_ZERO: Unit := 122
  const MARKED_BIGINT: Unit := 98
  const MARKED_CYCLE: Unit := 99
  const MARKED_LEAF: Unit := 102

  function Marker(mark: Text, code: Unit, body: Text): Leaf { String(mark + ([code] + body)) }

  predicate JsonNumber(n: Number) { n.Finite? }

  function SpecialCode(n: Number): Unit
    requires !JsonNumber(n)
  {
    match n
    case NaN => MARKED_NAN
    case NegativeZero => MARKED_NEGATIVE_ZERO
    case Infinity => MARKED_INFINITY
    case NegativeInfinity => MARKED_NEGATIVE_INFINITY
  }

  /** Whether a leaf needs a marker. */
  predicate NeedsMark(leaf: Leaf) {
    leaf.Undefined? || leaf.BigInt? || leaf.Function? || (leaf.Numeric? && !JsonNumber(leaf.number))
  }

  /** A leaf as JSON spells it; `n` functions were met before it. */
  function MarkedLeaf(leaf: Leaf, mark: Text, n: nat): Leaf {
    if !NeedsMark(leaf) then leaf
    else
      match leaf
      case Undefined => Marker(mark, MARKED_UNDEFINED, [])
      case Numeric(number) => Marker(mark, SpecialCode(number), [])
      case BigInt(i) => Marker(mark, MARKED_BIGINT, IntegerText(i))
      case Function(_) => Marker(mark, MARKED_LEAF, IntegerText(n))
  }

  /** The functions in a tree, in order. */
  function Functions(t: Tree): seq<nat> {
    match t
    case LeafTree(Function(handle)) => [handle]
    case Box(_, slots) => SlotsFunctions(slots)
    case _ => []
  }

  function SlotsFunctions(slots: Slots): seq<nat> {
    match slots
    case Done => []
    case Slot(_, value, rest) => Functions(value) + SlotsFunctions(rest)
  }

  function Marked(t: Tree, mark: Text, n: nat): Tree
    decreases t
  {
    match t
    case LeafTree(leaf) => LeafTree(MarkedLeaf(leaf, mark, n))
    case Cycle(up) => LeafTree(Marker(mark, MARKED_CYCLE, IntegerText(up)))
    case Box(list, slots) => Box(list, MarkedSlots(slots, mark, n))
  }

  function MarkedSlots(slots: Slots, mark: Text, n: nat): Slots
    decreases slots
  {
    match slots
    case Done => Done
    case Slot(key, value, rest) =>
      Slot(key, Marked(value, mark, n), MarkedSlots(rest, mark, n + |Functions(value)|))
  }

  /** Whether a tree needs any marker. */
  predicate HasMark(t: Tree) {
    match t
    case LeafTree(leaf) => NeedsMark(leaf)
    case Cycle(_) => true
    case Box(_, slots) => SlotsHaveMark(slots)
  }

  predicate SlotsHaveMark(slots: Slots) {
    match slots
    case Done => false
    case Slot(_, value, rest) => HasMark(value) || SlotsHaveMark(rest)
  }

  predicate StartsWith(t: Text, mark: Text) { |mark| <= |t| && t[..|mark|] == mark }

  /** No string of the tree passes for a marker. */
  predicate Unmarked(t: Tree, mark: Text) {
    match t
    case LeafTree(leaf) => leaf.String? ==> !StartsWith(leaf.text, mark)
    case Cycle(_) => true
    case Box(_, slots) => SlotsUnmarked(slots, mark)
  }

  predicate SlotsUnmarked(slots: Slots, mark: Text) {
    match slots
    case Done => true
    case Slot(_, value, rest) => Unmarked(value, mark) && SlotsUnmarked(rest, mark)
  }

  /** A tree that needs no marker is JSON as it is. */
  lemma {:induction false} UnmarkedIsJson(t: Tree, mark: Text, n: nat)
    requires !HasMark(t)
    ensures Marked(t, mark, n) == t
    decreases t
  {
    if t.Box? {
      UnmarkedSlotsAreJson(t.slots, mark, n);
    }
  }

  lemma {:induction false} UnmarkedSlotsAreJson(slots: Slots, mark: Text, n: nat)
    requires !SlotsHaveMark(slots)
    ensures MarkedSlots(slots, mark, n) == slots
    decreases slots
  {
    if slots.Slot? {
      UnmarkedIsJson(slots.value, mark, n);
      UnmarkedSlotsAreJson(slots.rest, mark, n + |Functions(slots.value)|);
    }
  }
}
