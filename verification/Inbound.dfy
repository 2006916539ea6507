/**
 Host values on their way into the sandbox, after `spell` and `marshalArgsToQuickJS` of
 runtimes/js/src/marshal.ts and `decode` of runtimes/js/src/crossing.ts: the host writes a tape, and
 a stack machine in the sandbox builds the value from it.
 */
module Inbound {
  import opened Prelude
  import opened Graph
  import opened Tapes
  import opened Writers
  import Decimal

  // ----- What arrives -----

  /** A symbol arrives as an argument of its own, without a description a C string cannot carry. */
  function Arriving(leaf: Leaf, top: bool): Leaf {
    if !leaf.Symbol? then leaf
    else if !top then Undefined
    else if leaf.description.Some? && !SafeText(leaf.description.value) then Symbol(None)
    else leaf
  }

  function Arrived(t: Tree, top: bool): Tree {
    match t
    case LeafTree(leaf) => LeafTree(Arriving(leaf, top))
    case Cycle(up) => t
    case Box(list, slots) => Box(list, ArrivedSlots(slots, false))
  }

  function ArrivedSlots(slots: Slots, top: bool): Slots {
    match slots
    case Done => Done
    case Slot(key, value, rest) => Slot(key, Arrived(value, top), ArrivedSlots(rest, top))
  }

  lemma {:induction false} ArrivedIsOk(t: Tree, top: bool, level: nat)
    requires TreeOk(t, level)
    ensures TreeOk(Arrived(t, top), level)
    decreases t
  {
    if t.Box? {
      ArrivedSlotsAreOk(t.list, t.slots, false, level + 1);
    }
  }

  lemma {:induction false} ArrivedSlotsAreOk(list: bool, slots: Slots, top: bool, level: nat)
    requires SlotsOk(list, slots, level) && DistinctSlots(slots)
    ensures SlotsOk(list, ArrivedSlots(slots, top), level) && DistinctSlots(ArrivedSlots(slots, top))
    decreases slots
  {
    if slots.Slot? {
      ArrivedIsOk(slots.value, top, level);
      ArrivedSlotsAreOk(list, slots.rest, top, level);
      if slots.key.Some? {
        ArrivedKeys(slots.rest, top, slots.key.value);
      }
    }
  }

  lemma {:induction false} ArrivedKeys(slots: Slots, top: bool, key: Text)
    ensures HasKey(ArrivedSlots(slots, top), key) <==> HasKey(slots, key)
  {
    if slots.Slot? {
      ArrivedKeys(slots.rest, top, key);
    }
  }

  // ----- What JSON carries exactly -----

  const MAX_JSON_DEPTH: nat := 512

  /** The key `__proto__`, which a plain assignment would not define. */
  const PROTO: Text := [95, 95, 112, 114, 111, 116, 111, 95, 95]

  predicate ExactLeaf(leaf: Leaf) {
    leaf.String? || leaf.Boolean? || leaf.Null? || (leaf.Numeric? && leaf.number.Finite?)
  }

  /** A tree JSON text spells and restores exactly, below `depth` containers. */
  predicate JsonExact(t: Tree, depth: nat)
    decreases t
  {
    match t
    case LeafTree(leaf) => ExactLeaf(leaf)
    case Cycle(_) => false
    case Box(_, slots) => depth <= MAX_JSON_DEPTH && SlotsExact(slots, depth + 1)
  }

  predicate SlotsExact(slots: Slots, depth: nat)
    decreases slots
  {
    match slots
    case Done => true
    case Slot(key, value, rest) => key != Some(PROTO) && JsonExact(value, depth) && SlotsExact(rest, depth)
  }

  /** The check before the tape: whether JSON carries the value exactly. */
  method IsJsonExact(heap: Heap, value: Value, ancestors: set<nat>, depth: nat,
      ghost path: seq<nat>) returns (exact: bool)
    requires WellFormed(heap) && Holds(heap, value) && IsPath(heap, path)
    requires depth == |path| && ancestors == set r | r in path
    ensures exact <==> JsonExact(Unfold(heap, value, path), depth)
    decreases Free(heap, path), 0
  {
    hide UnfoldSlots, SlotsExact, Free, WellFormed;
    if value.Plain? {
      return ExactLeaf(value.leaf);
    }
    var r := value.at;
    if depth > MAX_JSON_DEPTH || r in ancestors {
      return false;
    }
    FreeShrinks(heap, path, r);
    PathGrows(heap, path, r);
    NodeIsHeld(heap, r);
    exact := AreJsonExact(heap, heap[r].list, heap[r].slots, ancestors + {r}, depth + 1, path + [r]);
  }

  lemma NodeIsHeld(heap: Heap, r: nat)
    requires WellFormed(heap) && r in heap
    ensures SlotsHeld(heap, heap[r].list, heap[r].slots)
  {
  }

  method AreJsonExact(heap: Heap, list: bool, slots: seq<Property>, ancestors: set<nat>, depth: nat,
      ghost path: seq<nat>)
      returns (exact: bool)
    requires WellFormed(heap) && SlotsHeld(heap, list, slots) && IsPath(heap, path)
    requires depth == |path| && ancestors == set r | r in path
    ensures exact <==> SlotsExact(UnfoldSlots(heap, list, slots, path), depth)
    decreases Free(heap, path), |slots| + 1
  {
    hide Unfold, JsonExact, Free, WellFormed, IsPath, SlotsHeld;
    assert slots[0..] == slots;
    for i := 0 to |slots|
      invariant SlotsHeld(heap, list, slots[i..])
      invariant SlotsExact(UnfoldSlots(heap, list, slots, path), depth) <==>
        SlotsExact(UnfoldSlots(heap, list, slots[i..], path), depth)
    {
      NextSlot(heap, list, slots, i, path);
      if slots[i].key == Some(PROTO) {
        return false;
      }
      var one := IsJsonExact(heap, slots[i].value, ancestors, depth, path);
      if !one {
        return false;
      }
    }
    assert slots[|slots|..] == [];
    return true;
  }

  /** What JSON carries exactly nests shallowly and arrives as it is on either route. */
  lemma {:induction false} ExactArrives(t: Tree, top: bool, depth: nat)
    requires JsonExact(t, depth)
    ensures Arrived(t, top) == t && depth + Depth(t) <= Max(depth, MAX_JSON_DEPTH + 1)
    decreases t
  {
    if t.Box? {
      ExactSlotsArrive(t.slots, false, depth + 1);
    }
  }

  lemma {:induction false} ExactSlotsArrive(slots: Slots, top: bool, depth: nat)
    requires SlotsExact(slots, depth)
    ensures ArrivedSlots(slots, top) == slots && depth + SlotsDepth(slots) <= Max(depth, MAX_JSON_DEPTH + 1)
    decreases slots
  {
    if slots.Slot? {
      ExactArrives(slots.value, top, depth);
      ExactSlotsArrive(slots.rest, top, depth);
    }
  }

  // ----- Writing -----

  /** Writes host values on a tape; `ancestors` are the containers it is inside. */
  class Speller {
    const tape: Writer
    var ancestors: seq<nat>

    constructor (tape: Writer)
      ensures this.tape == tape && ancestors == []
    {
      this.tape := tape;
      ancestors := [];
    }

    method SpellLeaf(leaf: Leaf, top: bool)
      modifies this, tape
      ensures tape.Written() == Plus(old(tape.Written()), LeafTape(Arriving(leaf, top), true))
      ensures ancestors == old(ancestors)
    {
      hide Plus, IntegerText, TextTape, Writer.Written;
      match leaf
      case Undefined => tape.Put(UNDEFINED);
      case Null => tape.Put(NULL);
      case Boolean(yes) => tape.Put(if yes then TRUE else FALSE);
      case Numeric(n) => tape.PutNumber(NUMBER, n);
      case String(t) => tape.PutText(t);
      case BigInt(i) => tape.PutSpelled(BIGINT, IntegerText(i));
      case Function(handle) => tape.PutLeaf(handle);
      case Symbol(description) =>
        if !top {
          tape.Put(UNDEFINED);
        } else if description.None? || !SafeText(description.value) {
          tape.Put(BARE_SYMBOL);
        } else {
          tape.PutSpelled(SYMBOL, description.value);
        }
    }

    /** Writes the tape of the value's tree; refuses exactly when it nests past the limit. */
    method Spell(heap: Heap, value: Value, top: bool) returns (refused: bool)
      requires WellFormed(heap) && Holds(heap, value) && IsPath(heap, ancestors) && |ancestors| <= MAX_CROSSING_DEPTH
      modifies this, tape
      ensures refused <==> |old(ancestors)| + Depth(Unfold(heap, value, old(ancestors))) > MAX_CROSSING_DEPTH
      ensures !refused ==> ancestors == old(ancestors)
      ensures !refused ==>
        tape.Written() == Plus(old(tape.Written()), Encode(Arrived(Unfold(heap, value, old(ancestors)), top), true))
      decreases Free(heap, ancestors), 0
    {
      hide Plus, Writer.Written, LeafTape, SlotsDepth, WellFormed, Free, Arriving, UnfoldSlots, EncodeSlots;
      if value.Plain? {
        SpellLeaf(value.leaf, top);
        return false;
      }
      if value.at in ancestors {
        tape.PutNumber(CYCLE, Length(Up(ancestors, value.at)));
        return false;
      }
      if |ancestors| >= MAX_CROSSING_DEPTH {
        return true;
      }
      FreeShrinks(heap, ancestors, value.at);
      refused := SpellBox(heap, value.at);
    }

    method SpellBox(heap: Heap, r: nat) returns (refused: bool)
      requires WellFormed(heap) && r in heap && IsPath(heap, ancestors) && |ancestors| < MAX_CROSSING_DEPTH
      requires r !in ancestors
      modifies this, tape
      ensures refused <==> |old(ancestors)| + Depth(Unfold(heap, Ref(r), old(ancestors))) > MAX_CROSSING_DEPTH
      ensures !refused ==> ancestors == old(ancestors)
      ensures !refused ==>
        tape.Written() == Plus(old(tape.Written()), Encode(Arrived(Unfold(heap, Ref(r), old(ancestors)), false), true))
      decreases Free(heap, ancestors + [r]), |heap[r].slots| + 2
    {
      hide Plus, LeafTape, SlotsDepth, Free, Arriving, UnfoldSlots, EncodeSlots, SlotsHeld, DistinctKeys;
      ghost var was := tape.Written();
      var list, slots := heap[r].list, heap[r].slots;
      PathGrows(heap, ancestors, r);
      ancestors := ancestors + [r];
      tape.Put(StartCode(list));
      refused := SpellSlots(heap, list, slots, false);
      if !refused {
        ancestors := ancestors[..|ancestors| - 1];
        tape.Put(EndCode(list));
        ghost var inner := UnfoldSlots(heap, list, slots, old(ancestors) + [r]);
        BoxJoined(was, OneCode(StartCode(list)), EncodeSlots(ArrivedSlots(inner, false), true), OneCode(EndCode(list)));
      }
    }

    method SpellSlots(heap: Heap, list: bool, slots: seq<Property>, top: bool) returns (refused: bool)
      requires WellFormed(heap) && SlotsHeld(heap, list, slots) && IsPath(heap, ancestors)
      requires |ancestors| <= MAX_CROSSING_DEPTH
      modifies this, tape
      ensures refused <==>
        |old(ancestors)| + SlotsDepth(UnfoldSlots(heap, list, slots, old(ancestors))) > MAX_CROSSING_DEPTH
      ensures !refused ==> ancestors == old(ancestors)
      ensures !refused ==>
        var arrived := ArrivedSlots(UnfoldSlots(heap, list, slots, old(ancestors)), top);
        tape.Written() == Plus(old(tape.Written()), EncodeSlots(arrived, true))
      decreases Free(heap, ancestors), |slots| + 1
    {
      hide Plus, Writer.Written, LeafTape, Free, Arriving, WellFormed, Depth, Encode, SlotsHeld, TextTape, IsPath,
        Unfold;
      ghost var path, all := ancestors, UnfoldSlots(heap, list, slots, ancestors);
      assert slots[0..] == slots;
      for i := 0 to |slots|
        invariant ancestors == path && SlotsHeld(heap, list, slots[i..])
        invariant Owed(tape.Written(), UnfoldSlots(heap, list, slots[i..], path), top) == Owed(old(tape.Written()),
          all, top)
        invariant |path| + SlotsDepth(all) > MAX_CROSSING_DEPTH <==>
          |path| + SlotsDepth(UnfoldSlots(heap, list, slots[i..], path)) > MAX_CROSSING_DEPTH
      {
        NextSlot(heap, list, slots, i, path);
        ghost var was := tape.Written();
        if !list {
          tape.PutText(slots[i].key.value);
        } else {
          PlusBlank(was);
        }
        refused := Spell(heap, slots[i].value, top);
        if refused {
          return;
        }
        OwedLess(was, UnfoldSlots(heap, list, slots[i..], path), top);
      }
      PlusBlank(tape.Written());
      assert slots[|slots|..] == [];
      refused := false;
    }

    /** Copies an argument list in: each argument crosses as a value of its own. */
    method MarshalArgs(heap: Heap, args: nat) returns (refused: bool)
      requires WellFormed(heap) && args in heap && heap[args].list && tape.Written() == BLANK && ancestors == []
      modifies this, tape
      ensures refused <==> Depth(Unfold(heap, Ref(args), [])) > MAX_CROSSING_DEPTH
      ensures !refused ==> tape.Written() == Encode(ArgsTree(heap, args), true)
    {
      hide Plus, LeafTape, Free, Arriving, EncodeSlots, UnfoldSlots, SlotsDepth;
      tape.Put(ARRAY_START);
      PlusBlank(OneCode(ARRAY_START));
      ancestors := [args];
      assert [] + [args] == [args];
      refused := SpellSlots(heap, true, heap[args].slots, true);
      if !refused {
        ghost var slots := EncodeSlots(ArrivedSlots(UnfoldSlots(heap, true, heap[args].slots, [args]), true), true);
        tape.Put(ARRAY_END);
        PlusAssociates(OneCode(ARRAY_START), slots, OneCode(ARRAY_END));
      }
    }
  }

  /** What an argument list arrives as. */
  ghost function ArgsTree(heap: Heap, args: nat): Tree
    requires WellFormed(heap) && args in heap
  {
    Box(true, ArrivedSlots(UnfoldSlots(heap, heap[args].list, heap[args].slots, [args]), true))
  }

  /** What the tape will hold once the slots are written too. */
  ghost function Owed(written: Tape, slots: Slots, top: bool): Tape {
    Plus(written, EncodeSlots(ArrivedSlots(slots, top), true))
  }

  lemma OwedLess(was: Tape, slots: Slots, top: bool)
    requires slots.Slot?
    ensures Owed(Plus(Plus(was, KeyTape(slots.key, true)), Encode(Arrived(slots.value, top), true)), slots.rest,
      top) == Owed(was, slots, top)
  {
    hide Plus, KeyTape, Encode;
    var key, value := KeyTape(slots.key, true), Encode(Arrived(slots.value, top), true);
    var rest := EncodeSlots(ArrivedSlots(slots.rest, top), true);
    PlusAssociates(Plus(was, key), value, rest);
    PlusAssociates(was, key, Plus(value, rest));
  }

  lemma BoxJoined(was: Tape, start: Tape, slots: Tape, end: Tape)
    ensures Plus(Plus(Plus(was, start), slots), end) == Plus(was, Plus(start, Plus(slots, end)))
  {
    hide Plus;
    PlusAssociates(Plus(was, start), slots, end);
    PlusAssociates(was, start, Plus(slots, end));
  }

  /** The joined text is one a C string carries exactly, so it arrives as it left. */
  lemma {:induction false} TextIsSafe(t: Tree, top: bool)
    ensures SafeText(Encode(Arrived(t, top), true).text)
    decreases t
  {
    hide SafeText, IntegerText, LeafTape, Arriving;
    match t
    case LeafTree(leaf) => LeafTextIsSafe(leaf, top);
    case Cycle(up) => NothingIsSafe();
    case Box(list, slots) =>
      SlotsTextIsSafe(slots, false);
      var text := EncodeSlots(ArrivedSlots(slots, false), true).text;
      assert [] + (text + []) == text;
  }

  lemma {:induction false} SlotsTextIsSafe(slots: Slots, top: bool)
    ensures SafeText(EncodeSlots(ArrivedSlots(slots, top), true).text)
    decreases slots
  {
    hide SafeText, TextTape, Encode, Arrived;
    match slots
    case Done => NothingIsSafe();
    case Slot(key, value, rest) =>
      NothingIsSafe();
      if key.Some? {
        TextTapeIsSafe(key.value);
      }
      TextIsSafe(value, top);
      SlotsTextIsSafe(rest, top);
      var a, b := Encode(Arrived(value, top), true).text, EncodeSlots(ArrivedSlots(rest, top), true).text;
      SafeJoins(a, b);
      SafeJoins(KeyTape(key, true).text, a + b);
  }

  lemma NothingIsSafe()
    ensures SafeText([])
  {
  }

  lemma SafeJoins(a: Text, b: Text)
    requires SafeText(a) && SafeText(b)
    ensures SafeText(a + b)
  {
    PairedJoins(a, b);
  }

  lemma TextTapeIsSafe(t: Text)
    ensures SafeText(TextTape(t, true).text)
  {
    hide SafeText;
    NothingIsSafe();
  }

  lemma LeafTextIsSafe(leaf: Leaf, top: bool)
    ensures SafeText(LeafTape(Arriving(leaf, top), true).text)
  {
    hide SafeText, IntegerText, TextTape;
    NothingIsSafe();
    if leaf.String? {
      TextTapeIsSafe(leaf.text);
    } else if leaf.BigInt? {
      IntegerTextIsSafe(leaf.integer);
    }
  }

  lemma IntegerTextIsSafe(i: int)
    ensures SafeText(IntegerText(i))
  {
    hide Decimal.Spelling;
    AsciiIsSafe(IntegerText(i));
  }

  lemma {:induction false} AsciiIsSafe(t: Text)
    requires forall i :: 0 <= i < |t| ==> 0 < t[i] < 128
    ensures SafeText(t)
  {
    if t != [] {
      AsciiIsSafe(t[1..]);
    }
  }
}
