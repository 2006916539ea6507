/**
 The stack machine that builds a value from a tape inside the sandbox, after `decode` of
 runtimes/js/src/crossing.ts.
 */
module Decoder {
  import opened Prelude
  import opened Graph
  import opened Tapes
  import opened Cursors
  import opened Writers
  import opened MarkReading
  import Inbound

  /** A container being built: its reference, and the key its next value goes under. */
  datatype Building = Building(target: nat, list: bool, key: Option<Text>)

  datatype Machine = Machine(heap: Heap, next: nat, frames: seq<Building>, result: Option<Value>, input: Tape)

  // ----- One code -----

  function Top(m: Machine): Building
    requires m.frames != []
  {
    m.frames[|m.frames| - 1]
  }

  function WithKey(m: Machine, key: Option<Text>): Machine
    requires m.frames != []
  {
    m.(frames := m.frames[|m.frames| - 1 := Top(m).(key := key)])
  }

  /** Where a finished value goes: the result, the next element, a key, or the property under the key. */
  function Deliver(m: Machine, v: Value): Option<Machine> {
    if m.frames == [] then Some(m.(result := Some(v)))
    else
      var top := Top(m);
      if top.target !in m.heap then None
      else if top.list then Some(m.(heap := Place(m.heap, top.target, Property(None, v))))
      else if top.key.Some? then Some(WithKey(m.(heap := Place(m.heap, top.target, Property(top.key, v))), None))
      else if v.Plain? && v.leaf.String? then Some(WithKey(m, Some(v.leaf.text)))
      else None
  }

  function Started(m: Machine, list: bool): Machine
    requires m.input.codes != []
  {
    m.(heap := m.heap[m.next := Node(list, [])], next := m.next + 1,
       frames := m.frames + [Building(m.next, list, None)], input := Skip(m.input))
  }

  /** Reads one code; none for a tape no writer spells. */
  function Step(m: Machine): (r: Option<Machine>)
    requires m.input.codes != []
    ensures r.Some? ==> |r.value.input.codes| < |m.input.codes|
  {
    var code := m.input.codes[0];
    if code == ARRAY_START || code == OBJECT_START then Some(Started(m, code == ARRAY_START))
    else if code == ARRAY_END || code == OBJECT_END then
      if m.frames == [] then None
      else Deliver(m.(frames := m.frames[..|m.frames| - 1], input := Skip(m.input)), Ref(Top(m).target))
    else if code == CYCLE then
      if m.input.numbers == [] || !(1 <= CountOf(m.input.numbers[0]) <= |m.frames|) then None
      else
        var up := CountOf(m.input.numbers[0]);
        Deliver(m.(input := Skip(m.input).(numbers := m.input.numbers[1..])), Ref(m.frames[|m.frames| - up].target))
    else
      match TakeLeaf(m.input)
      case None => None
      case Some(taken) => Deliver(m.(input := taken.rest), Plain(taken.leaf))
  }

  function Run(m: Machine): Option<Machine>
    decreases |m.input.codes|
  {
    if m.input.codes == [] then Some(m)
    else match Step(m) case None => None case Some(next) => Run(next)
  }

  function Continue(m: Option<Machine>): Option<Machine> {
    if m.None? then None else Run(m.value)
  }

  // ----- What every step keeps -----

  function Targets(frames: seq<Building>): (path: seq<nat>)
    ensures |path| == |frames|
  {
    seq(|frames|, i requires 0 <= i < |frames| => frames[i].target)
  }

  ghost predicate FramesOk(heap: Heap, frames: seq<Building>) {
    forall i :: 0 <= i < |frames| ==> frames[i].target in heap && heap[frames[i].target].list == frames[i].list
  }

  ghost predicate MachineOk(m: Machine) {
    && WellFormed(m.heap)
    && Below(m.heap, m.next)
    && FramesOk(m.heap, m.frames)
    && Distinct(Targets(m.frames))
    && (m.result.Some? ==> Holds(m.heap, m.result.value))
  }

  lemma DeliverKeepsOk(m: Machine, v: Value)
    requires MachineOk(m) && Holds(m.heap, v) && Deliver(m, v).Some?
    ensures MachineOk(Deliver(m, v).value)
  {
    hide WellFormed, Placed, Distinct;
    var r := Deliver(m, v).value;
    assert Targets(r.frames) == Targets(m.frames);
    if m.frames != [] {
      var top := Top(m);
      if top.list || top.key.Some? {
        PlacedIsWellFormed(m.heap, top.target, Property(if top.list then None else top.key, v));
      }
    }
  }

  lemma StartKeepsOk(m: Machine, list: bool)
    requires MachineOk(m) && m.input.codes != []
    ensures MachineOk(Started(m, list))
  {
    var r := Started(m, list);
    FreshIsWellFormed(m.heap, m.next, list);
    var path := Targets(m.frames);
    assert Targets(r.frames) == path + [m.next];
    assert forall i :: 0 <= i < |path| ==> path[i] == m.frames[i].target && path[i] in m.heap;
  }

  lemma PopKeepsOk(m: Machine, input: Tape)
    requires MachineOk(m) && m.frames != []
    ensures MachineOk(m.(frames := m.frames[..|m.frames| - 1], input := input))
  {
    hide WellFormed;
    var front := m.frames[..|m.frames| - 1];
    assert Targets(front) == Targets(m.frames)[..|front|];
  }

  lemma StepKeepsOk(m: Machine)
    requires MachineOk(m) && m.input.codes != [] && Step(m).Some?
    ensures MachineOk(Step(m).value)
  {
    hide WellFormed, Distinct, Deliver, TakeLeaf, CountOf, Targets, Started;
    var code := m.input.codes[0];
    if code == ARRAY_START || code == OBJECT_START {
      StartKeepsOk(m, code == ARRAY_START);
    } else if code == ARRAY_END || code == OBJECT_END {
      PopKeepsOk(m, Skip(m.input));
      DeliverKeepsOk(m.(frames := m.frames[..|m.frames| - 1], input := Skip(m.input)), Ref(Top(m).target));
    } else if code == CYCLE {
      var up := CountOf(m.input.numbers[0]);
      DeliverKeepsOk(m.(input := Skip(m.input).(numbers := m.input.numbers[1..])),
        Ref(m.frames[|m.frames| - up].target));
    } else {
      var taken := TakeLeaf(m.input).value;
      DeliverKeepsOk(m.(input := taken.rest), Plain(taken.leaf));
    }
  }

  lemma {:induction false} RunKeepsOk(m: Machine)
    requires MachineOk(m) && Run(m).Some?
    ensures MachineOk(Run(m).value)
    decreases |m.input.codes|
  {
    hide MachineOk, Step;
    if m.input.codes != [] {
      StepKeepsOk(m);
      RunKeepsOk(Step(m).value);
    }
  }

  // ----- Reading a spelled tree -----

  function Head(m: Machine, heap: Heap, next: nat, rest: Tape): Machine {
    m.(heap := heap, next := next, input := rest)
  }

  lemma LeafStep(m: Machine, leaf: Leaf, units: bool, rest: Tape)
    requires m.input == Plus(LeafTape(leaf, units), rest)
    ensures m.input.codes != [] && Step(m) == Deliver(m.(input := rest), Plain(leaf))
  {
    hide TakeLeaf, Deliver, CountOf, IntegerText, UnitNumbers, SafeText;
    LeafComesBack(leaf, units, rest);
  }

  lemma CycleStep(m: Machine, up: nat, rest: Tape)
    requires m.input == Plus(CycleTape(up), rest) && 1 <= up <= |m.frames|
    ensures m.input.codes != []
    ensures Step(m) == Deliver(m.(input := rest), Ref(m.frames[|m.frames| - up].target))
  {
    hide TakeLeaf, Deliver, CountOf, Length;
    CountOfLength(up);
    CodeSkipped(m.input, CYCLE, [Length(up)], rest);
  }

  lemma CodeSkipped(t: Tape, code: Code, numbers: seq<Number>, rest: Tape)
    requires t == Plus(Tape([code], numbers, [], []), rest)
    ensures t.codes != [] && t.codes[0] == code && Skip(t).(numbers := t.numbers[|numbers|..]) == rest
    ensures forall i :: 0 <= i < |numbers| ==> i < |t.numbers| && t.numbers[i] == numbers[i]
  {
    assert t.codes[1..] == rest.codes && t.numbers[|numbers|..] == rest.numbers;
    assert t.text == rest.text && t.leaves == rest.leaves;
  }

  lemma StartStep(m: Machine, list: bool, rest: Tape)
    requires m.input == Plus(OneCode(StartCode(list)), rest)
    ensures m.input.codes != [] && Skip(m.input) == rest && Step(m) == Some(Started(m, list))
  {
    hide TakeLeaf, Deliver, CountOf, Started, Plus;
    CodeSkipped(m.input, StartCode(list), [], rest);
  }

  lemma EndStep(m: Machine, list: bool, rest: Tape)
    requires m.input == Plus(OneCode(EndCode(list)), rest) && m.frames != []
    ensures m.input.codes != []
    ensures Step(m) == Deliver(m.(frames := m.frames[..|m.frames| - 1], input := rest), Ref(Top(m).target))
  {
    hide TakeLeaf, Deliver, CountOf, Started, Plus;
    CodeSkipped(m.input, EndCode(list), [], rest);
  }

  /** The machine, run over a spelled tree, builds it in fresh containers and delivers it. */
  lemma {:induction false} Feed(t: Tree, units: bool, rest: Tape, m: Machine) returns (v: Value, heap: Heap, next: nat)
    requires MachineOk(m) && TreeOk(t, |m.frames|) && m.input == Plus(Encode(t, units), rest)
    ensures m.next <= next && Grown(m.heap, heap, next) && Holds(heap, v)
    ensures MachineOk(Head(m, heap, next, rest))
    ensures Means(heap, v, Targets(m.frames), t, m.next, next)
    ensures Run(m) == Continue(Deliver(Head(m, heap, next, rest), v))
    decreases t
  {
    hide MachineOk, Deliver, Step, LeafTape, CycleTape, Plus, EncodeSlots, Started;
    Settled(m, rest);
    match t
    case LeafTree(leaf) =>
      v, heap, next := Plain(leaf), m.heap, m.next;
      LeafStep(m, leaf, units, rest);
    case Cycle(up) =>
      v, heap, next := Ref(m.frames[|m.frames| - up].target), m.heap, m.next;
      CycleStep(m, up, rest);
    case Box(list, slots) =>
      v, heap, next := FeedBox(list, slots, units, rest, m);
  }

  /** What stays when nothing was built. */
  lemma Settled(m: Machine, rest: Tape)
    requires MachineOk(m)
    ensures Grown(m.heap, m.heap, m.next) && MachineOk(Head(m, m.heap, m.next, rest))
    ensures Head(m, m.heap, m.next, rest) == m.(input := rest)
    ensures forall i :: 0 <= i < |m.frames| ==> m.frames[i].target in m.heap
  {
  }

  lemma {:induction false} FeedBox(list: bool, slots: Slots, units: bool, rest: Tape, m: Machine)
      returns (v: Value, heap: Heap, next: nat)
    requires MachineOk(m) && TreeOk(Box(list, slots), |m.frames|)
    requires m.input == Plus(Encode(Box(list, slots), units), rest)
    ensures m.next <= next && Grown(m.heap, heap, next) && Holds(heap, v)
    ensures MachineOk(Head(m, heap, next, rest))
    ensures Means(heap, v, Targets(m.frames), Box(list, slots), m.next, next)
    ensures Run(m) == Continue(Deliver(Head(m, heap, next, rest), v))
    decreases slots, 2
  {
    hide MachineOk, Deliver, Step, Plus, EncodeSlots, SlotsOk, DistinctSlots;
    var start, inner, end := OneCode(StartCode(list)), EncodeSlots(slots, units), OneCode(EndCode(list));
    PlusAssociates(start, Plus(inner, end), rest);
    PlusAssociates(inner, end, rest);
    StartStep(m, list, Plus(inner, Plus(end, rest)));
    StartKeepsOk(m, list);
    var m1 := Started(m, list);
    FreshTop(m, list);
    var added;
    added, heap, next := FeedSlots(slots, units, Plus(end, rest), m1);
    var m2 := Head(m1, heap, next, Plus(end, rest));
    EndStep(m2, list, rest);
    v := Ref(m.next);
    PopKeepsOk(m2, rest);
    assert m2.frames[..|m2.frames| - 1] == m.frames;
    Built(m, list, slots, added, heap, next);
  }

  lemma FreshTop(m: Machine, list: bool)
    requires MachineOk(m) && m.input.codes != []
    ensures var m1 := Started(m, list);
      && Top(m1) == Building(m.next, list, None) && m1.heap[m.next] == Node(list, [])
      && Targets(m1.frames) == Targets(m.frames) + [m.next]
      && m.next !in m.heap && m.next !in Targets(m.frames)
  {
  }

  lemma Built(m: Machine, list: bool, slots: Slots, added: seq<Property>, heap: Heap, next: nat)
    requires m.next < next && MachineOk(m) && m.next in heap && heap[m.next] == Node(list, added)
    requires GrownBut(m.heap[m.next := Node(list, [])], heap, next, m.next)
    requires SlotsMean(heap, added, Targets(m.frames) + [m.next], slots, m.next + 1, next)
    ensures Grown(m.heap, heap, next)
    ensures Means(heap, Ref(m.next), Targets(m.frames), Box(list, slots), m.next, next)
  {
    hide SlotsMean, WellFormed;
    SlotsMeanStays(heap, heap, added, Targets(m.frames) + [m.next], slots, m.next + 1, next, m.next, next);
  }

  /** The entries of a container, one after the other, land in it in order. */
  lemma {:induction false} FeedSlots(slots: Slots, units: bool, rest: Tape, m: Machine)
      returns (added: seq<Property>, heap: Heap, next: nat)
    requires MachineOk(m) && m.frames != [] && Top(m).key.None? && Top(m).target in m.heap
    requires SlotsOk(Top(m).list, slots, |m.frames|) && DistinctSlots(slots)
    requires NoClash(m.heap[Top(m).target].slots, slots)
    requires m.input == Plus(EncodeSlots(slots, units), rest)
    ensures m.next <= next && GrownBut(m.heap, heap, next, Top(m).target)
    ensures Top(m).target in heap
    ensures heap[Top(m).target] == m.heap[Top(m).target].(slots := m.heap[Top(m).target].slots + added)
    ensures MachineOk(Head(m, heap, next, rest))
    ensures SlotsMean(heap, added, Targets(m.frames), slots, m.next, next)
    ensures Run(m) == Run(Head(m, heap, next, rest))
    decreases slots, 1
  {
    hide MachineOk, Deliver, Step, Plus, Encode, KeyTape, Means, TreeOk, HasKey;
    match slots
    case Done =>
      added, heap, next := [], m.heap, m.next;
      PlusBlank(rest);
      Settled(m, rest);
      assert m.heap[Top(m).target].slots + [] == m.heap[Top(m).target].slots;
    case Slot(key, value, more) =>
      var r, tail := Top(m).target, Plus(EncodeSlots(more, units), rest);
      PlusAssociates(KeyTape(key, units), Plus(Encode(value, units), EncodeSlots(more, units)), rest);
      PlusAssociates(Encode(value, units), EncodeSlots(more, units), rest);
      var v, heap1, next1 := FeedSlot(key, value, units, tail, m, slots);
      var p := Property(key, v);
      var heap2 := heap1[r := heap1[r].(slots := heap1[r].slots + [p])];
      var m2 := Head(m, heap2, next1, tail);
      NoMoreClash(m.heap[r].slots, p, slots);
      added, heap, next := FeedSlots(more, units, rest, m2);
      Landed(m, p, value, heap1, next1, heap, next);
      assert m.heap[r].slots + [p] + added == m.heap[r].slots + ([p] + added);
      assert ([p] + added)[1..] == added;
      SlotsMeanStays(heap, heap, added, Targets(m.frames), more, next1, next, m.next, next);
      added := [p] + added;
  }

  /** A value placed earlier still stands for its tree. */
  lemma Landed(m: Machine, p: Property, value: Tree, heap1: Heap, next1: nat, heap: Heap, next: nat)
    requires MachineOk(m) && m.frames != [] && Top(m).target in heap1 && Below(m.heap, m.next)
    requires Grown(m.heap, heap1, next1) && Means(heap1, p.value, Targets(m.frames), value, m.next, next1)
    requires GrownBut(heap1[Top(m).target := heap1[Top(m).target].(slots := heap1[Top(m).target].slots + [p])], heap,
      next, Top(m).target)
    requires next1 <= next
    ensures Means(heap, p.value, Targets(m.frames), value, m.next, next)
    ensures GrownBut(m.heap, heap, next, Top(m).target)
  {
    hide Means, WellFormed;
    MeansStays(heap1, heap, p.value, Targets(m.frames), value, m.next, next1, m.next, next);
  }

  /** One entry: its key, where it has one, then its value, placed last. */
  lemma {:induction false} FeedSlot(key: Option<Text>, value: Tree, units: bool, rest: Tape, m: Machine, slots: Slots)
      returns (v: Value, heap: Heap, next: nat)
    requires slots.Slot? && slots.key == key && slots.value == value
    requires MachineOk(m) && m.frames != [] && Top(m).key.None? && Top(m).target in m.heap
    requires SlotsOk(Top(m).list, slots, |m.frames|) && NoClash(m.heap[Top(m).target].slots, slots)
    requires m.input == Plus(KeyTape(key, units), Plus(Encode(value, units), rest))
    ensures m.next <= next && Grown(m.heap, heap, next) && Below(m.heap, m.next)
    ensures Top(m).target in heap && heap[Top(m).target] == m.heap[Top(m).target]
    ensures Means(heap, v, Targets(m.frames), value, m.next, next)
    ensures var r := Top(m).target;
      var heap2 := heap[r := heap[r].(slots := heap[r].slots + [Property(key, v)])];
      MachineOk(Head(m, heap2, next, rest)) && Run(m) == Run(Head(m, heap2, next, rest))
    decreases slots, 0
  {
    hide MachineOk, Step, Plus, Encode, Means, TreeOk, KeyIndex, LeafTape, TextTape, HasKey;
    if key.None? {
      PlusBlank(Plus(Encode(value, units), rest));
      v, heap, next := Feed(value, units, rest, m);
      Appends(m, Head(m, heap, next, rest), slots, v);
    } else {
      KeyIsLeaf(key.value, units);
      LeafStep(m, String(key.value), units, Plus(Encode(value, units), rest));
      var m1 := WithKey(m.(input := Plus(Encode(value, units), rest)), key);
      KeyedOk(m, m1, key);
      v, heap, next := Feed(value, units, rest, m1);
      Appends(m, Head(m1, heap, next, rest), slots, v);
      assert WithKey(Head(m1, heap, next, rest), None).frames == m.frames;
    }
    Settled(m, rest);
  }

  lemma KeyIsLeaf(key: Text, units: bool)
    ensures KeyTape(Some(key), units) == LeafTape(String(key), units)
  {
  }

  lemma KeyedOk(m: Machine, m1: Machine, key: Option<Text>)
    requires MachineOk(m) && m.frames != [] && m1 == WithKey(m.(input := m1.input), key)
    ensures MachineOk(m1) && Targets(m1.frames) == Targets(m.frames)
    ensures !Top(m).list && Top(m).target in m.heap && Top(m).key.None? && key.Some? ==>
      Deliver(m.(input := m1.input), Plain(String(key.value))) == Some(m1)
  {
    hide WellFormed, Distinct;
    assert Targets(m1.frames) == Targets(m.frames);
  }

  /** A delivered value is appended to the container on top. */
  lemma Appends(m: Machine, m1: Machine, slots: Slots, v: Value)
    requires MachineOk(m1) && m.frames != [] && |m1.frames| == |m.frames| && slots.Slot?
    requires Top(m).target in m.heap && Top(m1).target == Top(m).target && Top(m1).list == Top(m).list
    requires Top(m1).key == slots.key && (slots.key.None? <==> Top(m).list)
    requires Top(m1).target in m1.heap && m1.heap[Top(m1).target] == m.heap[Top(m).target]
    requires NoClash(m.heap[Top(m).target].slots, slots) && Holds(m1.heap, v)
    ensures var r := Top(m1).target;
      var heap2 := m1.heap[r := m1.heap[r].(slots := m1.heap[r].slots + [Property(slots.key, v)])];
      && Deliver(m1, v) == Some(if slots.key.None? then m1.(heap := heap2) else WithKey(m1.(heap := heap2), None))
      && MachineOk(Deliver(m1, v).value)
  {
    hide MachineOk;
    PlacedLast(m1.heap[Top(m1).target].slots, Property(slots.key, v), slots);
    DeliverKeepsOk(m1, v);
  }

  // ----- The whole tape -----

  ghost function Fresh(input: Tape): Machine { Machine(map[], 0, [], None, input) }

  /** Decoding what was spelled gives a value that stands for the tree, with nothing left on the tape. */
  lemma DecodesSpelled(t: Tree, units: bool)
    requires TreeOk(t, 0)
    ensures var end := Run(Fresh(Encode(t, units)));
      && end.Some? && end.value.input == BLANK && end.value.result.Some?
      && WellFormed(end.value.heap) && Holds(end.value.heap, end.value.result.value)
      && Unfold(end.value.heap, end.value.result.value, []) == t
  {
    hide Step, Encode, Plus, WellFormed, Means, Unfold;
    var m := Fresh(Encode(t, units));
    PlusBlank(Encode(t, units));
    EmptyIsOk(m);
    var v, heap, next := Feed(t, units, BLANK, m);
    MeansUnfolds(heap, v, Targets(m.frames), t, 0, next);
    assert Targets(m.frames) == [];
  }

  lemma EmptyIsOk(m: Machine)
    requires m.heap == map[] && m.frames == [] && m.result == None
    ensures MachineOk(m)
  {
  }

  /** An argument list that crosses arrives as the tree it was, symbols aside. */
  lemma ArgumentsArrive(heap: Heap, args: nat)
    requires WellFormed(heap) && args in heap && heap[args].list
    ensures var t := Inbound.ArgsTree(heap, args);
      var end := Run(Fresh(Encode(t, true)));
      && end.Some? && end.value.input == BLANK && end.value.result.Some?
      && WellFormed(end.value.heap) && Holds(end.value.heap, end.value.result.value)
      && Unfold(end.value.heap, end.value.result.value, []) == t
  {
    hide Run, Encode, WellFormed, Unfold;
    ArgsTreeIsOk(heap, args);
    DecodesSpelled(Inbound.ArgsTree(heap, args), true);
  }

  lemma ArgsTreeIsOk(heap: Heap, args: nat)
    requires WellFormed(heap) && args in heap && heap[args].list
    ensures TreeOk(Inbound.ArgsTree(heap, args), 0)
  {
    UnfoldedSlotsAreOk(heap, true, heap[args].slots, [args]);
    Inbound.ArrivedSlotsAreOk(true, UnfoldSlots(heap, true, heap[args].slots, [args]), true, 1);
  }

  // ----- The machine as it runs -----

  /** Builds the value a tape spells; none for a tape no writer spells. */
  method Decode(tape: Tape) returns (end: Option<Machine>)
    ensures end == Run(Fresh(tape))
  {
    hide Run, Step, Deliver, TakeLeaf, CountOf, Cursor.Rest, Skip;
    var cursor := new Cursor(tape);
    var m := Machine(map[], 0, [], None, BLANK);
    while true
      invariant cursor.Valid() && fresh(cursor) && cursor.tape == tape
      invariant Run(m.(input := cursor.Rest())) == Run(Fresh(tape))
      decreases |tape.codes| - cursor.at
    {
      var done := cursor.AtEnd();
      if done {
        break;
      }
      ghost var was := cursor.Rest();
      var code := cursor.NextCode();
      RunsStep(m.(input := was));
      var next := DecodeOne(m, cursor, code, was);
      if next.None? {
        return None;
      }
      m := next.value;
    }
    RunEnds(m.(input := cursor.Rest()));
    var left := cursor.Remaining();
    end := Some(m.(input := left));
  }

  lemma RunsStep(m: Machine)
    requires m.input.codes != []
    ensures Run(m) == Continue(Step(m))
  {
  }

  lemma RunEnds(m: Machine)
    requires m.input.codes == []
    ensures Run(m) == Some(m)
  {
  }

  /** One turn of the loop: the machine as it is after the code. */
  method DecodeOne(m: Machine, cursor: Cursor, code: Code, ghost was: Tape) returns (next: Option<Machine>)
    requires cursor.Valid() && was.codes != [] && was.codes[0] == code && cursor.Rest() == Skip(was)
    modifies cursor`numberAt, cursor`textAt, cursor`leafAt
    ensures cursor.Valid()
    ensures next.None? ==> Step(m.(input := was)) == None
    ensures next.Some? ==> Step(m.(input := was)) == Some(next.value.(input := cursor.Rest()))
  {
    hide TakeLeaf, CountOf, Place;
    if code == ARRAY_START || code == OBJECT_START {
      return Some(Started(m.(input := Tape([code], [], [], [])), code == ARRAY_START));
    }
    var v;
    if code == ARRAY_END || code == OBJECT_END {
      if m.frames == [] {
        return None;
      }
      return Deliver(m.(frames := m.frames[..|m.frames| - 1]), Ref(Top(m).target));
    }
    if code == CYCLE {
      var up := cursor.NextNumber();
      if up.None? || !(1 <= CountOf(up.value) <= |m.frames|) {
        return None;
      }
      v := Ref(m.frames[|m.frames| - CountOf(up.value)].target);
    } else {
      var leaf := cursor.ReadLeaf(code, was);
      if leaf.None? {
        return None;
      }
      v := Plain(leaf.value);
    }
    next := Deliver(m, v);
  }

  /** An argument list JSON carries exactly: what parsing its text builds is what the tape would. */
  lemma ExactArgsArrive(heap: Heap, args: nat)
    requires WellFormed(heap) && args in heap && heap[args].list
    requires Inbound.JsonExact(Unfold(heap, Ref(args), []), 0)
    ensures Depth(Unfold(heap, Ref(args), [])) <= MAX_CROSSING_DEPTH
    ensures var (v, built) := Parsed(Unfold(heap, Ref(args), []), 0);
      WellFormed(built) && Holds(built, v) && Unfold(built, v, []) == Inbound.ArgsTree(heap, args)
  {
    hide WellFormed, Means, Laid, Parsed, IsJson, TreeOk;
    var t := Unfold(heap, Ref(args), []);
    ExactArgsTree(heap, args);
    UnfoldedIsOk(heap, Ref(args), []);
    ExactIsJson(t, 0, 0);
    ParsedIsLaid(t, 0);
    var (v, built) := Parsed(t, 0);
    LaidMeans(built, v, [], t, 0);
    MeansUnfolds(built, v, [], t, 0, Boxes(t));
  }

  lemma ExactArgsTree(heap: Heap, args: nat)
    requires WellFormed(heap) && args in heap && heap[args].list
    requires Inbound.JsonExact(Unfold(heap, Ref(args), []), 0)
    ensures Inbound.ArgsTree(heap, args) == Unfold(heap, Ref(args), [])
    ensures Depth(Unfold(heap, Ref(args), [])) <= MAX_CROSSING_DEPTH
  {
    hide WellFormed, SlotsHeld, UnfoldSlots, Inbound.SlotsExact, Inbound.ArrivedSlots, SlotsDepth;
    assert [] + [args] == [args];
    Inbound.NodeIsHeld(heap, args);
    var slots := UnfoldSlots(heap, true, heap[args].slots, [args]);
    Inbound.ExactSlotsArrive(slots, true, 1);
    Inbound.ExactArrives(Unfold(heap, Ref(args), []), false, 0);
  }

  lemma {:induction false} ExactIsJson(t: Tree, depth: nat, level: nat)
    requires Inbound.JsonExact(t, depth) && TreeOk(t, level)
    ensures IsJson(t)
    decreases t
  {
    if t.Box? {
      ExactSlotsAreJson(t.list, t.slots, depth + 1, level + 1);
    }
  }

  lemma {:induction false} ExactSlotsAreJson(list: bool, slots: Slots, depth: nat, level: nat)
    requires Inbound.SlotsExact(slots, depth) && SlotsOk(list, slots, level)
    ensures SlotsAreJson(list, slots)
    decreases slots
  {
    if slots.Slot? {
      ExactIsJson(slots.value, depth, level);
      ExactSlotsAreJson(list, slots.rest, depth, level);
    }
  }

  /**
   An argument list on its way in: as JSON text where JSON carries it exactly, as a tape otherwise, or
   refused for nesting too deep.
   */
  method CrossIn(heap: Heap, args: nat) returns (r: Option<(Value, Heap)>)
    requires WellFormed(heap) && args in heap && heap[args].list
    ensures r.None? <==> Depth(Unfold(heap, Ref(args), [])) > MAX_CROSSING_DEPTH
    ensures r.Some? ==>
      && WellFormed(r.value.1) && Holds(r.value.1, r.value.0)
      && Unfold(r.value.1, r.value.0, []) == Inbound.ArgsTree(heap, args)
  {
    hide Run, Encode, WellFormed, Unfold, Depth, Inbound.ArgsTree, Inbound.JsonExact, Parsed;
    var exact := Inbound.IsJsonExact(heap, Ref(args), {}, 0, []);
    if exact {
      ExactArgsArrive(heap, args);
      return Some(Parsed(Unfold(heap, Ref(args), []), 0));
    }
    var tape := new Writer();
    var speller := new Inbound.Speller(tape);
    var refused := speller.MarshalArgs(heap, args);
    if refused {
      return None;
    }
    ArgumentsArrive(heap, args);
    var end := Decode(Tape(tape.codes, tape.numbers, tape.text, tape.leaves));
    return Some((end.value.result.value, end.value.heap));
  }
}
