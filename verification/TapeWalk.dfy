/**
 The tape walk, after `open` and `walk` of runtimes/js/src/crossing.ts: an explicit stack of frames
 writes the tape of a sandbox value without recursion.
 */
module TapeWalk {
  import opened Prelude
  import opened Graph
  import opened Tapes
  import opened Writers

  /** A container being written, and how many of its slots are. */
  datatype Frame = Frame(value: nat, index: nat)

  function Refs(frames: seq<Frame>): (path: seq<nat>)
    ensures |path| == |frames|
  {
    seq(|frames|, i requires 0 <= i < |frames| => frames[i].value)
  }

  ghost predicate FrameOk(heap: Heap, f: Frame) { f.value in heap && f.index <= |heap[f.value].slots| }

  ghost predicate FramesOk(heap: Heap, frames: seq<Frame>) {
    forall i :: 0 <= i < |frames| ==> FrameOk(heap, frames[i])
  }

  lemma LeftAreHeld(heap: Heap, f: Frame)
    requires WellFormed(heap) && FrameOk(heap, f)
    ensures SlotsHeld(heap, heap[f.value].list, heap[f.value].slots[f.index..])
  {
  }

  /** The slots a frame has not written yet, below the containers of `path`. */
  ghost function Left(heap: Heap, f: Frame, path: seq<nat>): Slots
    requires WellFormed(heap) && FrameOk(heap, f)
  {
    LeftAreHeld(heap, f);
    UnfoldSlots(heap, heap[f.value].list, heap[f.value].slots[f.index..], path)
  }

  /** What the open frames will still write, innermost first. */
  ghost function Owed(heap: Heap, frames: seq<Frame>): Tape
    requires WellFormed(heap) && FramesOk(heap, frames)
    decreases |frames|
  {
    if frames == [] then BLANK
    else
      var top := frames[|frames| - 1];
      Plus(EncodeSlots(Left(heap, top, Refs(frames)), false),
           Plus(OneCode(EndCode(heap[top.value].list)), Owed(heap, frames[..|frames| - 1])))
  }

  /** How deep the value will be seen to nest in what the frames still write. */
  ghost function OwedDepth(heap: Heap, frames: seq<Frame>): nat
    requires WellFormed(heap) && FramesOk(heap, frames)
    decreases |frames|
  {
    if frames == [] then 0
    else
      var top := frames[|frames| - 1];
      Max(|frames| + SlotsDepth(Left(heap, top, Refs(frames))), OwedDepth(heap, frames[..|frames| - 1]))
  }

  ghost function Advanced(frames: seq<Frame>): seq<Frame>
    requires frames != []
  {
    var top := frames[|frames| - 1];
    frames[|frames| - 1 := Frame(top.value, top.index + 1)]
  }

  /** The slot the top frame writes next. */
  lemma NextLeft(heap: Heap, frames: seq<Frame>)
    requires WellFormed(heap) && FramesOk(heap, frames) && frames != []
    requires frames[|frames| - 1].index < |heap[frames[|frames| - 1].value].slots|
    ensures var top := frames[|frames| - 1]; var slot := heap[top.value].slots[top.index];
      && FramesOk(heap, Advanced(frames)) && Refs(Advanced(frames)) == Refs(frames)
      && Advanced(frames)[..|frames| - 1] == frames[..|frames| - 1]
      && Holds(heap, slot.value) && (slot.key.None? <==> heap[top.value].list)
      && Left(heap, top, Refs(frames))
         == Slot(slot.key, Unfold(heap, slot.value, Refs(frames)),
           Left(heap, Advanced(frames)[|frames| - 1], Refs(frames)))
  {
    var top := frames[|frames| - 1];
    var slots := heap[top.value].slots;
    LeftAreHeld(heap, top);
    assert slots[top.index..][1..] == slots[top.index + 1..] && slots[top.index..][0] == slots[top.index];
    assert Refs(Advanced(frames)) == Refs(frames);
  }

  /** Writing a slot's key and value moves it from what is owed to what is written. */
  lemma SlotWritten(heap: Heap, frames: seq<Frame>, written: Tape)
    requires WellFormed(heap) && FramesOk(heap, frames) && frames != []
    requires frames[|frames| - 1].index < |heap[frames[|frames| - 1].value].slots|
    ensures FramesOk(heap, Advanced(frames))
    ensures var top := frames[|frames| - 1]; var slot := heap[top.value].slots[top.index];
      && Holds(heap, slot.value)
      && var tree := Unfold(heap, slot.value, Refs(frames));
      && Plus(written, Owed(heap, frames))
         == Plus(Plus(Plus(written, KeyTape(slot.key, false)), Encode(tree, false)), Owed(heap, Advanced(frames)))
      && OwedDepth(heap, frames) == Max(|frames| + Depth(tree), OwedDepth(heap, Advanced(frames)))
  {
    hide Plus, Left, Encode, KeyTape, Unfold, WellFormed, Refs, Depth;
    NextLeft(heap, frames);
    var top := frames[|frames| - 1];
    var slot := heap[top.value].slots[top.index];
    var key, value := KeyTape(slot.key, false), Encode(Unfold(heap, slot.value, Refs(frames)), false);
    var more := EncodeSlots(Left(heap, Advanced(frames)[|frames| - 1], Refs(frames)), false);
    var below := Plus(OneCode(EndCode(heap[top.value].list)), Owed(heap, frames[..|frames| - 1]));
    FiveJoined(written, key, value, more, below);
  }

  lemma FiveJoined(a: Tape, b: Tape, c: Tape, d: Tape, e: Tape)
    ensures Plus(a, Plus(Plus(b, Plus(c, d)), e)) == Plus(Plus(Plus(a, b), c), Plus(d, e))
  {
    hide Plus;
    PlusAssociates(b, Plus(c, d), e);
    PlusAssociates(c, d, e);
    PlusAssociates(a, b, Plus(c, Plus(d, e)));
    PlusAssociates(Plus(a, b), c, Plus(d, e));
  }

  method WriteLeaf(tape: Writer, leaf: Leaf)
    requires !leaf.Symbol?
    modifies tape
    ensures tape.Written() == Plus(old(tape.Written()), LeafTape(leaf, false))
  {
    hide Plus, IntegerText, Writer.Written;
    match leaf
    case Undefined => tape.Put(UNDEFINED);
    case Null => tape.Put(NULL);
    case Boolean(yes) => tape.Put(if yes then TRUE else FALSE);
    case Numeric(n) => tape.PutNumber(NUMBER, n);
    case String(t) => tape.PutSpelled(TEXT, t);
    case BigInt(i) => tape.PutSpelled(BIGINT, IntegerText(i));
    case Function(handle) => tape.PutLeaf(handle);
  }

  method IndexOf(frames: seq<Frame>, r: nat) returns (s: Option<nat>)
    ensures s.Some? ==> s.value < |frames| && frames[s.value].value == r
    ensures s.None? ==> r !in Refs(frames)
  {
    for i := 0 to |frames|
      invariant forall j :: 0 <= j < i ==> frames[j].value != r
    {
      if frames[i].value == r {
        return Some(i);
      }
    }
    return None;
  }

  /** Begins a container, unless it is one the walk is inside, or too deep. */
  method Open(heap: Heap, tape: Writer, frames: seq<Frame>, r: nat) returns (after: Option<seq<Frame>>)
    requires WellFormed(heap) && r in heap && FramesOk(heap, frames) && Distinct(Refs(frames))
    modifies tape
    ensures after.None? <==> r !in Refs(frames) && |frames| >= MAX_CROSSING_DEPTH
    ensures after.None? ==> Depth(Unfold(heap, Ref(r), Refs(frames))) > 0
    ensures after.Some? ==>
      && FramesOk(heap, after.value) && Distinct(Refs(after.value)) && |after.value| <= |frames| + 1
      && (after.value == frames || |frames| < MAX_CROSSING_DEPTH)
      && Plus(tape.Written(), Owed(heap, after.value))
         == Plus(Plus(old(tape.Written()), Encode(Unfold(heap, Ref(r), Refs(frames)), false)), Owed(heap, frames))
      && OwedDepth(heap, after.value)
         == Max(if after.value == frames then 0 else |frames| + Depth(Unfold(heap, Ref(r), Refs(frames))),
           OwedDepth(heap, frames))
      && (after.value == frames ==> Depth(Unfold(heap, Ref(r), Refs(frames))) == 0)
      && |tape.Written().codes| == |old(tape.Written()).codes| + 1
  {
    hide Plus, Owed, OwedDepth, UnfoldSlots, WellFormed, Distinct, EncodeSlots, SlotsDepth, Writer.Written, FramesOk;
    var at := IndexOf(frames, r);
    if at.Some? {
      UpIsUnique(Refs(frames), |frames| - at.value);
      CodesGrow(tape.Written(), CycleTape(|frames| - at.value));
      tape.PutNumber(CYCLE, Length(|frames| - at.value));
      return Some(frames);
    }
    if |frames| >= MAX_CROSSING_DEPTH {
      return None;
    }
    Begun(heap, frames, r, tape.Written());
    CodesGrow(tape.Written(), OneCode(StartCode(heap[r].list)));
    tape.Put(StartCode(heap[r].list));
    return Some(frames + [Frame(r, 0)]);
  }

  lemma Begun(heap: Heap, frames: seq<Frame>, r: nat, written: Tape)
    requires WellFormed(heap) && r in heap && FramesOk(heap, frames) && Distinct(Refs(frames)) && r !in Refs(frames)
    ensures var after := frames + [Frame(r, 0)];
      && FramesOk(heap, after) && Distinct(Refs(after))
      && Plus(Plus(written, OneCode(StartCode(heap[r].list))), Owed(heap, after))
         == Plus(Plus(written, Encode(Unfold(heap, Ref(r), Refs(frames)), false)), Owed(heap, frames))
      && OwedDepth(heap, after) == Max(|frames| + Depth(Unfold(heap, Ref(r), Refs(frames))), OwedDepth(heap, frames))
  {
    hide Plus, UnfoldSlots, WellFormed, EncodeSlots, SlotsDepth;
    var after := frames + [Frame(r, 0)];
    assert Refs(after) == Refs(frames) + [r] && after[..|frames|] == frames;
    assert heap[r].slots[0..] == heap[r].slots;
    LeftAreHeld(heap, Frame(r, 0));
    var start, end := OneCode(StartCode(heap[r].list)), OneCode(EndCode(heap[r].list));
    var inner := EncodeSlots(UnfoldSlots(heap, heap[r].list, heap[r].slots, Refs(frames) + [r]), false);
    PlusAssociates(Plus(written, start), inner, Plus(end, Owed(heap, frames)));
    PlusAssociates(Plus(Plus(written, start), inner), end, Owed(heap, frames));
    PlusAssociates(Plus(written, start), inner, end);
    PlusAssociates(written, start, Plus(inner, end));
  }

  /** Writes the top frame's next slot; a container in it becomes the new top. */
  method WriteSlot(heap: Heap, tape: Writer, frames: seq<Frame>) returns (after: Option<seq<Frame>>)
    requires WellFormed(heap) && NoSymbols(heap) && FramesOk(heap, frames) && Distinct(Refs(frames))
    requires frames != [] && |frames| <= MAX_CROSSING_DEPTH
    requires frames[|frames| - 1].index < |heap[frames[|frames| - 1].value].slots|
    modifies tape
    ensures after.None? ==> OwedDepth(heap, frames) > MAX_CROSSING_DEPTH
    ensures after.Some? ==>
      && FramesOk(heap, after.value) && Distinct(Refs(after.value)) && |after.value| <= MAX_CROSSING_DEPTH
      && Plus(tape.Written(), Owed(heap, after.value)) == Plus(old(tape.Written()), Owed(heap, frames))
      && OwedDepth(heap, after.value) == OwedDepth(heap, frames)
      && |tape.Written().codes| > |old(tape.Written()).codes|
  {
    hide Plus, Owed, OwedDepth, UnfoldSlots, WellFormed, Distinct, EncodeSlots, SlotsDepth, Writer.Written, LeafTape,
      FramesOk;
    ghost var was := tape.Written();
    var advanced, slot := Step(heap, frames);
    if slot.key.Some? {
      tape.PutSpelled(TEXT, slot.key.value);
    } else {
      PlusBlank(was);
    }
    SlotWritten(heap, frames, was);
    AtLeastFrames(heap, advanced);
    ghost var keyed := tape.Written();
    CodesGrow(was, KeyTape(slot.key, false));
    if slot.value.Plain? {
      WriteLeaf(tape, slot.value.leaf);
      CodesGrow(keyed, LeafTape(slot.value.leaf, false));
      LeafHasCode(slot.value.leaf);
      return Some(advanced);
    }
    after := Open(heap, tape, advanced, slot.value.at);
  }

  method Step(heap: Heap, frames: seq<Frame>) returns (advanced: seq<Frame>, slot: Property)
    requires WellFormed(heap) && NoSymbols(heap) && FramesOk(heap, frames) && frames != []
    requires frames[|frames| - 1].index < |heap[frames[|frames| - 1].value].slots|
    ensures var top := frames[|frames| - 1];
      slot == heap[top.value].slots[top.index] && advanced == Advanced(frames)
    ensures FramesOk(heap, advanced) && Refs(advanced) == Refs(frames) && |advanced| == |frames|
    ensures Plainly(slot.value) && Holds(heap, slot.value)
  {
    var top := frames[|frames| - 1];
    slot := heap[top.value].slots[top.index];
    advanced := frames[|frames| - 1 := Frame(top.value, top.index + 1)];
    assert Refs(advanced) == Refs(frames);
  }

  lemma AtLeastFrames(heap: Heap, frames: seq<Frame>)
    requires WellFormed(heap) && FramesOk(heap, frames)
    ensures OwedDepth(heap, frames) >= |frames|
  {
    hide Left, WellFormed, SlotsDepth;
  }

  lemma CodesGrow(a: Tape, b: Tape)
    ensures |Plus(a, b).codes| == |a.codes| + |b.codes|
  {
  }

  lemma LeafHasCode(leaf: Leaf)
    ensures |LeafTape(leaf, false).codes| == 1
  {
  }

  /** Writes the tape of the value's tree; refuses exactly when it nests past the limit. */
  method Walk(heap: Heap, root: Value, tape: Writer) returns (refused: bool)
    requires WellFormed(heap) && NoSymbols(heap) && Holds(heap, root) && Plainly(root) && tape.Written() == BLANK
    modifies tape
    ensures refused <==> Depth(Unfold(heap, root, [])) > MAX_CROSSING_DEPTH
    ensures !refused ==> tape.Written() == Encode(Unfold(heap, root, []), false)
  {
    hide Plus, Owed, OwedDepth, UnfoldSlots, WellFormed, NoSymbols, EncodeSlots, SlotsDepth, Writer.Written, LeafTape,
      Distinct;
    PlusBlank(Encode(Unfold(heap, root, []), false));
    if root.Plain? {
      WriteLeaf(tape, root.leaf);
      return false;
    }
    NothingOwed(heap);
    assert Refs([]) == [];
    var began := Open(heap, tape, [], root.at);
    var frames := began.value;
    while frames != []
      invariant FramesOk(heap, frames) && Distinct(Refs(frames)) && |frames| <= MAX_CROSSING_DEPTH
      invariant Plus(tape.Written(), Owed(heap, frames)) == Encode(Unfold(heap, root, []), false)
      invariant Depth(Unfold(heap, root, [])) > MAX_CROSSING_DEPTH <==> OwedDepth(heap, frames) > MAX_CROSSING_DEPTH
      decreases |Encode(Unfold(heap, root, []), false).codes| - |tape.Written().codes|
    {
      CodesGrow(tape.Written(), Owed(heap, frames));
      var top := frames[|frames| - 1];
      if top.index == |heap[top.value].slots| {
        Finished(heap, frames, tape.Written());
        CodesGrow(tape.Written(), OneCode(EndCode(heap[top.value].list)));
        tape.Put(EndCode(heap[top.value].list));
        frames := frames[..|frames| - 1];
      } else {
        var after := WriteSlot(heap, tape, frames);
        if after.None? {
          return true;
        }
        frames := after.value;
      }
    }
    PlusBlank(tape.Written());
    refused := false;
  }

  lemma NothingOwed(heap: Heap)
    requires WellFormed(heap)
    ensures Owed(heap, []) == BLANK && OwedDepth(heap, []) == 0 && Distinct(Refs([])) && FramesOk(heap, [])
  {
  }

  /** A frame with nothing left owes its end code only. */
  lemma Finished(heap: Heap, frames: seq<Frame>, written: Tape)
    requires WellFormed(heap) && FramesOk(heap, frames) && Distinct(Refs(frames)) && frames != []
    requires frames[|frames| - 1].index == |heap[frames[|frames| - 1].value].slots|
    requires |frames| <= MAX_CROSSING_DEPTH
    ensures var front := frames[..|frames| - 1]; var end := OneCode(EndCode(heap[frames[|frames| - 1].value].list));
      && FramesOk(heap, front) && Distinct(Refs(front))
      && Plus(written, Owed(heap, frames)) == Plus(Plus(written, end), Owed(heap, front))
      && (OwedDepth(heap, frames) > MAX_CROSSING_DEPTH <==> OwedDepth(heap, front) > MAX_CROSSING_DEPTH)
  {
    hide Plus, WellFormed;
    var top, front := frames[|frames| - 1], frames[..|frames| - 1];
    var end := OneCode(EndCode(heap[top.value].list));
    assert Left(heap, top, Refs(frames)) == Done;
    PlusBlank(Plus(end, Owed(heap, front)));
    PlusAssociates(written, end, Owed(heap, front));
    assert Refs(front) == Refs(frames)[..|front|];
  }
}
