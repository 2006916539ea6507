/**
 Sandbox values on their way out, after `encode` and the host's `walk` of
 runtimes/js/src/crossing.ts: a marked-JSON pass, a second one that follows cycles from the start, or
 the tape, and the matching reader.
 */
module Outbound {
  import opened Prelude
  import opened Graph
  import opened Tapes
  import opened Writers
  import opened Cursors
  import opened Marks
  import opened MarkedPass
  import opened MarkReading
  import TapeWalk
  import opened TapeReading
  import opened Wordings
  import Inbound

  /** What crosses: JSON text, JSON text with functions beside it, a tape, or a refusal. */
  datatype Crossing =
    | PlainJson(json: Tree)
    | MarkedJson(json: Tree, leaves: seq<nat>)
    | OnTape(tape: Tape)
    | Refused

  /** What crosses spells the tree. */
  ghost predicate Carries(c: Crossing, t: Tree, mark: Text) {
    match c
    case PlainJson(json) => json == t && !HasMark(t)
    case MarkedJson(json, leaves) => json == Marked(t, mark, 0) && leaves == Functions(t)
    case OnTape(tape) => tape == Encode(t, false)
    case Refused => Depth(t) > MAX_CROSSING_DEPTH
  }

  method FastPass(heap: Heap, value: Value, mark: Text, trackFromStart: bool) returns (c: Option<Crossing>,
      circular: bool)
    requires WellFormed(heap) && NoSymbols(heap) && Holds(heap, value) && Plainly(value)
    ensures c.Some? ==> Carries(c.value, Unfold(heap, value, []), mark) && !c.value.Refused?
    ensures c.Some? ==> Depth(Unfold(heap, value, [])) < NATIVE_DEPTH
    ensures trackFromStart ==> !circular
  {
    hide Unfold, Marked, HasMark, Functions, WellFormed, NoSymbols, Depth;
    var pass := new Pass(mark, trackFromStart);
    var o := pass.Visit(heap, value, []);
    if !o.Json? {
      return None, o.Circular?;
    }
    assert [] + Functions(Unfold(heap, value, [])) == Functions(Unfold(heap, value, []));
    if !pass.marked {
      UnmarkedIsJson(Unfold(heap, value, []), mark, 0);
      return Some(PlainJson(o.tree)), false;
    }
    return Some(MarkedJson(o.tree, pass.leaves)), false;
  }

  /** One of the three routes, or a refusal exactly when the value nests past the limit. */
  method EncodeValue(heap: Heap, value: Value, mark: Text) returns (c: Crossing)
    requires WellFormed(heap) && NoSymbols(heap) && Holds(heap, value) && Plainly(value)
    ensures Carries(c, Unfold(heap, value, []), mark)
    ensures c.Refused? <==> Depth(Unfold(heap, value, [])) > MAX_CROSSING_DEPTH
    ensures c.PlainJson? || c.MarkedJson? ==> Depth(Unfold(heap, value, [])) < NATIVE_DEPTH
  {
    hide Unfold, Marked, HasMark, Functions, WellFormed, NoSymbols, Depth, Encode;
    var fast, circular := FastPass(heap, value, mark, false);
    if fast.None? && circular {
      fast, circular := FastPass(heap, value, mark, true);
    }
    if fast.Some? {
      return fast.value;
    }
    var tape := new Writer();
    var refused := TapeWalk.Walk(heap, value, tape);
    if refused {
      return Refused;
    }
    return OnTape(Tape(tape.codes, tape.numbers, tape.text, tape.leaves));
  }

  // ----- The text of a tape on its way -----

  /** A decoder gives back a text a C string carries; of any other it may make what it likes. */
  ghost predicate Decodes(utf8: Text -> Text) { forall t :: SafeText(t) ==> utf8(t) == t }

  /** The host takes the decoded text if its length is right, and asks for the code units otherwise. */
  function HostText(utf8: Text -> Text, t: Text): (r: Text)
    ensures |r| == |t|
  {
    if |utf8(t)| == |t| then utf8(t) else t
  }

  /** The text is decoded exactly, or to another length. */
  predicate TextArrives(utf8: Text -> Text, t: Text) { |utf8(t)| == |t| ==> utf8(t) == t }

  lemma HeardArrives(utf8: Text -> Text, t: Text)
    ensures HostText(utf8, t) == t <==> TextArrives(utf8, t)
  {
  }

  /** Every string and key of the tree is one a C string carries. */
  predicate AllSafe(t: Tree) {
    match t
    case LeafTree(String(text)) => SafeText(text)
    case LeafTree(Symbol(Some(d))) => SafeText(d)
    case Box(_, slots) => SlotsSafe(slots)
    case _ => true
  }

  predicate SlotsSafe(slots: Slots) {
    match slots
    case Done => true
    case Slot(key, value, rest) => (key.Some? ==> SafeText(key.value)) && AllSafe(value) && SlotsSafe(rest)
  }

  lemma {:induction false} SafeTapeText(t: Tree)
    requires AllSafe(t)
    ensures SafeText(Encode(t, false).text)
  {
    hide SafeText, IntegerText;
    Inbound.NothingIsSafe();
    match t
    case LeafTree(BigInt(i)) => Inbound.IntegerTextIsSafe(i);
    case Box(_, slots) =>
      SafeSlotsText(slots);
      assert [] + (EncodeSlots(slots, false).text + []) == EncodeSlots(slots, false).text;
    case _ =>
  }

  lemma {:induction false} SafeSlotsText(slots: Slots)
    requires SlotsSafe(slots)
    ensures SafeText(EncodeSlots(slots, false).text)
  {
    hide SafeText, Encode, AllSafe;
    Inbound.NothingIsSafe();
    if slots.Slot? {
      SafeTapeText(slots.value);
      SafeSlotsText(slots.rest);
      Inbound.SafeJoins(Encode(slots.value, false).text, EncodeSlots(slots.rest, false).text);
      var joined := Encode(slots.value, false).text + EncodeSlots(slots.rest, false).text;
      Inbound.SafeJoins(KeyTape(slots.key, false).text, joined);
    }
  }

  /** Sixteen letters, a lone surrogate, a NUL and one more letter. */
  const LOSSY: Text := [97, 97, 97, 97, 97, 97, 97, 97, 97, 97, 97, 97, 97, 97, 97, 97, 0xd800, 0, 98]

  /** Three replacement characters for the surrogate, and the end at the NUL: another text of the same length. */
  lemma LossKeepsLength(utf8: Text -> Text)
    requires utf8(LOSSY) == LOSSY[..16] + [0xfffd, 0xfffd, 0xfffd]
    ensures !TextArrives(utf8, LOSSY)
  {
    assert LOSSY[18] == 98;
  }

  // ----- Reading -----

  /**
   Reads what crossed, with the reader its shape asks for. It is the value that left exactly when its
   shape is JSON or the tape's text arrives.
   */
  method ReadCrossing(c: Crossing, mark: Text, utf8: Text -> Text, ghost t: Tree) returns (r: Option<(Value, Heap)>)
    requires !c.Refused? && Carries(c, t, mark) && TreeOk(t, 0) && Unmarked(t, mark)
    ensures r.Some? ==> WellFormed(r.value.1) && Holds(r.value.1, r.value.0)
    ensures (r.Some? && Unfold(r.value.1, r.value.0, []) == t) <==> (c.OnTape? ==> TextArrives(utf8, c.tape.text))
  {
    hide Unfold, Marked, HasMark, Functions, WellFormed, Encode, TreeOk, Unmarked, TextArrives;
    match c
    case PlainJson(json) =>
      var v, heap := ReadPlain(json, mark, t);
      r := Some((v, heap));
    case MarkedJson(json, leaves) =>
      var v, heap := ReadMarked(json, leaves, mark, t);
      r := Some((v, heap));
    case OnTape(tape) =>
      r := ReadTape(tape, utf8, t);
  }

  method ReadPlain(json: Tree, mark: Text, ghost t: Tree) returns (v: Value, heap: Heap)
    requires json == t && !HasMark(t) && TreeOk(t, 0)
    ensures WellFormed(heap) && Holds(heap, v) && Unfold(heap, v, []) == t
  {
    hide Unfold, Marked, HasMark, WellFormed, TreeOk, Means, Laid, Parsed, IsJson;
    MarkedIsJson(t, mark, 0, 0);
    UnmarkedIsJson(t, mark, 0);
    ParsedIsLaid(json, 0);
    var parsed := Parsed(json, 0);
    v, heap := parsed.0, parsed.1;
    LaidMeans(heap, v, [], t, 0);
    MeansUnfolds(heap, v, [], t, 0, Boxes(t));
  }

  method ReadMarked(json: Tree, leaves: seq<nat>, mark: Text, ghost t: Tree) returns (v: Value, heap: Heap)
    requires json == Marked(t, mark, 0) && leaves == Functions(t) && TreeOk(t, 0) && Unmarked(t, mark)
    ensures WellFormed(heap) && Holds(heap, v) && Unfold(heap, v, []) == t
  {
    hide Unfold, Marked, HasMark, Functions, WellFormed, TreeOk, Unmarked, Means, Laid, Parsed, IsJson;
    MarkedIsJson(t, mark, 0, 0);
    ParsedIsLaid(json, 0);
    var parsed := Parsed(json, 0);
    var reader := new MarkReader(mark, leaves, parsed.1);
    assert leaves[0..0 + |Functions(t)|] == Functions(t);
    v := reader.Read(parsed.0, t, 0, 0);
    heap := reader.heap;
    MeansUnfolds(heap, v, [], t, 0, 0 + Boxes(t));
  }

  method ReadTape(tape: Tape, utf8: Text -> Text, ghost t: Tree) returns (r: Option<(Value, Heap)>)
    requires tape == Encode(t, false) && TreeOk(t, 0)
    ensures r.Some? ==> WellFormed(r.value.1) && Holds(r.value.1, r.value.0)
    ensures (r.Some? && Unfold(r.value.1, r.value.0, []) == t) <==> TextArrives(utf8, tape.text)
  {
    hide Unfold, WellFormed, Encode, TreeOk, Means, Plus, RawTape, RawOk, RawOf, Retext, Sense, Grown, HostText,
      TextArrives, Holds;
    var heard := HostText(utf8, tape.text);
    HeardArrives(utf8, tape.text);
    SameTreeSameText(t, heard);
    ghost var w := Retext(RawOf(t), heard);
    PlusBlank(RawTape(w));
    var cursor := new Cursor(tape.(text := heard));
    var reader := new TapeReader(cursor);
    EmptyHeap();
    var read := reader.Read(w, BLANK);
    if read.None? {
      return None;
    }
    MeansUnfolds(reader.heap, read.value, [], Sense(w).value, 0, reader.next);
    r := Some((read.value, reader.heap));
  }

  /**
   Whichever route it takes, a value crosses as the tree it stands for, or nests too deep and is refused.
   On the tape route that is so exactly when the joined text arrives, as it does where a C string carries
   every string.
   */
  method CrossOut(heap: Heap, value: Value, mark: Text, utf8: Text -> Text)
      returns (c: Crossing, r: Option<(Value, Heap)>)
    requires WellFormed(heap) && NoSymbols(heap) && Holds(heap, value) && Plainly(value)
    requires Unmarked(Unfold(heap, value, []), mark)
    ensures Carries(c, Unfold(heap, value, []), mark)
    ensures c.Refused? <==> Depth(Unfold(heap, value, [])) > MAX_CROSSING_DEPTH
    ensures c.PlainJson? || c.MarkedJson? ==> Depth(Unfold(heap, value, [])) < NATIVE_DEPTH
    ensures r.Some? ==> !c.Refused? && WellFormed(r.value.1) && Holds(r.value.1, r.value.0)
    ensures !c.Refused? ==>
      ((r.Some? && Unfold(r.value.1, r.value.0, []) == Unfold(heap, value, [])) <==>
       (c.OnTape? ==> TextArrives(utf8, Encode(Unfold(heap, value, []), false).text)))
    ensures !c.Refused? && Decodes(utf8) && AllSafe(Unfold(heap, value, [])) ==>
      r.Some? && Unfold(r.value.1, r.value.0, []) == Unfold(heap, value, [])
  {
    hide Unfold, WellFormed, NoSymbols, Depth, Unmarked, Marked, HasMark, Functions, Encode, AllSafe, SafeText;
    c := EncodeValue(heap, value, mark);
    if c.Refused? {
      return c, None;
    }
    ghost var t := Unfold(heap, value, []);
    UnfoldedIsOk(heap, value, []);
    r := ReadCrossing(c, mark, utf8, t);
    if AllSafe(t) {
      SafeTapeText(t);
    }
  }
}
