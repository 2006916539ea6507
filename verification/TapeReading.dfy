/**
 The host's reader of an outbound tape, after `TapeReader` of runtimes/js/src/crossing.ts: it
 descends the shape codes and builds arrays and objects as it goes, from whatever texts arrived.
 */
module TapeReading {
  import opened Prelude
  import opened Graph
  import opened Tapes
  import opened Cursors
  import opened Wordings

  class TapeReader {
    const cursor: Cursor
    var heap: Heap
    var next: nat
    var ancestors: seq<nat>

    constructor (cursor: Cursor)
      ensures this.cursor == cursor && heap == map[] && next == 0 && ancestors == []
    {
      this.cursor := cursor;
      heap, next, ancestors := map[], 0, [];
    }

    ghost predicate Ready()
      reads this, cursor
    {
      cursor.Valid() && WellFormed(heap) && Below(heap, next) && IsPath(heap, ancestors)
    }

    /** Reads what the tape goes on with, as a value that stands for it; fails where a BigInt is no integer. */
    method Read(ghost w: Raw, ghost rest: Tape) returns (r: Option<Value>)
      requires Ready() && RawOk(w, |ancestors|) && cursor.Rest() == Plus(RawTape(w), rest)
      modifies this, cursor
      ensures r.Some? <==> Sense(w).Some?
      ensures r.Some? ==> Ready() && cursor.Rest() == rest && ancestors == old(ancestors)
      ensures r.Some? ==> old(next) <= next && Grown(old(heap), heap, next) && Holds(heap, r.value)
      ensures r.Some? ==> Means(heap, r.value, ancestors, Sense(w).value, old(next), next)
      decreases Weight(w), 1
    {
      hide LeafTape, PartsTape, Plus, WellFormed, CountOf, TakeLeaf, PartsOk, SlotsMean, PartsWeight, Length,
        WordLeaf, SenseInto;
      ghost var was := cursor.Rest();
      FirstCode(w, rest, |ancestors|);
      var code := cursor.NextCode();
      if code == ARRAY_START || code == OBJECT_START {
        WholeOpened(w, rest);
        r := ReadBox(code == ARRAY_START, w, rest);
        return;
      }
      if code == CYCLE {
        CycleComesBack(w.up, rest);
        var up := cursor.NextNumber();
        return Some(Ref(ancestors[|ancestors| - CountOf(up.value)]));
      }
      LeafTaken(w, rest, |ancestors|);
      var leaf := cursor.ReadLeaf(code, was);
      return if leaf.None? then None else Some(Plain(leaf.value));
    }

    /** A container, whose start code was read. */
    method ReadBox(list: bool, ghost w: Raw, ghost rest: Tape) returns (v: Option<Value>)
      requires Ready() && w.Whole? && w.list == list && RawOk(w, |ancestors|)
      requires cursor.Rest() == Plus(PartsTape(w.parts), Plus(OneCode(EndCode(list)), rest))
      modifies this, cursor
      ensures v.Some? <==> Sense(w).Some?
      ensures v.Some? ==> Ready() && cursor.Rest() == rest && ancestors == old(ancestors)
      ensures v.Some? ==> old(next) <= next && Grown(old(heap), heap, next) && Holds(heap, v.value)
      ensures v.Some? ==> Means(heap, v.value, ancestors, Sense(w).value, old(next), next)
      decreases Weight(w), 0
    {
      hide PartsTape, Plus, WellFormed, SlotsMean, PartsOk, Means, Cursor.Rest, Distinct, SenseInto;
      var r := next;
      ghost var path := ancestors;
      OpenedOk(heap, next, ancestors, list);
      heap := heap[r := Node(list, [])];
      next := next + 1;
      ancestors := ancestors + [r];
      ghost var left, done := w.parts, Done;
      NothingRead(heap, ancestors, next);
      while true
        invariant Ready() && ancestors == path + [r] && old(next) == r < next
        invariant r in heap && heap[r].list == list && GrownBut(old(heap), heap, next, r)
        invariant SenseInto(done, left) == SenseInto(Done, w.parts) && PartsWeight(left) <= PartsWeight(w.parts)
        invariant PartsOk(list, left, |ancestors|)
        invariant SlotsMean(heap, heap[r].slots, ancestors, done, r + 1, next)
        invariant cursor.Rest() == Plus(PartsTape(left), Plus(OneCode(EndCode(list)), rest))
        decreases PartsWeight(left)
      {
        EndsWhenDone(list, left, rest, |ancestors|);
        CodeLeft(cursor);
        if cursor.tape.codes[cursor.at] == EndCode(list) {
          break;
        }
        SensesNext(done, left);
        var ok := ReadSlot(r, list, left, Plus(OneCode(EndCode(list)), rest), done);
        if !ok {
          return None;
        }
        done := Put(done, left.key, Sense(left.value).value);
        left := left.rest;
      }
      CodeLeft(cursor);
      var _ := cursor.NextCode();
      EndSkipped(list, rest);
      SensesDone(done);
      BoxMeans(heap, path, r, Box(list, done), next);
      ancestors := ancestors[..|ancestors| - 1];
      assert ancestors == path;
      v := Some(Ref(r));
    }

    method ReadKey(ghost key: Text, ghost rest: Tape) returns (t: Text)
      requires Ready() && cursor.Rest() == Plus(KeyTape(Some(key), false), rest)
      modifies this, cursor
      ensures Ready() && cursor.Rest() == rest && ancestors == old(ancestors)
      ensures old(next) <= next && Grown(old(heap), heap, next)
      ensures t == key
      decreases 1, 2
    {
      hide Plus, WellFormed, Cursor.Rest, Distinct, KeyTape, RawTape;
      KeyIsWord(key);
      var read := Read(Word(TEXT, key), rest);
      t := read.value.leaf.text;
    }

    /** One entry of the container `r`. */
    method ReadSlot(r: nat, list: bool, ghost left: Parts, ghost after: Tape, ghost done: Slots) returns (ok: bool)
      requires Ready() && ancestors != [] && ancestors[|ancestors| - 1] == r && r in heap && heap[r].list == list
      requires left.Part? && PartsOk(list, left, |ancestors|)
      requires cursor.Rest() == Plus(PartsTape(left), after)
      requires SlotsMean(heap, heap[r].slots, ancestors, done, r + 1, next) && r < next
      modifies this, cursor
      ensures ok <==> Sense(left.value).Some?
      ensures PartsOk(list, left.rest, |old(ancestors)|)
      ensures ok ==> Ready() && ancestors == old(ancestors) && old(next) <= next
      ensures ok ==> r in heap && heap[r].list == list && GrownBut(old(heap), heap, next, r)
      ensures ok ==> cursor.Rest() == Plus(PartsTape(left.rest), after)
      ensures ok ==>
        SlotsMean(heap, heap[r].slots, ancestors, Put(done, left.key, Sense(left.value).value), r + 1, next)
      decreases PartsWeight(left), 0
    {
      hide Plus, WellFormed, SlotsMean, Means, RawTape, TextTape, Cursor.Rest, Distinct, Placed, Sense, RawOk;
      ghost var more := Plus(PartsTape(left.rest), after);
      PartJoined(left, after);
      var key: Option<Text> := None;
      if !list {
        ghost var was := heap;
        var read := ReadKey(left.key.value, Plus(RawTape(left.value), more));
        key := Some(read);
        SlotsMeanStays(was, heap, heap[r].slots, ancestors, done, r + 1, old(next), r + 1, next);
      } else {
        PlusBlank(Plus(RawTape(left.value), more));
      }
      ghost var heap0, next0 := heap, next;
      var v := Read(left.value, more);
      if v.None? {
        return false;
      }
      ghost var heap1 := heap;
      PlacedIsWellFormed(heap, r, Property(key, v.value));
      heap := Place(heap, r, Property(key, v.value));
      SlotLands(heap0, next0, heap1, next, heap, r, Property(key, v.value), Sense(left.value).value, ancestors, done);
      ok := true;
    }
  }

  lemma OpenedOk(heap: Heap, next: nat, path: seq<nat>, list: bool)
    requires WellFormed(heap) && Below(heap, next) && IsPath(heap, path)
    ensures var after := heap[next := Node(list, [])];
      WellFormed(after) && Below(after, next + 1) && IsPath(after, path + [next]) && next !in path && next !in heap
  {
    hide WellFormed;
    FreshIsWellFormed(heap, next, list);
  }

  lemma NothingRead(heap: Heap, path: seq<nat>, next: nat)
    ensures SlotsMean(heap, [], path, Done, next, next)
  {
  }

  lemma SensesNext(done: Slots, left: Parts)
    requires left.Part?
    ensures SenseInto(done, left) ==
      if Sense(left.value).None? then None else SenseInto(Put(done, left.key, Sense(left.value).value), left.rest)
  {
  }

  lemma SensesDone(done: Slots)
    ensures SenseInto(done, NoPart) == Some(done)
  {
  }

  lemma CodeLeft(cursor: Cursor)
    requires cursor.Valid() && cursor.Rest().codes != []
    ensures cursor.at < |cursor.tape.codes| && cursor.tape.codes[cursor.at] == cursor.Rest().codes[0]
  {
  }

  /** The next code ends the container exactly when no part is left. */
  lemma EndsWhenDone(list: bool, parts: Parts, rest: Tape, level: nat)
    requires PartsOk(list, parts, level)
    ensures var t := Plus(PartsTape(parts), Plus(OneCode(EndCode(list)), rest));
      t.codes != [] && (t.codes[0] == EndCode(list) <==> parts.NoPart?)
  {
    if parts.Part? {
      BeginsNoEnd(parts.value, level);
    }
  }

  lemma BeginsNoEnd(w: Raw, level: nat)
    requires RawOk(w, level)
    ensures RawTape(w).codes != []
    ensures RawTape(w).codes[0] != ARRAY_END && RawTape(w).codes[0] != OBJECT_END
  {
    hide PartsTape;
  }

  lemma EndSkipped(list: bool, rest: Tape)
    ensures var t := Plus(PartsTape(NoPart), Plus(OneCode(EndCode(list)), rest));
      t.codes != [] && Skip(t) == rest
  {
    hide Plus;
    PlusBlank(Plus(OneCode(EndCode(list)), rest));
    OneCodeSkipped(EndCode(list), rest);
  }

  lemma PartJoined(left: Parts, after: Tape)
    requires left.Part?
    ensures Plus(PartsTape(left), after)
         == Plus(KeyTape(left.key, false), Plus(RawTape(left.value), Plus(PartsTape(left.rest), after)))
  {
    hide Plus, RawTape, KeyTape;
    PlusAssociates(KeyTape(left.key, false), Plus(RawTape(left.value), PartsTape(left.rest)), after);
    PlusAssociates(RawTape(left.value), PartsTape(left.rest), after);
  }

  lemma KeyIsWord(key: Text)
    ensures KeyTape(Some(key), false) == RawTape(Word(TEXT, key))
  {
  }

  /** The entry just read is where its key was, or the container's last; the others are as they were. */
  lemma SlotLands(heap0: Heap, next0: nat, heap1: Heap, next: nat, heap: Heap, r: nat, p: Property, value: Tree,
      path: seq<nat>, done: Slots)
    requires r in heap0 && Below(heap0, next0) && r < next0 <= next && Grown(heap0, heap1, next) && r in heap1
    requires heap == Place(heap1, r, p)
    requires Means(heap1, p.value, path, value, next0, next)
    requires SlotsMean(heap0, heap0[r].slots, path, done, r + 1, next0)
    ensures GrownBut(heap0, heap, next, r)
    ensures SlotsMean(heap, heap[r].slots, path, Put(done, p.key, value), r + 1, next)
  {
    hide Means, SlotsMean, Placed;
    var existing := heap0[r].slots;
    MeansStays(heap1, heap, p.value, path, value, next0, next, r + 1, next);
    SlotsMeanStays(heap0, heap, existing, path, done, r + 1, next0, r + 1, next);
    SlotsMeanPut(heap, existing, path, done, p, value, r + 1, next);
  }

  lemma {:induction false} SlotsMeanPut(heap: Heap, slots: seq<Property>, path: seq<nat>, t: Slots, p: Property,
      value: Tree, lo: nat, hi: nat)
    requires SlotsMean(heap, slots, path, t, lo, hi) && Means(heap, p.value, path, value, lo, hi)
    ensures SlotsMean(heap, Placed(slots, p), path, Put(t, p.key, value), lo, hi)
    decreases t
  {
    hide Means, Placed;
    PlacedStep(slots, p);
    if t.Slot? {
      SlotsMeanPut(heap, slots[1..], path, t.rest, p, value, lo, hi);
    }
  }

  /** Placing, one slot at a time. */
  lemma PlacedStep(slots: seq<Property>, p: Property)
    ensures slots == [] ==> Placed(slots, p) == [p] && [p][1..] == []
    ensures slots != [] && p.key.Some? && slots[0].key == p.key ==>
      |Placed(slots, p)| == |slots| && Placed(slots, p)[0] == p && Placed(slots, p)[1..] == slots[1..]
    ensures slots != [] && !(p.key.Some? && slots[0].key == p.key) ==>
      Placed(slots, p) != [] && Placed(slots, p)[0] == slots[0] && Placed(slots, p)[1..] == Placed(slots[1..], p)
  {
    if slots != [] {
      assert slots == [slots[0]] + slots[1..];
      if p.key.None? {
        assert (slots + [p])[1..] == slots[1..] + [p];
      } else if slots[0].key != p.key {
        var i := KeyIndex(slots[1..], p.key.value);
        assert KeyIndex(slots, p.key.value) == if i.None? then None else Some(i.value + 1);
      }
    }
  }

  /** The first code says what kind of thing follows. */
  lemma FirstCode(w: Raw, rest: Tape, level: nat)
    requires RawOk(w, level)
    ensures var all := Plus(RawTape(w), rest);
      && all.codes != []
      && (w.Whole? <==> all.codes[0] == ARRAY_START || all.codes[0] == OBJECT_START)
      && (w.Whole? ==> all.codes[0] == StartCode(w.list))
      && (w.Back? <==> all.codes[0] == CYCLE)
  {
    hide PartsTape;
  }

  /** A word or a simple leaf is taken as what it is, or not at all. */
  lemma LeafTaken(w: Raw, rest: Tape, level: nat)
    requires RawOk(w, level) && (w.Word? || w.Simple?)
    ensures TakeLeaf(Plus(RawTape(w), rest))
      == if Sense(w).None? then None else Some(Taken(Sense(w).value.leaf, rest))
  {
    hide TakeLeaf, LeafTape, Plus, WordLeaf;
    if w.Word? {
      SpelledTaken(w.code, w.text, rest);
    } else {
      LeafComesBack(w.leaf, false, rest);
    }
  }

  lemma WholeOpened(w: Raw, rest: Tape)
    requires w.Whole?
    ensures var all := Plus(RawTape(w), rest);
      all.codes != [] && Skip(all) == Plus(PartsTape(w.parts), Plus(OneCode(EndCode(w.list)), rest))
  {
    hide Plus, PartsTape;
    var start, inner, end := OneCode(StartCode(w.list)), PartsTape(w.parts), OneCode(EndCode(w.list));
    PlusAssociates(start, Plus(inner, end), rest);
    PlusAssociates(inner, end, rest);
    OneCodeSkipped(StartCode(w.list), Plus(inner, Plus(end, rest)));
  }

  lemma OneCodeSkipped(code: Code, rest: Tape)
    ensures var all := Plus(OneCode(code), rest); all.codes != [] && Skip(all) == rest
  {
    var all := Plus(OneCode(code), rest);
    assert all.codes[1..] == rest.codes && all.numbers == rest.numbers && all.text == rest.text;
    assert all.leaves == rest.leaves;
  }

  lemma CycleComesBack(up: nat, rest: Tape)
    ensures var all := Plus(CycleTape(up), rest);
      && all.codes != [] && all.numbers != [] && CountOf(all.numbers[0]) == up
      && Skip(all).(numbers := all.numbers[1..]) == rest
  {
    hide CountOf, Length;
    CountOfLength(up);
    var all := Plus(CycleTape(up), rest);
    assert all.codes[1..] == rest.codes && all.numbers[1..] == rest.numbers;
    assert all.text == rest.text && all.leaves == rest.leaves;
  }
}
