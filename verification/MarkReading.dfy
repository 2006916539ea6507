/**
 The host's reader of marked JSON, after `MarkReader` of runtimes/js/src/crossing.ts: the parsed value
 is walked in place, and every marker string is replaced by the value it stands for.
 */
module MarkReading {
  import opened Prelude
  import opened Graph
  import opened Tapes
  import opened Marks

  // ----- What `JSON.parse` builds -----

  /** How many containers a tree has. */
  function Boxes(t: Tree): nat {
    match t
    case Box(_, slots) => 1 + SlotsBoxes(slots)
    case _ => 0
  }

  function SlotsBoxes(slots: Slots): nat {
    match slots
    case Done => 0
    case Slot(_, value, rest) => Boxes(value) + SlotsBoxes(rest)
  }

  /** `v` is a fresh copy of the JSON tree `t`, its containers `lo, lo + 1, ...` in order, none shared. */
  ghost predicate Laid(heap: Heap, v: Value, t: Tree, lo: nat)
    decreases t
  {
    match t
    case LeafTree(leaf) => v == Plain(leaf)
    case Cycle(_) => false
    case Box(list, slots) =>
      v == Ref(lo) && lo in heap && heap[lo].list == list && SlotsLaid(heap, heap[lo].slots, slots, lo + 1)
  }

  ghost predicate SlotsLaid(heap: Heap, props: seq<Property>, t: Slots, lo: nat)
    decreases t
  {
    match t
    case Done => props == []
    case Slot(key, value, rest) =>
      && props != [] && props[0].key == key && Laid(heap, props[0].value, value, lo)
      && SlotsLaid(heap, props[1..], rest, lo + Boxes(value))
  }

  /** What is laid out stays while other containers change. */
  lemma {:induction false} LaidStays(a: Heap, b: Heap, v: Value, t: Tree, lo: nat)
    requires Laid(a, v, t, lo) && Agree(a, b, lo, lo + Boxes(t))
    ensures Laid(b, v, t, lo)
    decreases t
  {
    if t.Box? {
      SlotsLaidStays(a, b, a[lo].slots, t.slots, lo + 1);
    }
  }

  lemma {:induction false} SlotsLaidStays(a: Heap, b: Heap, props: seq<Property>, t: Slots, lo: nat)
    requires SlotsLaid(a, props, t, lo) && Agree(a, b, lo, lo + SlotsBoxes(t))
    ensures SlotsLaid(b, props, t, lo)
    decreases t
  {
    if t.Slot? {
      LaidStays(a, b, props[0].value, t.value, lo);
      SlotsLaidStays(a, b, props[1..], t.rest, lo + Boxes(t.value));
    }
  }

  lemma {:induction false} MarkedBoxes(t: Tree, mark: Text, n: nat)
    ensures Boxes(Marked(t, mark, n)) == Boxes(t)
    decreases t
  {
    if t.Box? {
      MarkedSlotsBoxes(t.slots, mark, n);
    }
  }

  lemma {:induction false} MarkedSlotsBoxes(slots: Slots, mark: Text, n: nat)
    ensures SlotsBoxes(MarkedSlots(slots, mark, n)) == SlotsBoxes(slots)
    decreases slots
  {
    if slots.Slot? {
      MarkedBoxes(slots.value, mark, n);
      MarkedSlotsBoxes(slots.rest, mark, n + |Functions(slots.value)|);
    }
  }

  /** What `JSON.parse` makes of a JSON tree, in containers from `lo` on. */
  function Parsed(t: Tree, lo: nat): (Value, Heap)
    decreases t
  {
    match t
    case LeafTree(leaf) => (Plain(leaf), map[])
    case Cycle(_) => (Plain(Undefined), map[])
    case Box(list, slots) =>
      var (props, heap) := ParsedSlots(slots, lo + 1);
      (Ref(lo), heap[lo := Node(list, props)])
  }

  function ParsedSlots(slots: Slots, lo: nat): (seq<Property>, Heap)
    decreases slots
  {
    match slots
    case Done => ([], map[])
    case Slot(key, value, rest) =>
      var (v, first) := Parsed(value, lo);
      var (props, others) := ParsedSlots(rest, lo + Boxes(value));
      ([Property(key, v)] + props, first + others)
  }

  ghost predicate Within(heap: Heap, lo: nat, hi: nat) { forall r :: r in heap ==> lo <= r < hi }

  ghost predicate IsJson(t: Tree)
    decreases t
  {
    match t
    case LeafTree(_) => true
    case Cycle(_) => false
    case Box(list, slots) => SlotsAreJson(list, slots) && DistinctSlots(slots)
  }

  ghost predicate SlotsAreJson(list: bool, slots: Slots)
    decreases slots
  {
    match slots
    case Done => true
    case Slot(key, value, rest) => (key.None? <==> list) && IsJson(value) && SlotsAreJson(list, rest)
  }

  /** The parsed value is laid out as it should be, in a well-formed heap. */
  lemma {:induction false} ParsedIsLaid(t: Tree, lo: nat)
    requires IsJson(t)
    ensures var (v, heap) := Parsed(t, lo);
      Laid(heap, v, t, lo) && Within(heap, lo, lo + Boxes(t)) && WellFormed(heap) && Holds(heap, v)
    decreases t
  {
    hide WellFormed, SlotsLaid, DistinctSlots;
    match t
    case LeafTree(_) => EmptyHeap();
    case Box(list, slots) =>
      ParsedSlotsAreLaid(list, slots, lo + 1);
      var (props, heap) := ParsedSlots(slots, lo + 1);
      SlotsLaidStays(heap, heap[lo := Node(list, props)], props, slots, lo + 1);
      AddedIsWellFormed(heap, lo, Node(list, props));
  }

  lemma EmptyHeap()
    ensures WellFormed(map[])
  {
  }

  lemma AddedIsWellFormed(heap: Heap, r: nat, node: Node)
    requires WellFormed(heap) && r !in heap && SlotsHeld(heap, node.list, node.slots) && DistinctKeys(node.slots)
    ensures WellFormed(heap[r := node])
  {
    var after := heap[r := node];
    forall q | q in after ensures SlotsHeld(after, after[q].list, after[q].slots) && DistinctKeys(after[q].slots) {
      assert q in heap ==> SlotsHeld(heap, heap[q].list, heap[q].slots) && DistinctKeys(heap[q].slots);
    }
  }

  lemma {:induction false} ParsedSlotsAreLaid(list: bool, slots: Slots, lo: nat)
    requires SlotsAreJson(list, slots) && DistinctSlots(slots)
    ensures var (props, heap) := ParsedSlots(slots, lo);
      && SlotsLaid(heap, props, slots, lo) && Within(heap, lo, lo + SlotsBoxes(slots)) && WellFormed(heap)
      && SlotsHeld(heap, list, props) && DistinctKeys(props)
      && SameKeys(props, slots)
    decreases slots
  {
    hide WellFormed, Laid, IsJson, SameKeys, DistinctKeys, Within, SlotsLaid, SlotsHeld, Parsed, Agree;
    match slots
    case Done =>
      EmptyHeap();
      NoKeys();
      NothingLaid(list, lo);
    case Slot(key, value, rest) =>
      ParsedIsLaid(value, lo);
      ParsedSlotsAreLaid(list, rest, lo + Boxes(value));
      var (v, first) := Parsed(value, lo);
      var (props, others) := ParsedSlots(rest, lo + Boxes(value));
      var heap, p := first + others, Property(key, v);
      Apart(first, others, lo, lo + Boxes(value), lo + SlotsBoxes(slots));
      JoinedIsWellFormed(first, others);
      LaidStays(first, heap, v, value, lo);
      SlotsLaidStays(others, heap, props, rest, lo + Boxes(value));
      PrependedKeys(p, props, rest, slots);
      TogetherLaid(first, others, list, p, props, slots, lo);
  }

  lemma NothingLaid(list: bool, lo: nat)
    ensures SlotsLaid(map[], [], Done, lo) && SlotsHeld(map[], list, [])
  {
  }

  lemma TogetherLaid(first: Heap, others: Heap, list: bool, p: Property, props: seq<Property>, slots: Slots, lo: nat)
    requires slots.Slot? && slots.key == p.key && (p.key.None? <==> list)
    requires Laid(first + others, p.value, slots.value, lo) && Holds(first, p.value)
    requires SlotsLaid(first + others, props, slots.rest, lo + Boxes(slots.value)) && SlotsHeld(others, list, props)
    ensures SlotsLaid(first + others, [p] + props, slots, lo) && SlotsHeld(first + others, list, [p] + props)
  {
    hide Laid;
    assert ([p] + props)[1..] == props;
  }

  /** The first slot's containers come before the others'. */
  lemma Apart(a: Heap, b: Heap, lo: nat, mid: nat, hi: nat)
    requires Within(a, lo, mid) && Within(b, mid, hi) && lo <= mid <= hi
    ensures forall r :: r in a ==> r !in b
    ensures Within(a + b, lo, hi) && Agree(a, a + b, lo, mid) && Agree(b, a + b, mid, hi)
  {
  }

  ghost predicate KeyIn(props: seq<Property>, key: Text) {
    exists i :: 0 <= i < |props| && props[i].key == Some(key)
  }

  ghost predicate SameKeys(props: seq<Property>, slots: Slots) {
    forall key :: KeyIn(props, key) <==> HasKey(slots, key)
  }

  lemma NoKeys()
    ensures SameKeys([], Done) && DistinctKeys([]) && Within(map[], 0, 0)
    ensures forall lo :: Within(map[], lo, lo)
  {
  }

  lemma PrependedKeys(p: Property, props: seq<Property>, rest: Slots, slots: Slots)
    requires slots.Slot? && slots.rest == rest && slots.key == p.key && DistinctSlots(slots) && DistinctKeys(props)
    requires SameKeys(props, rest)
    ensures DistinctKeys([p] + props) && SameKeys([p] + props, slots)
  {
    hide KeyIn;
    forall key ensures KeyIn([p] + props, key) <==> HasKey(slots, key) {
      PrependedKey(p, props, key);
    }
    if p.key.Some? {
      NoSuchProperty(props, p.key.value);
    }
  }

  lemma PrependedKey(p: Property, props: seq<Property>, key: Text)
    ensures KeyIn([p] + props, key) <==> p.key == Some(key) || KeyIn(props, key)
  {
    var all := [p] + props;
    assert forall i :: 0 <= i < |props| ==> all[i + 1] == props[i];
    assert all[0] == p;
  }

  lemma NoSuchProperty(props: seq<Property>, key: Text)
    requires !KeyIn(props, key)
    ensures forall i :: 0 <= i < |props| ==> props[i].key != Some(key)
  {
  }

  lemma JoinedIsWellFormed(a: Heap, b: Heap)
    requires WellFormed(a) && WellFormed(b) && forall r :: r in a ==> r !in b
    ensures WellFormed(a + b)
  {
    var c := a + b;
    forall q | q in c ensures SlotsHeld(c, c[q].list, c[q].slots) && DistinctKeys(c[q].slots) {
      assert q in a ==> SlotsHeld(a, a[q].list, a[q].slots) && DistinctKeys(a[q].slots);
      assert q in b ==> SlotsHeld(b, b[q].list, b[q].slots) && DistinctKeys(b[q].slots);
    }
  }

  /** A marked tree is JSON. */
  lemma {:induction false} MarkedIsJson(t: Tree, mark: Text, n: nat, level: nat)
    requires TreeOk(t, level)
    ensures IsJson(Marked(t, mark, n))
    decreases t
  {
    hide IntegerText, MarkedLeaf, Marker;
    if t.Box? {
      MarkedSlotsAreJson(t.list, t.slots, mark, n, level + 1);
    }
  }

  lemma {:induction false} MarkedSlotsAreJson(list: bool, slots: Slots, mark: Text, n: nat, level: nat)
    requires SlotsOk(list, slots, level) && DistinctSlots(slots)
    ensures SlotsAreJson(list, MarkedSlots(slots, mark, n)) && DistinctSlots(MarkedSlots(slots, mark, n))
    decreases slots
  {
    hide Marked;
    if slots.Slot? {
      var m := n + |Functions(slots.value)|;
      MarkedIsJson(slots.value, mark, n, level);
      MarkedSlotsAreJson(list, slots.rest, mark, m, level);
      if slots.key.Some? {
        MarkedKeys(slots.rest, mark, m, slots.key.value);
      }
    }
  }

  lemma {:induction false} MarkedKeys(slots: Slots, mark: Text, n: nat, key: Text)
    ensures HasKey(MarkedSlots(slots, mark, n), key) <==> HasKey(slots, key)
    decreases slots
  {
    hide Marked;
    if slots.Slot? {
      MarkedKeys(slots.rest, mark, n + |Functions(slots.value)|, key);
    }
  }

  /** A laid-out JSON tree stands for itself. */
  lemma {:induction false} LaidMeans(heap: Heap, v: Value, path: seq<nat>, t: Tree, lo: nat)
    requires Laid(heap, v, t, lo) && AllBelow(path, lo)
    ensures Means(heap, v, path, t, lo, lo + Boxes(t))
    decreases t
  {
    if t.Box? {
      SlotsLaidMean(heap, heap[lo].slots, path + [lo], t.slots, lo + 1);
      SlotsMeanStays(heap, heap, heap[lo].slots, path + [lo], t.slots, lo + 1, lo + Boxes(t), lo, lo + Boxes(t));
    }
  }

  lemma {:induction false} SlotsLaidMean(heap: Heap, props: seq<Property>, path: seq<nat>, t: Slots, lo: nat)
    requires SlotsLaid(heap, props, t, lo) && AllBelow(path, lo)
    ensures SlotsMean(heap, props, path, t, lo, lo + SlotsBoxes(t))
    decreases t
  {
    if t.Slot? {
      var mid, hi := lo + Boxes(t.value), lo + SlotsBoxes(t);
      LaidMeans(heap, props[0].value, path, t.value, lo);
      MeansStays(heap, heap, props[0].value, path, t.value, lo, mid, lo, hi);
      SlotsLaidMean(heap, props[1..], path, t.rest, mid);
      SlotsMeanStays(heap, heap, props[1..], path, t.rest, mid, hi, lo, hi);
    }
  }

  // ----- Markers read back -----

  /** What a marker stands for; a cycle only says how far up. */
  datatype Meaning = Stands(leaf: Leaf) | Climbs(up: int) | Calls(index: int) | Unreadable

  function MeaningOf(spelled: Text, mark: Text): Meaning
    requires StartsWith(spelled, mark)
  {
    if |spelled| == |mark| then Unreadable
    else
      var code, body := spelled[|mark|], spelled[|mark| + 1..];
      if code == MARKED_UNDEFINED then Stands(Undefined)
      else if code == MARKED_NAN then Stands(Numeric(NaN))
      else if code == MARKED_INFINITY then Stands(Numeric(Infinity))
      else if code == MARKED_NEGATIVE_INFINITY then Stands(Numeric(NegativeInfinity))
      else if code == MARKED_NEGATIVE_ZERO then Stands(Numeric(NegativeZero))
      else if code == MARKED_BIGINT then Stands(BigInt(IntegerOf(body)))
      else if code == MARKED_CYCLE then Climbs(IntegerOf(body))
      else if code == MARKED_LEAF then Calls(IntegerOf(body))
      else Unreadable
  }

  lemma MarkerMeans(mark: Text, code: Unit, body: Text)
    ensures Marker(mark, code, body).String?
    ensures var spelled := Marker(mark, code, body).text;
      && StartsWith(spelled, mark) && |spelled| > |mark| && spelled[|mark|] == code && spelled[|mark| + 1..] == body
  {
    var spelled := mark + ([code] + body);
    assert spelled[..|mark|] == mark && spelled[|mark| + 1..] == body;
  }

  lemma LeafMarkerMeans(leaf: Leaf, mark: Text, n: nat)
    requires NeedsMark(leaf)
    ensures MarkedLeaf(leaf, mark, n).String? && StartsWith(MarkedLeaf(leaf, mark, n).text, mark)
    ensures MeaningOf(MarkedLeaf(leaf, mark, n).text, mark) == if leaf.Function? then Calls(n) else Stands(leaf)
  {
    hide IntegerText, IntegerOf, Marker, StartsWith;
    match leaf
    case Undefined => MarkerMeans(mark, MARKED_UNDEFINED, []);
    case Numeric(number) => MarkerMeans(mark, SpecialCode(number), []);
    case BigInt(i) =>
      MarkerMeans(mark, MARKED_BIGINT, IntegerText(i));
      IntegerComesBack(i);
    case Function(_) =>
      MarkerMeans(mark, MARKED_LEAF, IntegerText(n));
      IntegerComesBack(n);
  }

  lemma CycleMarkerMeans(up: nat, mark: Text)
    ensures StartsWith(Marker(mark, MARKED_CYCLE, IntegerText(up)).text, mark)
    ensures MeaningOf(Marker(mark, MARKED_CYCLE, IntegerText(up)).text, mark) == Climbs(up)
  {
    hide IntegerText, IntegerOf, StartsWith;
    MarkerMeans(mark, MARKED_CYCLE, IntegerText(up));
    IntegerComesBack(up);
  }

  // ----- Reading in place -----

  /** The functions from the `n`-th leaf on are those of the tree. */
  ghost predicate Given(leaves: seq<nat>, n: nat, functions: seq<nat>) {
    n + |functions| <= |leaves| && leaves[n..n + |functions|] == functions
  }

  lemma GivenSplits(leaves: seq<nat>, n: nat, a: seq<nat>, b: seq<nat>)
    requires Given(leaves, n, a + b)
    ensures Given(leaves, n, a) && Given(leaves, n + |a|, b)
  {
    var all := leaves[n..n + |a + b|];
    assert all[..|a|] == a && all[|a|..] == b;
    assert leaves[n..n + |a|] == all[..|a|] && leaves[n + |a|..n + |a| + |b|] == all[|a|..];
  }

  /** Outside `lo..hi` nothing changed, and no container came or went. */
  ghost predicate OnlyIn(a: Heap, b: Heap, lo: nat, hi: nat) {
    a.Keys == b.Keys && forall r :: r in a && !(lo <= r < hi) ==> b[r] == a[r]
  }

  ghost predicate AllBelow(path: seq<nat>, lo: nat) { forall i :: 0 <= i < |path| ==> path[i] < lo }

  class MarkReader {
    const mark: Text
    const leaves: seq<nat>
    var heap: Heap
    var ancestors: seq<nat>

    constructor (mark: Text, leaves: seq<nat>, heap: Heap)
      ensures this.mark == mark && this.leaves == leaves && this.heap == heap && ancestors == []
    {
      this.mark, this.leaves, this.heap := mark, leaves, heap;
      ancestors := [];
    }

    ghost predicate Ready()
      reads this
    {
      WellFormed(heap) && IsPath(heap, ancestors)
    }

    /** Turns a laid-out marked tree into a value that stands for the tree itself. */
    method Read(v: Value, ghost t: Tree, ghost n: nat, ghost lo: nat) returns (r: Value)
      requires Ready() && AllBelow(ancestors, lo) && TreeOk(t, |ancestors|) && Unmarked(t, mark)
      requires Laid(heap, v, Marked(t, mark, n), lo) && Given(leaves, n, Functions(t))
      modifies this
      ensures Ready() && ancestors == old(ancestors) && OnlyIn(old(heap), heap, lo, lo + Boxes(t)) && Holds(heap, r)
      ensures Means(heap, r, ancestors, t, lo, lo + Boxes(t))
      decreases Size(t), 1
    {
      hide WellFormed, Distinct, SlotsOk, DistinctSlots, SlotsUnmarked, MarkedSlots, SlotsLaid, SlotsFunctions,
        MeaningOf,
        IntegerText, MarkedLeaf, StartsWith, NeedsMark, Marker;
      if v.Plain? {
        r := v;
        if v.leaf.String? && StartsWith(v.leaf.text, mark) {
          r := ReadMarker(v.leaf.text, t, n);
        } else {
          NoMarker(t, mark, n);
        }
        return;
      }
      ReadBox(v.at, t, n);
      r := v;
    }

    method ReadMarker(spelled: Text, ghost t: Tree, ghost n: nat) returns (r: Value)
      requires StartsWith(spelled, mark) && Unmarked(t, mark) && TreeOk(t, |ancestors|)
      requires Marked(t, mark, n) == LeafTree(String(spelled)) && Given(leaves, n, Functions(t))
      ensures t.LeafTree? ==> r == Plain(t.leaf)
      ensures t.Cycle? ==> r == Ref(ancestors[|ancestors| - t.up])
    {
      hide IntegerText, MarkedLeaf, StartsWith, Marker, MeaningOf;
      SpelledMeans(t, mark, n);
      var meaning := MeaningOf(spelled, mark);
      match meaning
      case Stands(leaf) => r := Plain(leaf);
      case Climbs(up) => r := Ref(ancestors[|ancestors| - up]);
      case Calls(index) => r := Plain(Function(leaves[index]));
      case Unreadable => r := Plain(Undefined);
    }

    method ReadBox(at: nat, ghost t: Tree, ghost n: nat)
      requires Ready() && AllBelow(ancestors, at) && t.Box? && TreeOk(t, |ancestors|) && Unmarked(t, mark)
      requires Laid(heap, Ref(at), Marked(t, mark, n), at) && Given(leaves, n, Functions(t))
      modifies this
      ensures Ready() && ancestors == old(ancestors) && OnlyIn(old(heap), heap, at, at + Boxes(t)) && at in heap
      ensures Means(heap, Ref(at), ancestors, t, at, at + Boxes(t))
      decreases Size(t), 0
    {
      hide WellFormed, Distinct, SlotsOk, DistinctSlots, SlotsUnmarked, MarkedSlots, SlotsLaid, SlotsFunctions,
        SlotsMean, Means, OnlyIn, Given;
      ghost var path, hi := ancestors, at + Boxes(t);
      ghost var list := heap[at].list;
      PathDeepens(heap, ancestors, at);
      ancestors := ancestors + [at];
      ghost var left, done, m: nat, lo: nat := t.slots, Done, n, at + 1;
      ghost var was := heap;
      BeginsLaid(heap, at, ancestors, hi);
      var i := 0;
      while i < |heap[at].slots|
        invariant Ready() && ancestors == path + [at] && AllBelow(ancestors, at + 1)
        invariant OnlyIn(was, heap, at, hi) && at in heap && heap[at].list == list
        invariant i <= |heap[at].slots| && at < lo && lo + SlotsBoxes(left) == hi
        invariant Appended(done, left) == t.slots && SlotsSize(left) <= SlotsSize(t.slots)
        invariant SlotsOk(list, left, |ancestors|) && SlotsUnmarked(left, mark)
        invariant Given(leaves, m, SlotsFunctions(left))
        invariant SlotsMean(heap, heap[at].slots[..i], ancestors, done, at + 1, lo)
        invariant SlotsLaid(heap, heap[at].slots[i..], MarkedSlots(left, mark, m), lo)
        decreases |heap[at].slots| - i
      {
        LeftHasSlot(heap, at, i, left, mark, m, lo);
        ghost var before := heap;
        ReadSlot(at, i, left, m, lo, done);
        OnlyInStill(was, before, heap, at, lo, lo + Boxes(left.value), hi);
        AppendedStep(done, left);
        done := Appended(done, Slot(left.key, left.value, Done));
        m, lo, left := m + |Functions(left.value)|, lo + Boxes(left.value), left.rest;
        i := i + 1;
      }
      NothingLeft(heap, at, left, mark, m, lo);
      AppendedNothing(done);
      BoxMeans(heap, path, at, t, lo);
      ancestors := ancestors[..|ancestors| - 1];
      assert ancestors == path;
    }

    /** Reads the `i`-th slot of the container `at` in place. */
    method ReadSlot(at: nat, i: nat, ghost left: Slots, ghost m: nat, ghost lo: nat, ghost done: Slots)
      requires Ready() && AllBelow(ancestors, at + 1) && at < lo && at in heap && i < |heap[at].slots|
      requires left.Slot? && SlotsOk(heap[at].list, left, |ancestors|) && SlotsUnmarked(left, mark)
      requires Given(leaves, m, SlotsFunctions(left))
      requires SlotsMean(heap, heap[at].slots[..i], ancestors, done, at + 1, lo)
      requires SlotsLaid(heap, heap[at].slots[i..], MarkedSlots(left, mark, m), lo)
      modifies this
      ensures Ready() && ancestors == old(ancestors) && at in heap
      ensures heap[at].list == old(heap)[at].list && |heap[at].slots| == |old(heap)[at].slots|
      ensures OnlyIn(old(heap)[at := heap[at]], heap, lo, lo + Boxes(left.value))
      ensures SlotsOk(heap[at].list, left.rest, |ancestors|) && SlotsUnmarked(left.rest, mark)
      ensures Given(leaves, m + |Functions(left.value)|, SlotsFunctions(left.rest))
      ensures SlotsMean(heap, heap[at].slots[..i + 1], ancestors, Appended(done, Slot(left.key, left.value, Done)),
        at + 1,
        lo + Boxes(left.value))
      ensures SlotsLaid(heap, heap[at].slots[i + 1..], MarkedSlots(left.rest, mark, m + |Functions(left.value)|),
        lo + Boxes(left.value))
      decreases SlotsSize(left), 0
    {
      hide WellFormed, Distinct, SlotsLaid, SlotsMean, Means, Marked, Laid, Given, Functions, Unmarked, TreeOk;
      var slots := heap[at].slots;
      ghost var heap0 := heap;
      GivenSplits(leaves, m, Functions(left.value), SlotsFunctions(left.rest));
      FirstLaid(heap, slots, i, left, mark, m, lo);
      var item := slots[i].value;
      if item.Plain? && !item.leaf.String? {
        StaysPlain(heap, item, left.value, mark, m, lo, ancestors);
      } else {
        var read := Read(item, left.value, m, lo);
        if read != item {
          SlotChanged(heap, at, i, read);
          ghost var heap1 := heap;
          heap := heap[at := heap[at].(slots := heap[at].slots[i := heap[at].slots[i].(value := read)])];
          MeansStays(heap1, heap, read, ancestors, left.value, lo, lo + Boxes(left.value), lo, lo + Boxes(left.value));
        }
      }
      SlotRead(heap0, heap, at, i, left, mark, m, lo, done, ancestors);
    }
  }

  /** A plain string or other leaf without a marker is the tree's own. */
  lemma NoMarker(t: Tree, mark: Text, n: nat)
    requires Unmarked(t, mark)
    ensures var json := Marked(t, mark, n);
      json.LeafTree? && !(json.leaf.String? && StartsWith(json.leaf.text, mark)) ==> t == json
  {
    hide MarkedLeaf, StartsWith, IntegerText, MeaningOf, Marker;
    if t.LeafTree? {
      if NeedsMark(t.leaf) {
        LeafMarkerMeans(t.leaf, mark, n);
      } else {
        NotMarked(t.leaf, mark, n);
      }
    } else if t.Cycle? {
      MarkerMeans(mark, MARKED_CYCLE, IntegerText(t.up));
    }
  }

  lemma NotMarked(leaf: Leaf, mark: Text, n: nat)
    requires !NeedsMark(leaf)
    ensures MarkedLeaf(leaf, mark, n) == leaf
  {
  }

  lemma SpelledMeans(t: Tree, mark: Text, n: nat)
    requires Unmarked(t, mark) && !t.Box?
    requires var json := Marked(t, mark, n); json.LeafTree? && json.leaf.String? && StartsWith(json.leaf.text, mark)
    ensures MeaningOf(Marked(t, mark, n).leaf.text, mark)
         == if t.Cycle? then Climbs(t.up) else if t.leaf.Function? then Calls(n) else Stands(t.leaf)
  {
    hide MarkedLeaf, StartsWith, IntegerText, MeaningOf, Marker, NeedsMark;
    if t.Cycle? {
      CycleMarkerMeans(t.up, mark);
    } else if NeedsMark(t.leaf) {
      LeafMarkerMeans(t.leaf, mark, n);
    } else {
      NotMarked(t.leaf, mark, n);
    }
  }

  lemma PathDeepens(heap: Heap, path: seq<nat>, at: nat)
    requires IsPath(heap, path) && AllBelow(path, at) && at in heap
    ensures at !in path && IsPath(heap, path + [at]) && AllBelow(path + [at], at + 1)
  {
    PathGrows(heap, path, at);
  }

  lemma OnlyInStill(was: Heap, before: Heap, heap: Heap, at: nat, lo: nat, mid: nat, hi: nat)
    requires OnlyIn(was, before, at, hi) && at in before && at in heap && at < lo <= mid <= hi
    requires OnlyIn(before[at := heap[at]], heap, lo, mid)
    ensures OnlyIn(was, heap, at, hi)
  {
  }

  lemma BeginsLaid(heap: Heap, at: nat, path: seq<nat>, hi: nat)
    requires at in heap
    ensures OnlyIn(heap, heap, at, hi)
    ensures heap[at].slots[0..] == heap[at].slots
    ensures SlotsMean(heap, heap[at].slots[..0], path, Done, at + 1, at + 1)
  {
  }

  lemma LeftHasSlot(heap: Heap, at: nat, i: nat, left: Slots, mark: Text, m: nat, lo: nat)
    requires at in heap && i < |heap[at].slots| && SlotsLaid(heap, heap[at].slots[i..], MarkedSlots(left, mark, m), lo)
    ensures left.Slot?
  {
  }

  lemma NothingLeft(heap: Heap, at: nat, left: Slots, mark: Text, m: nat, lo: nat)
    requires at in heap
    requires SlotsLaid(heap, heap[at].slots[|heap[at].slots|..], MarkedSlots(left, mark, m), lo)
    ensures left.Done? && heap[at].slots[..|heap[at].slots|] == heap[at].slots
  {
  }

  lemma FirstLaid(heap: Heap, slots: seq<Property>, i: nat, left: Slots, mark: Text, m: nat, lo: nat)
    requires i < |slots| && left.Slot? && SlotsLaid(heap, slots[i..], MarkedSlots(left, mark, m), lo)
    ensures slots[i].key == left.key && Laid(heap, slots[i].value, Marked(left.value, mark, m), lo)
    ensures SlotsLaid(heap, slots[i + 1..], MarkedSlots(left.rest, mark, m + |Functions(left.value)|),
      lo + Boxes(left.value))
  {
    hide Laid, Marked, Functions;
    assert slots[i..][1..] == slots[i + 1..] && slots[i..][0] == slots[i];
    MarkedBoxes(left.value, mark, m);
  }

  lemma StaysPlain(heap: Heap, item: Value, t: Tree, mark: Text, m: nat, lo: nat, path: seq<nat>)
    requires item.Plain? && !item.leaf.String? && Unmarked(t, mark) && Laid(heap, item, Marked(t, mark, m), lo)
    ensures Means(heap, item, path, t, lo, lo + Boxes(t)) && OnlyIn(heap, heap, lo, lo + Boxes(t))
  {
    hide Marked, Unmarked;
    NoMarker(t, mark, m);
  }

  lemma SlotChanged(heap: Heap, at: nat, i: nat, v: Value)
    requires WellFormed(heap) && at in heap && i < |heap[at].slots| && Holds(heap, v)
    ensures WellFormed(heap[at := heap[at].(slots := heap[at].slots[i := heap[at].slots[i].(value := v)])])
  {
    var after := heap[at := heap[at].(slots := heap[at].slots[i := heap[at].slots[i].(value := v)])];
    forall q | q in after ensures SlotsHeld(after, after[q].list, after[q].slots) && DistinctKeys(after[q].slots) {
      assert SlotsHeld(heap, heap[q].list, heap[q].slots) && DistinctKeys(heap[q].slots);
    }
  }

  /** One slot read: the ones before it still stand, the ones after it are still laid out. */
  lemma SlotRead(heap0: Heap, heap: Heap, at: nat, i: nat, left: Slots, mark: Text, m: nat, lo: nat, done: Slots,
      path: seq<nat>)
    requires left.Slot? && at in heap0 && at in heap && at < lo && i < |heap0[at].slots|
    requires |heap[at].slots| == |heap0[at].slots| && heap[at].list == heap0[at].list
    requires heap[at].slots[..i] == heap0[at].slots[..i] && heap[at].slots[i + 1..] == heap0[at].slots[i + 1..]
    requires heap[at].slots[i].key == left.key
    requires Means(heap, heap[at].slots[i].value, path, left.value, lo, lo + Boxes(left.value))
    requires OnlyIn(heap0[at := heap[at]], heap, lo, lo + Boxes(left.value))
    requires SlotsMean(heap0, heap0[at].slots[..i], path, done, at + 1, lo)
    requires SlotsLaid(heap0, heap0[at].slots[i + 1..], MarkedSlots(left.rest, mark, m + |Functions(left.value)|),
      lo + Boxes(left.value))
    ensures SlotsMean(heap, heap[at].slots[..i + 1], path, Appended(done, Slot(left.key, left.value, Done)), at + 1,
      lo + Boxes(left.value))
    ensures SlotsLaid(heap, heap[at].slots[i + 1..], MarkedSlots(left.rest, mark, m + |Functions(left.value)|),
      lo + Boxes(left.value))
  {
    hide SlotsMean, SlotsLaid, Means, MarkedSlots, Functions;
    var p, hi := heap[at].slots[i], lo + Boxes(left.value);
    assert heap[at].slots[..i + 1] == heap[at].slots[..i] + [p];
    SlotsMeanStays(heap0, heap, heap0[at].slots[..i], path, done, at + 1, lo, at + 1, hi);
    MeansStays(heap, heap, p.value, path, left.value, lo, hi, at + 1, hi);
    SlotsMeanAppends(heap, heap[at].slots[..i], path, done, p, left.value, at + 1, hi);
    SlotsLaidStays(heap0, heap, heap[at].slots[i + 1..], MarkedSlots(left.rest, mark, m + |Functions(left.value)|), hi);
  }
}
