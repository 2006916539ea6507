/**
 Values as they stand on either side of the sandbox boundary: a heap of arrays and objects that may
 share and refer back, and the finite tree such a value stands for, in which a reference to a
 container it sits in is `Cycle(up)`.
 */
module Graph {
  import opened Prelude

  newtype Unit = u: int | 0 <= u < 0x1_0000

  /** A JavaScript string: its UTF-16 code units. */
  type Text = seq<Unit>

  datatype Number = Finite(value: real) | NegativeZero | NaN | Infinity | NegativeInfinity

  datatype Leaf =
    | Undefined
    | Null
    | Boolean(yes: bool)
    | Numeric(number: Number)
    | String(text: Text)
    | BigInt(integer: int)
    | Symbol(description: Option<Text>)
    | Function(handle: nat)

  datatype Value = Plain(leaf: Leaf) | Ref(at: nat)

  /** An array element, without a key, or an object's property. */
  datatype Property = Property(key: Option<Text>, value: Value)

  datatype Node = Node(list: bool, slots: seq<Property>)

  type Heap = map<nat, Node>

  datatype Tree = LeafTree(leaf: Leaf) | Cycle(up: nat) | Box(list: bool, slots: Slots)
  datatype Slots = Done | Slot(key: Option<Text>, value: Tree, rest: Slots)

  // ----- Heaps -----

  ghost predicate Holds(heap: Heap, v: Value) { v.Ref? ==> v.at in heap }

  ghost predicate DistinctKeys(slots: seq<Property>) {
    forall i, j :: 0 <= i < j < |slots| ==> slots[i].key.None? || slots[i].key != slots[j].key
  }

  ghost predicate SlotsHeld(heap: Heap, list: bool, slots: seq<Property>) {
    forall i :: 0 <= i < |slots| ==> Holds(heap, slots[i].value) && (slots[i].key.None? <==> list)
  }

  /** Array elements have no key, an object's keys differ, and nothing dangles. */
  ghost predicate WellFormed(heap: Heap) {
    forall r :: r in heap ==> SlotsHeld(heap, heap[r].list, heap[r].slots) && DistinctKeys(heap[r].slots)
  }

  ghost predicate IsPath(heap: Heap, path: seq<nat>) {
    Distinct(path) && forall i :: 0 <= i < |path| ==> path[i] in heap
  }

  ghost function Free(heap: Heap, path: seq<nat>): nat { |heap.Keys - (set r | r in path)| }

  lemma FreeShrinks(heap: Heap, path: seq<nat>, r: nat)
    requires r in heap && r !in path
    ensures Free(heap, path + [r]) < Free(heap, path)
  {
    var before, after := heap.Keys - (set x | x in path), heap.Keys - (set x | x in path + [r]);
    assert after == before - {r};
  }

  lemma PathGrows(heap: Heap, path: seq<nat>, r: nat)
    requires IsPath(heap, path) && r in heap && r !in path
    ensures IsPath(heap, path + [r])
  {
  }

  /** A value that crosses as data; a symbol does not. */
  ghost predicate Plainly(v: Value) { v.Plain? ==> !v.leaf.Symbol? }

  ghost predicate NoSymbols(heap: Heap) {
    forall r, i :: r in heap && 0 <= i < |heap[r].slots| ==> Plainly(heap[r].slots[i].value)
  }

  // ----- The tree a value stands for -----

  /** How far up the container `r` of the path is; 1 is the innermost. */
  function Up(path: seq<nat>, r: nat): (up: nat)
    requires r in path
    ensures 1 <= up <= |path| && path[|path| - up] == r
  {
    if path[|path| - 1] == r then 1 else 1 + Up(path[..|path| - 1], r)
  }

  /** On a path without repetitions there is one such number. */
  lemma UpIsUnique(path: seq<nat>, up: nat)
    requires Distinct(path) && 1 <= up <= |path|
    ensures Up(path, path[|path| - up]) == up
  {
    var r := path[|path| - up];
    assert path[|path| - Up(path, r)] == path[|path| - up];
  }

  function Unfold(heap: Heap, v: Value, path: seq<nat>): Tree
    requires WellFormed(heap) && Holds(heap, v)
    decreases Free(heap, path), 0
  {
    match v
    case Plain(leaf) => LeafTree(leaf)
    case Ref(r) =>
      if r in path then Cycle(Up(path, r))
      else
        FreeShrinks(heap, path, r);
        Box(heap[r].list, UnfoldSlots(heap, heap[r].list, heap[r].slots, path + [r]))
  }

  function UnfoldSlots(heap: Heap, list: bool, slots: seq<Property>, path: seq<nat>): Slots
    requires WellFormed(heap) && SlotsHeld(heap, list, slots)
    decreases Free(heap, path), |slots| + 1
  {
    if slots == [] then Done
    else
      Slot(slots[0].key, Unfold(heap, slots[0].value, path), UnfoldSlots(heap, list, slots[1..], path))
  }

  lemma NextSlot(heap: Heap, list: bool, slots: seq<Property>, i: nat, path: seq<nat>)
    requires WellFormed(heap) && i < |slots| && SlotsHeld(heap, list, slots[i..])
    ensures Holds(heap, slots[i].value) && (slots[i].key.None? <==> list) && SlotsHeld(heap, list, slots[i + 1..])
    ensures UnfoldSlots(heap, list, slots[i..], path)
         == Slot(slots[i].key, Unfold(heap, slots[i].value, path), UnfoldSlots(heap, list, slots[i + 1..], path))
  {
    assert slots[i..][1..] == slots[i + 1..] && slots[i..][0] == slots[i];
  }

  /** How many containers deep a tree nests. */
  function Depth(t: Tree): nat {
    match t
    case Box(_, slots) => 1 + SlotsDepth(slots)
    case _ => 0
  }

  function SlotsDepth(slots: Slots): nat {
    match slots
    case Done => 0
    case Slot(_, value, rest) => Max(Depth(value), SlotsDepth(rest))
  }

  /** Keys where an object has them, none twice, and back-references that stay inside. */
  ghost predicate TreeOk(t: Tree, level: nat)
    decreases t
  {
    match t
    case LeafTree(_) => true
    case Cycle(up) => 1 <= up <= level
    case Box(list, slots) => SlotsOk(list, slots, level + 1) && DistinctSlots(slots)
  }

  ghost predicate SlotsOk(list: bool, slots: Slots, level: nat)
    decreases slots
  {
    match slots
    case Done => true
    case Slot(key, value, rest) => (key.None? <==> list) && TreeOk(value, level) && SlotsOk(list, rest, level)
  }

  ghost predicate HasKey(slots: Slots, key: Text) {
    match slots
    case Done => false
    case Slot(k, _, rest) => k == Some(key) || HasKey(rest, key)
  }

  ghost predicate DistinctSlots(slots: Slots) {
    match slots
    case Done => true
    case Slot(key, _, rest) => (key.Some? ==> !HasKey(rest, key.value)) && DistinctSlots(rest)
  }

  /** The tree of a heap value is well formed. */
  lemma {:induction false} UnfoldedIsOk(heap: Heap, v: Value, path: seq<nat>)
    requires WellFormed(heap) && Holds(heap, v)
    ensures TreeOk(Unfold(heap, v, path), |path|)
    decreases Free(heap, path), 0
  {
    if v.Ref? && v.at !in path {
      FreeShrinks(heap, path, v.at);
      UnfoldedSlotsAreOk(heap, heap[v.at].list, heap[v.at].slots, path + [v.at]);
    }
  }

  lemma {:induction false} UnfoldedSlotsAreOk(heap: Heap, list: bool, slots: seq<Property>, path: seq<nat>)
    requires WellFormed(heap) && SlotsHeld(heap, list, slots) && DistinctKeys(slots)
    ensures SlotsOk(list, UnfoldSlots(heap, list, slots, path), |path|)
    ensures DistinctSlots(UnfoldSlots(heap, list, slots, path))
    decreases Free(heap, path), |slots| + 1
  {
    if slots != [] {
      UnfoldedIsOk(heap, slots[0].value, path);
      KeysOfRest(slots);
      UnfoldedSlotsAreOk(heap, list, slots[1..], path);
      if slots[0].key.Some? {
        NoSuchKey(heap, list, slots[1..], path, slots[0].key.value);
      }
    }
  }

  lemma KeysOfRest(slots: seq<Property>)
    requires slots != [] && DistinctKeys(slots)
    ensures DistinctKeys(slots[1..])
    ensures forall i :: 0 <= i < |slots| - 1 && slots[0].key.Some? ==> slots[1..][i].key != slots[0].key
  {
    var rest := slots[1..];
    assert forall i, j :: 0 <= i < j < |rest| ==> rest[i] == slots[i + 1] && rest[j] == slots[j + 1];
  }

  lemma {:induction false} NoSuchKey(heap: Heap, list: bool, slots: seq<Property>, path: seq<nat>, key: Text)
    requires WellFormed(heap) && SlotsHeld(heap, list, slots)
    requires forall i :: 0 <= i < |slots| ==> slots[i].key != Some(key)
    ensures !HasKey(UnfoldSlots(heap, list, slots, path), key)
    decreases |slots|
  {
    if slots != [] {
      assert forall i :: 0 <= i < |slots[1..]| ==> slots[1..][i] == slots[i + 1];
      NoSuchKey(heap, list, slots[1..], path, key);
    }
  }

  // ----- A value that stands for a tree, built in a part of the heap -----

  /**
   Below the containers of `path`, `v` stands for `t`, and every container it opens lies in
   `lo..hi`, not on the path.
   */
  ghost predicate Means(heap: Heap, v: Value, path: seq<nat>, t: Tree, lo: nat, hi: nat)
    decreases t
  {
    match t
    case LeafTree(leaf) => v == Plain(leaf)
    case Cycle(up) => 1 <= up <= |path| && v == Ref(path[|path| - up])
    case Box(list, slots) =>
      && v.Ref? && lo <= v.at < hi && v.at in heap && v.at !in path
      && heap[v.at].list == list
      && SlotsMean(heap, heap[v.at].slots, path + [v.at], slots, lo, hi)
  }

  ghost predicate SlotsMean(heap: Heap, slots: seq<Property>, path: seq<nat>, t: Slots, lo: nat, hi: nat)
    decreases t
  {
    match t
    case Done => slots == []
    case Slot(key, value, rest) =>
      && slots != [] && slots[0].key == key
      && Means(heap, slots[0].value, path, value, lo, hi)
      && SlotsMean(heap, slots[1..], path, rest, lo, hi)
  }

  ghost predicate Agree(a: Heap, b: Heap, lo: nat, hi: nat) {
    forall r :: lo <= r < hi && r in a ==> r in b && b[r] == a[r]
  }

  /** What is built stays as it is while other parts of the heap change, and holds in a wider part. */
  lemma {:induction false} MeansStays(a: Heap, b: Heap, v: Value, path: seq<nat>, t: Tree, lo: nat, hi: nat, lo1: nat,
      hi1: nat)
    requires Means(a, v, path, t, lo, hi) && Agree(a, b, lo, hi) && lo1 <= lo && hi <= hi1
    ensures Means(b, v, path, t, lo1, hi1)
    decreases t
  {
    if t.Box? {
      SlotsMeanStays(a, b, a[v.at].slots, path + [v.at], t.slots, lo, hi, lo1, hi1);
    }
  }

  lemma {:induction false} SlotsMeanStays(a: Heap, b: Heap, slots: seq<Property>, path: seq<nat>, t: Slots, lo: nat,
      hi: nat, lo1: nat, hi1: nat)
    requires SlotsMean(a, slots, path, t, lo, hi) && Agree(a, b, lo, hi) && lo1 <= lo && hi <= hi1
    ensures SlotsMean(b, slots, path, t, lo1, hi1)
    decreases t
  {
    if t.Slot? {
      MeansStays(a, b, slots[0].value, path, t.value, lo, hi, lo1, hi1);
      SlotsMeanStays(a, b, slots[1..], path, t.rest, lo, hi, lo1, hi1);
    }
  }

  /** A container whose slots stand for a tree's slots stands for the tree. */
  lemma BoxMeans(heap: Heap, path: seq<nat>, r: nat, t: Tree, next: nat)
    requires t.Box? && r in heap && r !in path && r < next && heap[r].list == t.list
    requires SlotsMean(heap, heap[r].slots, path + [r], t.slots, r + 1, next)
    ensures Means(heap, Ref(r), path, t, r, next)
  {
    hide SlotsMean;
    SlotsMeanStays(heap, heap, heap[r].slots, path + [r], t.slots, r + 1, next, r, next);
  }

  /** A value that stands for a tree unfolds to it. */
  lemma {:induction false} MeansUnfolds(heap: Heap, v: Value, path: seq<nat>, t: Tree, lo: nat, hi: nat)
    requires WellFormed(heap) && Holds(heap, v) && IsPath(heap, path) && Means(heap, v, path, t, lo, hi)
    ensures Unfold(heap, v, path) == t
    decreases t
  {
    match t
    case LeafTree(_) =>
    case Cycle(up) => UpIsUnique(path, up);
    case Box(list, slots) =>
      PathGrows(heap, path, v.at);
      SlotsMeanUnfolds(heap, list, heap[v.at].slots, path + [v.at], slots, lo, hi);
  }

  lemma {:induction false} SlotsMeanUnfolds(heap: Heap, list: bool, slots: seq<Property>, path: seq<nat>, t: Slots,
      lo: nat, hi: nat)
    requires WellFormed(heap) && SlotsHeld(heap, list, slots) && IsPath(heap, path)
    requires SlotsMean(heap, slots, path, t, lo, hi)
    ensures UnfoldSlots(heap, list, slots, path) == t
    decreases t
  {
    if t.Slot? {
      MeansUnfolds(heap, slots[0].value, path, t.value, lo, hi);
      SlotsMeanUnfolds(heap, list, slots[1..], path, t.rest, lo, hi);
    }
  }

  // ----- Slots, read one after the other -----

  function Appended(a: Slots, b: Slots): Slots {
    match a
    case Done => b
    case Slot(key, value, rest) => Slot(key, value, Appended(rest, b))
  }

  lemma {:induction false} AppendedStep(a: Slots, b: Slots)
    requires b.Slot?
    ensures Appended(Appended(a, Slot(b.key, b.value, Done)), b.rest) == Appended(a, b)
  {
    if a.Slot? {
      AppendedStep(a.rest, b);
    }
  }

  lemma {:induction false} AppendedNothing(a: Slots)
    ensures Appended(a, Done) == a
  {
    if a.Slot? {
      AppendedNothing(a.rest);
    }
  }

  /** One more slot at the end. */
  lemma {:induction false} SlotsMeanAppends(heap: Heap, slots: seq<Property>, path: seq<nat>, t: Slots, p: Property,
      value: Tree, lo: nat, hi: nat)
    requires SlotsMean(heap, slots, path, t, lo, hi) && Means(heap, p.value, path, value, lo, hi)
    ensures SlotsMean(heap, slots + [p], path, Appended(t, Slot(p.key, value, Done)), lo, hi)
    decreases t
  {
    hide Means;
    if t.Slot? {
      SlotsMeanAppends(heap, slots[1..], path, t.rest, p, value, lo, hi);
      assert (slots + [p])[1..] == slots[1..] + [p];
    } else {
      assert ([p])[1..] == [];
    }
  }

  // ----- Building containers -----

  function KeyIndex(slots: seq<Property>, key: Text): (r: Option<nat>)
    ensures r.Some? ==> r.value < |slots| && slots[r.value].key == Some(key)
    ensures r.None? ==> forall i :: 0 <= i < |slots| ==> slots[i].key != Some(key)
  {
    if slots == [] then None
    else if slots[0].key == Some(key) then Some(0)
    else match KeyIndex(slots[1..], key) case None => None case Some(i) => Some(i + 1)
  }

  /** Defines an own property: a key that is already there keeps its place. */
  function Placed(slots: seq<Property>, p: Property): seq<Property> {
    match p.key
    case None => slots + [p]
    case Some(key) =>
      match KeyIndex(slots, key)
      case None => slots + [p]
      case Some(i) => slots[i := p]
  }

  function Place(heap: Heap, r: nat, p: Property): Heap
    requires r in heap
  {
    heap[r := heap[r].(slots := Placed(heap[r].slots, p))]
  }

  ghost predicate Below(heap: Heap, next: nat) { forall r :: r in heap ==> r < next }

  lemma PlacedIsWellFormed(heap: Heap, r: nat, p: Property)
    requires WellFormed(heap) && r in heap && Holds(heap, p.value) && (p.key.None? <==> heap[r].list)
    ensures WellFormed(Place(heap, r, p))
  {
    hide KeyIndex;
    var after := Place(heap, r, p);
    forall q | q in after
      ensures SlotsHeld(after, after[q].list, after[q].slots) && DistinctKeys(after[q].slots)
    {
      assert SlotsHeld(heap, heap[q].list, heap[q].slots) && DistinctKeys(heap[q].slots);
    }
  }

  lemma FreshIsWellFormed(heap: Heap, next: nat, list: bool)
    requires WellFormed(heap) && next !in heap
    ensures WellFormed(heap[next := Node(list, [])])
  {
    var after := heap[next := Node(list, [])];
    forall q | q in after
      ensures SlotsHeld(after, after[q].list, after[q].slots) && DistinctKeys(after[q].slots)
    {
      if q != next {
        assert SlotsHeld(heap, heap[q].list, heap[q].slots) && DistinctKeys(heap[q].slots);
      }
    }
  }

  /** Everything but the container `r` is as it was, with room for more. */
  ghost predicate GrownBut(a: Heap, b: Heap, next: nat, r: nat) {
    Below(b, next) && forall q :: q in a && q != r ==> q in b && b[q] == a[q]
  }

  ghost predicate Grown(a: Heap, b: Heap, next: nat) {
    Below(b, next) && forall q :: q in a ==> q in b && b[q] == a[q]
  }

  ghost predicate NoClash(existing: seq<Property>, slots: Slots) {
    forall i :: 0 <= i < |existing| && existing[i].key.Some? ==> !HasKey(slots, existing[i].key.value)
  }

  lemma NoMoreClash(existing: seq<Property>, p: Property, slots: Slots)
    requires slots.Slot? && p.key == slots.key && NoClash(existing, slots) && DistinctSlots(slots)
    ensures NoClash(existing + [p], slots.rest)
  {
  }

  /** A property whose key is not there yet goes to the end. */
  lemma PlacedLast(existing: seq<Property>, p: Property, slots: Slots)
    requires slots.Slot? && p.key == slots.key && NoClash(existing, slots)
    ensures Placed(existing, p) == existing + [p]
  {
    if p.key.Some? {
      forall i | 0 <= i < |existing| ensures existing[i].key != p.key {
        assert existing[i].key.Some? ==> !HasKey(slots, existing[i].key.value);
      }
    }
  }

  /** How much there is to read of a tree. */
  ghost function Size(t: Tree): (n: nat)
    ensures n >= 1
  {
    match t
    case Box(_, slots) => 1 + SlotsSize(slots)
    case _ => 1
  }

  ghost function SlotsSize(slots: Slots): nat {
    match slots
    case Done => 0
    case Slot(_, value, rest) => 1 + Size(value) + SlotsSize(rest)
  }
}
