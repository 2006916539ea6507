/**
 The marked-JSON pass, after `makePass` of runtimes/js/src/crossing.ts: a replacer that
 `JSON.stringify` calls on every value, which spells what JSON cannot, and, past 900 containers,
 follows which ones it is inside, so that the engine's own recursion stays shallow.
 */
module MarkedPass {
  import opened Prelude
  import opened Graph
  import opened Tapes
  import opened Marks

  const NATIVE_DEPTH: nat := 1000
  const TRACK_AFTER: nat := 900

  /** What a value is a property of: the object `JSON.stringify` wraps the root in, or a container. */
  datatype Holder = Wrapper | At(r: nat)

  /** What the replacer hands back, or throws. */
  datatype Replaced = Leafy(leaf: Leaf) | Opens(r: nat) | TooDeep

  /** What a pass comes to: JSON, the engine's circular-reference error, or giving up. */
  datatype Outcome = Json(tree: Tree) | Circular | Deep

  /** The holders from the wrapper down to the innermost open container. */
  function Chain(path: seq<nat>): (chain: seq<Holder>)
    ensures |chain| == |path| + 1
  {
    [Wrapper] + seq(|path|, i requires 0 <= i < |path| => At(path[i]))
  }

  function Last<T>(s: seq<T>): T
    requires s != []
  {
    s[|s| - 1]
  }

  ghost predicate Prefix(a: seq<Holder>, b: seq<Holder>) { |a| <= |b| && b[..|a|] == a }

  lemma ChainHasDistinct(path: seq<nat>)
    requires Distinct(path)
    ensures Distinct(Chain(path))
  {
  }

  lemma ChainGrows(path: seq<nat>, r: nat)
    ensures Chain(path + [r]) == Chain(path) + [At(r)]
  {
  }

  class Pass {
    const mark: Text
    var marked: bool
    var leaves: seq<nat>
    var tracking: bool
    var limit: nat
    var containers: nat
    var stack: seq<Holder>
    var top: Option<Holder>
    var opening: Option<Holder>
    /** The chain at the replacer's last call while tracking, and where in it the stack begins. */
    ghost var trail: seq<Holder>
    ghost var low: nat

    constructor (mark: Text, trackFromStart: bool)
      ensures this.mark == mark && !marked && leaves == [] && Valid() && Here([])
      ensures trackFromStart ==> Full()
    {
      this.mark := mark;
      marked, leaves, containers := false, [], 0;
      stack, top, opening := [], None, None;
      tracking := trackFromStart;
      limit := if trackFromStart then NATIVE_DEPTH else NATIVE_DEPTH - TRACK_AFTER;
      trail, low := [], 0;
    }

    /** While tracking, the stack is a contiguous part of the chain, from a holder at most 900 deep. */
    ghost predicate Tracked()
      reads this
    {
      if trail == [] then stack == [] && top.None? && opening.None?
      else
        && low < |trail| && stack == trail[low..] && top == Some(Last(trail)) && Distinct(trail)
        && (opening.Some? ==> opening.value !in trail[..|trail| - 1])
    }

    ghost predicate Valid()
      reads this
    {
      && 1 <= limit && low + limit <= NATIVE_DEPTH
      && (if tracking then Tracked()
          else
            && limit == NATIVE_DEPTH - TRACK_AFTER && low == 0 && containers <= TRACK_AFTER
            && opening.None? && trail == [])
    }

    /** The pass follows every container from the start. */
    ghost predicate Full()
      reads this
    {
      tracking && low == 0 && limit == NATIVE_DEPTH
    }

    /** The engine is about to call the replacer below the containers of `path`. */
    ghost predicate Here(path: seq<nat>)
      reads this
    {
      if !tracking then |path| <= containers
      else if trail == [] then path == []
      else
        || Prefix(Chain(path), trail)
        || (opening.Some? && Chain(path) == trail + [opening.value])
    }

    /** The engine is back below the containers of `path`. */
    ghost predicate Back(path: seq<nat>)
      reads this
    {
      if !tracking then |path| <= containers else Prefix(Chain(path), trail)
    }

    method StartTracking(holder: Holder, ghost path: seq<nat>)
      requires !tracking && limit == NATIVE_DEPTH - TRACK_AFTER && opening.None?
      requires holder == Last(Chain(path)) && |path| <= TRACK_AFTER && Distinct(path)
      modifies this`tracking, this`top, this`stack, this`trail, this`low
      ensures Valid() && tracking && trail == Chain(path) && !Full()
    {
      ChainHasDistinct(path);
      tracking := true;
      top := Some(holder);
      stack := [holder];
      trail, low := Chain(path), |path|;
    }

    method Follow(holder: Holder, ghost path: seq<nat>)
      requires Valid() && tracking && Here(path) && holder == Last(Chain(path)) && top != Some(holder) && Distinct(path)
      modifies this`top, this`stack, this`trail, this`low
      ensures Valid() && trail == Chain(path) && (old(Full()) ==> Full())
    {
      hide Chain, Distinct;
      ChainHasDistinct(path);
      ghost var chain := Chain(path);
      top := Some(holder);
      if Some(holder) == opening {
        EntersOpened(trail, chain, holder);
        stack := stack + [holder];
        trail := chain;
        return;
      }
      var trimmed := Trim(stack, holder);
      Trimmed(trail, low, chain, stack, trimmed);
      stack := trimmed;
      if stack == [] {
        stack := [holder];
        low := |chain| - 1;
      }
      trail := chain;
    }

    /** Finds out where the engine is. */
    method Settle(holder: Holder, ghost path: seq<nat>)
      requires Valid() && Here(path) && Distinct(path) && holder == Last(Chain(path))
      modifies this`top, this`stack, this`trail, this`low
      ensures Valid() && Back(path) && (tracking ==> trail == Chain(path)) && (old(Full()) ==> Full())
    {
      hide Chain, Distinct;
      if tracking && top != Some(holder) {
        Follow(holder, path);
      } else {
        SameTop(path, trail, opening);
      }
    }

    method ReplaceLeaf(leaf: Leaf) returns (spelled: Leaf)
      requires !leaf.Symbol?
      modifies this`marked, this`leaves
      ensures spelled == MarkedLeaf(leaf, mark, |old(leaves)|) && leaves == old(leaves) + Functions(LeafTree(leaf))
      ensures marked == (old(marked) || NeedsMark(leaf))
    {
      hide IntegerText;
      if !NeedsMark(leaf) {
        return leaf;
      }
      marked := true;
      match leaf
      case Undefined => spelled := Marker(mark, MARKED_UNDEFINED, []);
      case Numeric(n) => spelled := Marker(mark, SpecialCode(n), []);
      case BigInt(i) => spelled := Marker(mark, MARKED_BIGINT, IntegerText(i));
      case Function(handle) =>
        leaves := leaves + [handle];
        spelled := Marker(mark, MARKED_LEAF, IntegerText(|leaves| - 1));
    }

    /** A container: counted, or looked up among those the pass is inside, and opened if not too deep. */
    method ReplaceContainer(holder: Holder, r: nat, ghost path: seq<nat>) returns (replaced: Replaced)
      requires Valid() && Back(path) && Distinct(path) && holder == Last(Chain(path))
      requires tracking ==> trail == Chain(path)
      modifies this`marked, this`tracking, this`containers, this`stack, this`top, this`opening, this`trail, this`low
      ensures old(Full()) ==> Full() && (replaced.Opens? ==> r !in path)
      ensures replaced.Leafy? ==>
        Valid() && Back(path) && marked && r in path && replaced.leaf == Marker(mark, MARKED_CYCLE,
          IntegerText(Up(path, r)))
      ensures replaced.Opens? ==> replaced.r == r && marked == old(marked)
      ensures replaced.Opens? && r !in path ==> Valid() && Here(path + [r]) && |path| + 1 < NATIVE_DEPTH
    {
      hide Chain, Distinct, IntegerText;
      ChainGrows(path, r);
      if !tracking {
        containers := containers + 1;
        if containers <= TRACK_AFTER {
          return Opens(r);
        }
        StartTracking(holder, path);
      }
      NotInChain(path, r);
      var s := Find(stack, r);
      if s.Some? {
        FoundUp(path, low, s.value, r);
        marked := true;
        return Leafy(Marker(mark, MARKED_CYCLE, IntegerText(|stack| - s.value)));
      }
      if |stack| >= limit {
        return TooDeep;
      }
      opening := Some(At(r));
      return Opens(r);
    }

    method Replacer(holder: Holder, item: Value, ghost path: seq<nat>) returns (replaced: Replaced)
      requires Valid() && Here(path) && Distinct(path) && holder == Last(Chain(path)) && Plainly(item)
      modifies this
      ensures replaced.Leafy? ==> Valid() && Back(path)
      ensures item.Plain? ==>
        && replaced == Leafy(MarkedLeaf(item.leaf, mark, |old(leaves)|))
        && leaves == old(leaves) + Functions(LeafTree(item.leaf))
        && marked == (old(marked) || NeedsMark(item.leaf))
      ensures item.Ref? ==> leaves == old(leaves)
      ensures item.Ref? && replaced.Leafy? ==>
        marked && item.at in path && replaced.leaf == Marker(mark, MARKED_CYCLE, IntegerText(Up(path, item.at)))
      ensures replaced.Opens? ==> item == Ref(replaced.r) && marked == old(marked)
      ensures replaced.Opens? && replaced.r !in path ==>
        Valid() && Here(path + [replaced.r]) && |path| + 1 < NATIVE_DEPTH
      ensures old(Full()) ==> Full() && (replaced.Opens? ==> replaced.r !in path)
    {
      hide Chain, Distinct, IntegerText, MarkedLeaf, NeedsMark, Functions, Here;
      Settle(holder, path);
      if item.Plain? {
        var leaf := ReplaceLeaf(item.leaf);
        return Leafy(leaf);
      }
      replaced := ReplaceContainer(holder, item.at, path);
    }

    /** What `JSON.stringify` does with one value: the engine recurses, at most 999 containers deep. */
    method Visit(heap: Heap, item: Value, path: seq<nat>) returns (o: Outcome)
      requires WellFormed(heap) && NoSymbols(heap) && Holds(heap, item) && Plainly(item) && IsPath(heap, path)
      requires Valid() && Here(path) && |path| < NATIVE_DEPTH
      modifies this
      ensures o.Json? ==>
        && Valid() && Back(path)
        && var t := Unfold(heap, item, path);
        && o.tree == Marked(t, mark, |old(leaves)|) && leaves == old(leaves) + Functions(t)
        && marked == (old(marked) || HasMark(t)) && |path| + Depth(t) < NATIVE_DEPTH
      ensures old(Full()) ==> !o.Circular? && (o.Json? ==> Full())
      decreases Free(heap, path), 0
    {
      hide Chain, IntegerText, MarkedLeaf, NeedsMark, Here, Back, WellFormed, NoSymbols, Marker, MarkedSlots,
        SlotsFunctions,
        SlotsHaveMark, SlotsDepth, UnfoldSlots, Free, Valid, Distinct;
      var holder := if path == [] then Wrapper else At(path[|path| - 1]);
      LastHolder(path);
      var replaced := Replacer(holder, item, path);
      match replaced
      case TooDeep => return Deep;
      case Leafy(leaf) => return Json(LeafTree(leaf));
      case Opens(r) =>
        if r in path {
          return Circular;
        }
        FreeShrinks(heap, path, r);
        o := VisitBox(heap, r, path);
    }

    method VisitBox(heap: Heap, r: nat, path: seq<nat>) returns (o: Outcome)
      requires WellFormed(heap) && NoSymbols(heap) && r in heap && IsPath(heap, path) && r !in path
      requires Valid() && Here(path + [r]) && |path| + 1 < NATIVE_DEPTH
      modifies this
      ensures o.Json? ==>
        && Valid() && Back(path)
        && var t := Unfold(heap, Ref(r), path);
        && o.tree == Marked(t, mark, |old(leaves)|) && leaves == old(leaves) + Functions(t)
        && marked == (old(marked) || HasMark(t)) && |path| + Depth(t) < NATIVE_DEPTH
      ensures old(Full()) ==> !o.Circular? && (o.Json? ==> Full())
      decreases Free(heap, path + [r]), |heap[r].slots| + 2
    {
      hide Here, Back, NoSymbols, MarkedSlots, SlotsFunctions, SlotsHaveMark, SlotsDepth, UnfoldSlots, Free, Valid,
        SlotsHeld,
        DistinctKeys;
      PathGrows(heap, path, r);
      SlotsPlain(heap, r);
      var slots, stopped := VisitSlots(heap, heap[r].list, heap[r].slots, path + [r]);
      if stopped.Some? {
        return stopped.value;
      }
      assert (path + [r])[..|path|] == path;
      return Json(Box(heap[r].list, slots));
    }

    /** The slots of an open container, in order. */
    method VisitSlots(heap: Heap, list: bool, slots: seq<Property>, path: seq<nat>)
        returns (json: Slots, stopped: Option<Outcome>)
      requires WellFormed(heap) && NoSymbols(heap) && SlotsHeld(heap, list, slots) && IsPath(heap, path)
      requires forall i :: 0 <= i < |slots| ==> Plainly(slots[i].value)
      requires Valid() && path != [] && Here(path) && |path| < NATIVE_DEPTH
      modifies this
      ensures stopped.None? ==>
        && Valid() && Back(path[..|path| - 1])
        && var t := UnfoldSlots(heap, list, slots, path);
        && json == MarkedSlots(t, mark, |old(leaves)|) && leaves == old(leaves) + SlotsFunctions(t)
        && marked == (old(marked) || SlotsHaveMark(t)) && |path| + SlotsDepth(t) < NATIVE_DEPTH
      ensures stopped.Some? ==> !stopped.value.Json?
      ensures old(Full()) ==> stopped != Some(Circular) && (stopped.None? ==> Full())
      decreases Free(heap, path), |slots| + 1
    {
      hide Here, Back, NoSymbols, Valid, WellFormed, Marked, HasMark, Functions, Depth, Unfold, Free, IsPath, SlotsHeld;
      json, stopped := Done, None;
      ghost var all := UnfoldSlots(heap, list, slots, path);
      assert slots[0..] == slots;
      AboveHere(path);
      NothingVisited(all, mark, leaves);
      for i := 0 to |slots|
        invariant Valid() && Here(path) && Back(path[..|path| - 1]) && SlotsHeld(heap, list, slots[i..])
        invariant old(Full()) ==> Full()
        invariant Visited(all, UnfoldSlots(heap, list, slots[i..], path), json, mark, old(leaves), leaves,
          old(marked), marked)
        invariant |path| + SlotsDepth(all) < NATIVE_DEPTH <==>
          |path| + SlotsDepth(UnfoldSlots(heap, list, slots[i..], path)) < NATIVE_DEPTH
      {
        NextSlot(heap, list, slots, i, path);
        ghost var was, spoke := leaves, marked;
        var o := Visit(heap, slots[i].value, path);
        if !o.Json? {
          stopped := Some(o);
          return;
        }
        VisitedStep(all, UnfoldSlots(heap, list, slots[i..], path), json, mark, old(leaves), was, old(marked), spoke);
        json := Appended(json, Slot(slots[i].key, o.tree, Done));
        BackIsHere(path);
      }
      assert slots[|slots|..] == [];
      VisitedAll(all, json, mark, old(leaves), leaves, old(marked), marked);
    }

    lemma AboveHere(path: seq<nat>)
      requires Valid() && Here(path) && path != []
      ensures Back(path[..|path| - 1])
    {
      ChainFront(path);
    }

    lemma BackIsHere(path: seq<nat>)
      requires Valid() && Back(path) && path != []
      ensures Here(path) && Back(path[..|path| - 1])
    {
      ChainFront(path);
    }
  }

  lemma LastHolder(path: seq<nat>)
    ensures Last(Chain(path)) == if path == [] then Wrapper else At(path[|path| - 1])
  {
  }

  lemma ChainFront(path: seq<nat>)
    requires path != []
    ensures Chain(path[..|path| - 1]) == Chain(path)[..|path|]
  {
  }

  lemma SlotsPlain(heap: Heap, r: nat)
    requires NoSymbols(heap) && r in heap
    ensures forall i :: 0 <= i < |heap[r].slots| ==> Plainly(heap[r].slots[i].value)
  {
  }

  /** With `left` still to visit, the JSON, the functions and the flag are what they have to be. */
  ghost predicate Visited(all: Slots, left: Slots, json: Slots, mark: Text, before: seq<nat>, leaves: seq<nat>,
      spoke: bool, marked: bool) {
    && Appended(json, MarkedSlots(left, mark, |leaves|)) == MarkedSlots(all, mark, |before|)
    && leaves + SlotsFunctions(left) == before + SlotsFunctions(all)
    && (marked || SlotsHaveMark(left)) == (spoke || SlotsHaveMark(all))
    && (spoke ==> marked)
  }

  lemma NothingVisited(all: Slots, mark: Text, leaves: seq<nat>)
    ensures forall marked :: Visited(all, all, Done, mark, leaves, leaves, marked, marked)
  {
  }

  lemma VisitedStep(all: Slots, left: Slots, json: Slots, mark: Text, before: seq<nat>, leaves: seq<nat>, spoke: bool,
      marked: bool)
    requires left.Slot? && Visited(all, left, json, mark, before, leaves, spoke, marked)
    ensures Visited(all, left.rest, Appended(json, Slot(left.key, Marked(left.value, mark, |leaves|), Done)), mark,
      before,
      leaves + Functions(left.value), spoke, marked || HasMark(left.value))
  {
    hide Marked, HasMark, Functions;
    AppendedStep(json, MarkedSlots(left, mark, |leaves|));
    assert leaves + Functions(left.value) + SlotsFunctions(left.rest) == leaves + SlotsFunctions(left);
  }

  lemma VisitedAll(all: Slots, json: Slots, mark: Text, before: seq<nat>, leaves: seq<nat>, spoke: bool, marked: bool)
    requires Visited(all, Done, json, mark, before, leaves, spoke, marked)
    ensures json == MarkedSlots(all, mark, |before|) && leaves == before + SlotsFunctions(all)
    ensures marked == (spoke || SlotsHaveMark(all))
  {
    AppendedNothing(json);
    assert leaves + [] == leaves;
  }

  /** At the holder on top of the stack, nothing has to be followed. */
  lemma SameTop(path: seq<nat>, trail: seq<Holder>, opening: Option<Holder>)
    requires trail != [] && Distinct(trail) ==>
      || Prefix(Chain(path), trail)
      || (opening.Some? && Chain(path) == trail + [opening.value])
    requires Distinct(path)
    ensures trail != [] && Distinct(trail) && Last(trail) == Last(Chain(path)) ==> trail == Chain(path)
  {
    hide Chain;
    ChainHasDistinct(path);
    var chain := Chain(path);
    if trail != [] && Distinct(trail) {
      assert Prefix(chain, trail) ==> trail[|chain| - 1] == Last(chain);
      assert !Prefix(chain, trail) ==> chain[|trail| - 1] == Last(trail) && |trail| == |chain| - 1;
    }
  }

  /** The last place of a container in the stack. */
  method Find(stack: seq<Holder>, r: nat) returns (s: Option<nat>)
    ensures s.Some? ==> s.value < |stack| && stack[s.value] == At(r)
    ensures s.None? ==> At(r) !in stack
  {
    var i := |stack|;
    while i > 0
      invariant 0 <= i <= |stack| && forall j :: i <= j < |stack| ==> stack[j] != At(r)
    {
      i := i - 1;
      if stack[i] == At(r) {
        return Some(i);
      }
    }
    return None;
  }

  /** A container found in the stack is as many levels up in the path. */
  lemma FoundUp(path: seq<nat>, low: nat, s: nat, r: nat)
    requires Distinct(path) && low <= |path| && low + s <= |path| && Chain(path)[low + s] == At(r)
    ensures r in path && Up(path, r) == |path| + 1 - low - s
  {
    assert path[low + s - 1] == r;
    UpIsUnique(path, |path| + 1 - low - s);
  }

  lemma NotInChain(path: seq<nat>, r: nat)
    ensures At(r) in Chain(path) <==> r in path
  {
    assert forall i :: 0 <= i < |path| ==> Chain(path)[i + 1] == At(path[i]);
  }

  /** Drops holders from the end until `holder` is the last. */
  method Trim(stack: seq<Holder>, holder: Holder) returns (r: seq<Holder>)
    ensures |r| <= |stack| && r == stack[..|r|] && (r != [] ==> Last(r) == holder)
    ensures forall i :: |r| <= i < |stack| ==> stack[i] != holder
  {
    r := stack;
    while r != [] && Last(r) != holder
      invariant |r| <= |stack| && r == stack[..|r|]
      invariant forall i :: |r| <= i < |stack| ==> stack[i] != holder
    {
      r := r[..|r| - 1];
    }
  }

  /** Back at an earlier holder, the stack ends with it, or it lies above the stack's lowest. */
  lemma Trimmed(trail: seq<Holder>, low: nat, chain: seq<Holder>, stack: seq<Holder>, r: seq<Holder>)
    requires chain != [] && Distinct(trail)
    requires if trail == [] then stack == [] else low < |trail| && Prefix(chain, trail) && stack == trail[low..]
    requires |r| <= |stack| && r == stack[..|r|] && (r != [] ==> Last(r) == Last(chain))
    requires forall i :: |r| <= i < |stack| ==> stack[i] != Last(chain)
    ensures r != [] ==> low < |chain| && r == chain[low..]
    ensures r == [] && trail != [] ==> |chain| <= low
  {
    if r != [] {
      assert Last(r) == trail[low + |r| - 1] == trail[|chain| - 1];
    }
    assert trail != [] && low < |chain| ==> stack[|chain| - 1 - low] == Last(chain);
  }

  lemma EntersOpened(trail: seq<Holder>, chain: seq<Holder>, holder: Holder)
    requires chain != [] && Last(chain) == holder
    ensures Prefix(chain, trail) && chain != trail ==> holder in trail[..|trail| - 1]
  {
  }
}
