/**
 Manifest inheritance, after runtimes/js/src/extends.ts: a manifest is merged onto the bases it
 extends, each resolved first, with collisions refused and cycles found by the chain of paths.
 */
module Manifests {
  import opened Prelude

  // ----- Declarations -----

  /** `Atom` is any scalar or array but a string, by its text. */
  datatype Json = Str(text: string) | Atom(text: string) | Obj(fields: Fields)
  datatype Fields = NoField | Field(name: string, value: Json, rest: Fields)

  function Get(fields: Fields, name: string): Option<Json> {
    match fields
    case NoField => None
    case Field(n, value, rest) => if n == name then Some(value) else Get(rest, name)
  }

  function Put(fields: Fields, name: string, value: Json): Fields {
    match fields
    case NoField => Field(name, value, NoField)
    case Field(n, prior, rest) => if n == name then Field(n, value, rest) else Field(n, prior, Put(rest, name, value))
  }

  lemma {:induction false} GetOfPut(fields: Fields, name: string, value: Json, other: string)
    ensures Get(Put(fields, name, value), other) == if other == name then Some(value) else Get(fields, other)
  {
    if fields.Field? && fields.name != name {
      GetOfPut(fields.rest, name, value, other);
    }
  }

  ghost predicate DistinctFields(fields: Fields) {
    match fields
    case NoField => true
    case Field(n, value, rest) =>
      Get(rest, n).None? && DistinctFields(rest) && (value.Obj? ==> DistinctFields(value.fields))
  }

  function IsSet(value: Json, name: string): bool { value.Obj? && Get(value.fields, name) == Some(Atom("true")) }

  /** Both objects are merged key by key; anything else is replaced. */
  function MergedField(base: Option<Json>, value: Json): Json
    decreases value, 1
  {
    match base
    case Some(Obj(fields)) => if value.Obj? then Obj(DeepMerge(fields, fields, value.fields)) else value
    case _ => value
  }

  /** Lays the child's fields over `result`, a copy of `base`; the `refines` marker is consumed. */
  function DeepMerge(result: Fields, base: Fields, child: Fields): Fields
    decreases child, 0
  {
    match child
    case NoField => result
    case Field(name, value, rest) =>
      DeepMerge(if name == "refines" then result else Put(result, name, MergedField(Get(base, name), value)), base,
        rest)
  }

  /** What a deep merge holds under each key: the base's value, the child's, or both merged. */
  lemma {:induction false} DeepMergeLaw(result: Fields, base: Fields, child: Fields, key: string)
    requires DistinctFields(child)
    ensures Get(DeepMerge(result, base, child), key) ==
      match Get(child, key)
      case None => Get(result, key)
      case Some(value) => if key == "refines" then Get(result, key) else Some(MergedField(Get(base, key), value))
    decreases child
  {
    if child.Field? {
      var put := MergedField(Get(base, child.name), child.value);
      DeepMergeLaw(if child.name == "refines" then result else Put(result, child.name, put), base, child.rest, key);
      GetOfPut(result, child.name, put, key);
    }
  }

  /** A deep merge of objects without repeated keys repeats none. */
  lemma {:induction false} DeepMergeIsDistinct(result: Fields, base: Fields, child: Fields)
    requires DistinctFields(result) && DistinctFields(base) && DistinctFields(child)
    ensures DistinctFields(DeepMerge(result, base, child))
    decreases child, 0
  {
    if child.Field? {
      var put := MergedField(Get(base, child.name), child.value);
      MergedFieldIsDistinct(base, child.name, child.value);
      PutIsDistinct(result, child.name, put);
      DeepMergeIsDistinct(if child.name == "refines" then result else Put(result, child.name, put), base, child.rest);
    }
  }

  lemma {:induction false} MergedFieldIsDistinct(base: Fields, name: string, value: Json)
    requires DistinctFields(base) && (value.Obj? ==> DistinctFields(value.fields))
    ensures var put := MergedField(Get(base, name), value); put.Obj? ==> DistinctFields(put.fields)
    decreases value, 1
  {
    FieldIsDistinct(base, name);
    if Get(base, name).Some? && Get(base, name).value.Obj? && value.Obj? {
      var fields := Get(base, name).value.fields;
      DeepMergeIsDistinct(fields, fields, value.fields);
    }
  }

  lemma {:induction false} FieldIsDistinct(fields: Fields, name: string)
    requires DistinctFields(fields)
    ensures Get(fields, name).Some? && Get(fields, name).value.Obj? ==> DistinctFields(Get(fields, name).value.fields)
  {
    if fields.Field? {
      FieldIsDistinct(fields.rest, name);
    }
  }

  lemma {:induction false} PutIsDistinct(fields: Fields, name: string, value: Json)
    requires DistinctFields(fields) && (value.Obj? ==> DistinctFields(value.fields))
    ensures DistinctFields(Put(fields, name, value))
  {
    if fields.Field? && fields.name != name {
      PutIsDistinct(fields.rest, name, value);
      GetOfPut(fields.rest, name, value, fields.name);
    }
  }

  // ----- Slots -----

  function IdOf(slot: Json): Option<string> {
    if !slot.Obj? then None
    else match Get(slot.fields, "id") case Some(Str(id)) => Some(id) case _ => None
  }

  ghost predicate Has(slots: seq<Json>, id: string) { exists i :: 0 <= i < |slots| && IdOf(slots[i]) == Some(id) }

  ghost predicate DistinctIds(slots: seq<Json>) {
    forall i, j :: 0 <= i < j < |slots| && IdOf(slots[i]).Some? ==> IdOf(slots[i]) != IdOf(slots[j])
  }

  ghost predicate SlotOk(slot: Json) { slot.Obj? ==> DistinctFields(slot.fields) }

  ghost predicate SlotsOk(slots: seq<Json>) { forall i :: 0 <= i < |slots| ==> SlotOk(slots[i]) }

  /** The first slot with an id. */
  function FirstWith(slots: seq<Json>, id: string): (r: Option<nat>)
    ensures r.None? ==> !Has(slots, id)
    ensures r.Some? ==> r.value < |slots| && IdOf(slots[r.value]) == Some(id)
  {
    if slots == [] then None
    else if IdOf(slots[0]) == Some(id) then Some(0)
    else match FirstWith(slots[1..], id) case None => None case Some(i) => Some(i + 1)
  }

  /** A slot merged over the one it refines. */
  function Refined(base: Json, slot: Json): Json {
    if base.Obj? && slot.Obj? then Obj(DeepMerge(base.fields, base.fields, slot.fields)) else slot
  }

  /** One more slot: appended, merged over the one with its id, or in conflict with it. */
  function SlotAdded(merged: seq<Json>, slot: Json): Option<seq<Json>> {
    match IdOf(slot)
    case None => Some(merged + [slot])
    case Some(id) =>
      match FirstWith(merged, id)
      case None => Some(merged + [slot])
      case Some(i) => if IsSet(slot, "refines") then Some(merged[i := Refined(merged[i], slot)]) else None
  }

  ghost function SlotsAdded(merged: seq<Json>, child: seq<Json>): Option<seq<Json>>
    decreases |child|
  {
    if child == [] then Some(merged)
    else
      match SlotsAdded(merged, Front(child))
      case None => None
      case Some(r) => SlotAdded(r, child[|child| - 1])
  }

  function Front(slots: seq<Json>): seq<Json>
    requires slots != []
  {
    slots[..|slots| - 1]
  }

  lemma RefinedKeepsId(base: Json, slot: Json, id: string)
    requires IdOf(base) == Some(id) == IdOf(slot) && SlotOk(base) && SlotOk(slot)
    ensures IdOf(Refined(base, slot)) == Some(id) && SlotOk(Refined(base, slot))
  {
    hide DeepMerge, Get;
    DeepMergeLaw(base.fields, base.fields, slot.fields, "id");
    DeepMergeIsDistinct(base.fields, base.fields, slot.fields);
    assert MergedField(Get(base.fields, "id"), Str(id)) == Str(id);
  }

  /** Adding a slot keeps ids apart and loses none. */
  lemma SlotAddedLaw(merged: seq<Json>, slot: Json, id: string)
    requires SlotsOk(merged) && SlotOk(slot) && SlotAdded(merged, slot).Some?
    ensures SlotsOk(SlotAdded(merged, slot).value)
    ensures DistinctIds(merged) ==> DistinctIds(SlotAdded(merged, slot).value)
    ensures Has(SlotAdded(merged, slot).value, id) <==> Has(merged, id) || IdOf(slot) == Some(id)
  {
    hide IdOf, SlotOk, Refined, FirstWith, IsSet;
    var r := SlotAdded(merged, slot).value;
    if IdOf(slot).Some? && FirstWith(merged, IdOf(slot).value).Some? {
      var i := FirstWith(merged, IdOf(slot).value).value;
      RefinedKeepsId(merged[i], slot, IdOf(slot).value);
      assert forall j :: 0 <= j < |merged| ==> IdOf(r[j]) == IdOf(merged[j]);
    } else {
      assert r == merged + [slot];
      assert forall j :: 0 <= j < |merged| ==> r[j] == merged[j];
      assert r[|merged|] == slot;
    }
  }

  /** The merged slots have the ids of both, each once. */
  lemma {:induction false} SlotsAddedLaw(merged: seq<Json>, child: seq<Json>, id: string)
    requires SlotsOk(merged) && SlotsOk(child) && SlotsAdded(merged, child).Some?
    ensures SlotsOk(SlotsAdded(merged, child).value)
    ensures DistinctIds(merged) ==> DistinctIds(SlotsAdded(merged, child).value)
    ensures Has(SlotsAdded(merged, child).value, id) <==> Has(merged, id) || Has(child, id)
    decreases |child|
  {
    hide SlotAdded, SlotOk, IdOf, DistinctIds;
    if child != [] {
      SlotsAddedLaw(merged, Front(child), id);
      SlotAddedLaw(SlotsAdded(merged, Front(child)).value, child[|child| - 1], id);
      HasLast(child, id);
    }
  }

  lemma HasLast(slots: seq<Json>, id: string)
    requires slots != []
    ensures Has(slots, id) <==> Has(Front(slots), id) || IdOf(slots[|slots| - 1]) == Some(id)
  {
    hide IdOf;
    var front := Front(slots);
    assert forall i :: 0 <= i < |front| ==> front[i] == slots[i];
  }

  /** Once a slot conflicts, the merge fails. */
  lemma {:induction false} ConflictStays(merged: seq<Json>, child: seq<Json>, i: nat)
    requires i <= |child| && SlotsAdded(merged, child[..i]).None?
    ensures SlotsAdded(merged, child).None?
    decreases |child|
  {
    hide SlotAdded;
    if i == |child| {
      assert child[..i] == child;
    } else {
      assert Front(child)[..i] == child[..i];
      ConflictStays(merged, Front(child), i);
    }
  }

  method MergeSlots(base: seq<Json>, child: seq<Json>) returns (merged: seq<Json>, conflicts: seq<string>)
    requires SlotsOk(base) && SlotsOk(child)
    ensures conflicts == [] <==> SlotsAdded(base, child).Some?
    ensures conflicts == [] ==> SlotsAdded(base, child) == Some(merged)
  {
    hide IdOf, SlotOk, Refined, IsSet, FirstWith;
    merged, conflicts := base, [];
    var seen := CollectIds(base);
    for i := 0 to |child|
      invariant SlotsOk(merged) && forall id :: id in seen <==> Has(merged, id)
      invariant conflicts == [] <==> SlotsAdded(base, child[..i]).Some?
      invariant conflicts == [] ==> SlotsAdded(base, child[..i]) == Some(merged)
    {
      var slot, id := child[i], IdOf(child[i]);
      assert Front(child[..i + 1]) == child[..i] && child[..i + 1][i] == slot;
      StepUnfolds(merged, slot);
      if id.Some? && id.value in seen {
        if IsSet(slot, "refines") {
          var at := FirstWith(merged, id.value);
          merged := merged[at.value := Refined(merged[at.value], slot)];
        } else {
          conflicts := conflicts + [id.value];
        }
      } else {
        if id.Some? {
          seen := seen + {id.value};
        }
        merged := merged + [slot];
      }
    }
    assert child[..|child|] == child;
  }

  /** What one slot does to the merged ones, and to their ids. */
  lemma StepUnfolds(merged: seq<Json>, slot: Json)
    requires SlotsOk(merged) && SlotOk(slot)
    ensures var id := IdOf(slot);
      if id.Some? && Has(merged, id.value) then
        && FirstWith(merged, id.value).Some?
        && var at := FirstWith(merged, id.value).value; var after := merged[at := Refined(merged[at], slot)];
        && SlotAdded(merged, slot) == (if IsSet(slot, "refines") then Some(after) else None)
        && SlotsOk(after) && forall other :: Has(after, other) <==> Has(merged, other)
      else
        && SlotAdded(merged, slot) == Some(merged + [slot]) && SlotsOk(merged + [slot])
        && forall other :: Has(merged + [slot], other) <==> Has(merged, other) || IdOf(slot) == Some(other)
  {
    hide IdOf, SlotOk, Refined, IsSet, FirstWith;
    var id := IdOf(slot);
    if id.Some? && Has(merged, id.value) {
      HasFirst(merged, id.value);
      var at := FirstWith(merged, id.value).value;
      RefinedKeepsId(merged[at], slot, id.value);
      var after := merged[at := Refined(merged[at], slot)];
      assert forall j :: 0 <= j < |merged| ==> IdOf(after[j]) == IdOf(merged[j]);
    } else {
      forall other ensures Has(merged + [slot], other) <==> Has(merged, other) || IdOf(slot) == Some(other) {
        assert Front(merged + [slot]) == merged;
        HasLast(merged + [slot], other);
      }
    }
  }

  lemma HasFirst(slots: seq<Json>, id: string)
    requires Has(slots, id)
    ensures FirstWith(slots, id).Some?
  {
  }

  method CollectIds(slots: seq<Json>) returns (seen: set<string>)
    ensures forall id :: id in seen <==> Has(slots, id)
  {
    hide IdOf;
    seen := {};
    for i := 0 to |slots|
      invariant forall id :: id in seen <==> Has(slots[..i], id)
    {
      var id := IdOf(slots[i]);
      assert Front(slots[..i + 1]) == slots[..i];
      forall other ensures Has(slots[..i + 1], other) <==> Has(slots[..i], other) || IdOf(slots[i]) == Some(other) {
        HasLast(slots[..i + 1], other);
      }
      if id.Some? {
        seen := seen + {id.value};
      }
    }
    assert slots[..|slots|] == slots;
  }

  // ----- Manifests -----

  type Section = map<string, Json>

  datatype Kind = Bindings | Capabilities | Hooks | Types

  datatype Sections = Sections(bindings: Section, capabilities: Section, hooks: Section, types: Section)

  function Sec(s: Sections, kind: Kind): Section {
    match kind
    case Bindings => s.bindings
    case Capabilities => s.capabilities
    case Hooks => s.hooks
    case Types => s.types
  }

  datatype Extends = NoExtends | Refs(refs: seq<string>) | Malformed

  /** What else a manifest declares, whatever it is. */
  type Other = nat

  datatype Content = Content(sections: Sections, slots: seq<Json>, other: Other)

  datatype Manifest = Manifest(bases: Extends, content: Content)

  /** What a path loads to; a path that is missing cannot be loaded. */
  datatype Raw = Object(manifest: Manifest) | NotAnObject

  datatype Loader = Loader(
    files: map<string, Raw>,
    join: (string, string) -> string,
    dirOf: string -> string,
    mergeOther: (Other, Other) -> Option<Other>)

  const NO_SECTIONS: Sections := Sections(map[], map[], map[], map[])

  const NOTHING: Content := Content(NO_SECTIONS, [], 0)

  // ----- Merging -----

  /** A child's declaration where the base has one under the same id; none is a conflict. */
  function Collide(kind: Kind, base: Json, child: Json): Option<Json> {
    if kind != Types then None
    else if IsSet(base, "abstract") && child.Obj? then Some(child)
    else if base.Obj? && IsSet(child, "refines") then Some(Obj(DeepMerge(base.fields, base.fields, child.fields)))
    else None
  }

  ghost predicate Clashes(kind: Kind, target: Section, source: Section, id: string) {
    id in target && id in source && Collide(kind, target[id], source[id]).None?
  }

  /** What stands under an id of either section; a conflicting id keeps the base's declaration, for the report. */
  ghost function Entry(kind: Kind, target: Section, source: Section, id: string): Json
    requires id in target || id in source
  {
    if id !in source then target[id]
    else if id !in target then source[id]
    else var r := Collide(kind, target[id], source[id]); if r.Some? then r.value else target[id]
  }

  /** Two sections as one. */
  ghost function Union(kind: Kind, target: Section, source: Section): Section {
    map id | id in target.Keys + source.Keys :: Entry(kind, target, source, id)
  }

  method MergeMaps(kind: Kind, target: Section, source: Section) returns (merged: Section, conflicts: seq<string>)
    ensures merged == Union(kind, target, source)
    ensures forall id :: id in conflicts <==> Clashes(kind, target, source, id)
  {
    hide Collide, Clashes;
    merged, conflicts := target, [];
    var todo := source.Keys;
    while todo != {}
      invariant todo <= source.Keys && merged.Keys == target.Keys + (source.Keys - todo)
      invariant forall id :: id in merged ==> merged[id] == if id in todo then target[id] else Entry(kind, target,
        source, id)
      invariant forall id :: id in conflicts <==> id in source && id !in todo && Clashes(kind, target, source, id)
    {
      var key :| key in todo;
      KeyClashes(kind, target, source, key);
      if key in merged {
        var r := Collide(kind, target[key], source[key]);
        if r.Some? {
          merged := merged[key := r.value];
        } else {
          conflicts := conflicts + [key];
        }
      } else {
        merged := merged[key := source[key]];
      }
      todo := todo - {key};
    }
    OnlySourceClashes(kind, target, source);
  }

  lemma KeyClashes(kind: Kind, target: Section, source: Section, key: string)
    requires key in source
    ensures Clashes(kind, target, source, key) <==> key in target && Collide(kind, target[key], source[key]).None?
  {
  }

  lemma OnlySourceClashes(kind: Kind, target: Section, source: Section)
    ensures forall id :: Clashes(kind, target, source, id) ==> id in source
  {
  }

  ghost predicate Compatible(kind: Kind, a: Sections, b: Sections) {
    forall id :: id in Sec(a, kind) && id in Sec(b, kind) ==> Collide(kind, Sec(a, kind)[id], Sec(b, kind)[id]).Some?
  }

  /** A child's content on top of a base's: none where any id conflicts. */
  ghost function Merge(loader: Loader, base: Content, child: Content): Option<Content> {
    var a, b := base.sections, child.sections;
    var slots, other := SlotsAdded(base.slots, child.slots), loader.mergeOther(base.other, child.other);
    if Compatible(Bindings, a, b) && Compatible(Capabilities, a, b) && Compatible(Hooks, a, b) && Compatible(Types, a,
      b)
       && slots.Some? && other.Some?
    then Some(Content(Sections(
      Union(Bindings, a.bindings, b.bindings), Union(Capabilities, a.capabilities, b.capabilities),
      Union(Hooks, a.hooks, b.hooks), Union(Types, a.types, b.types)), slots.value, other.value))
    else None
  }

  method MergeManifests(loader: Loader, base: Content, child: Content) returns (r: Option<Content>)
    requires SlotsOk(base.slots) && SlotsOk(child.slots)
    ensures r == Merge(loader, base, child)
    ensures r.Some? ==> SlotsOk(r.value.slots)
  {
    hide Collide, Union, SlotsAdded, SlotOk;
    var a, b := base.sections, child.sections;
    var bindings, c1 := MergeMaps(Bindings, a.bindings, b.bindings);
    var capabilities, c2 := MergeMaps(Capabilities, a.capabilities, b.capabilities);
    var hooks, c3 := MergeMaps(Hooks, a.hooks, b.hooks);
    var types, c4 := MergeMaps(Types, a.types, b.types);
    var slots, c5 := MergeSlots(base.slots, child.slots);
    var other := loader.mergeOther(base.other, child.other);
    NoConflicts(Bindings, a, b, c1);
    NoConflicts(Capabilities, a, b, c2);
    NoConflicts(Hooks, a, b, c3);
    NoConflicts(Types, a, b, c4);
    if c1 != [] || c2 != [] || c3 != [] || c4 != [] || c5 != [] || other.None? {
      return None;
    }
    SlotsAddedLaw(base.slots, child.slots, "");
    return Some(Content(Sections(bindings, capabilities, hooks, types), slots, other.value));
  }

  lemma NoConflicts(kind: Kind, a: Sections, b: Sections, conflicts: seq<string>)
    requires forall id :: id in conflicts <==> Clashes(kind, Sec(a, kind), Sec(b, kind), id)
    ensures conflicts == [] <==> Compatible(kind, a, b)
  {
    hide Collide;
    if conflicts != [] {
      assert conflicts[0] in conflicts;
    } else {
      forall id | id in Sec(a, kind) && id in Sec(b, kind) ensures Collide(kind, Sec(a, kind)[id],
        Sec(b, kind)[id]).Some? {
        assert !Clashes(kind, Sec(a, kind), Sec(b, kind), id);
      }
    }
  }

  // ----- The tree of bases -----

  /** A manifest with the manifests it extends, in order, each with its own; `alone` if it extends none. */
  datatype Tree = Tree(own: Content, alone: bool, bases: seq<Tree>)

  ghost function Unseen(loader: Loader, chain: seq<string>): nat { |loader.files.Keys - (set p | p in chain)| }

  lemma ChainGrows(loader: Loader, chain: seq<string>, path: string)
    requires path in loader.files && path !in chain
    ensures Unseen(loader, chain + [path]) < Unseen(loader, chain)
  {
    var before, after := loader.files.Keys - (set p | p in chain), loader.files.Keys - (set p | p in chain + [path]);
    assert after == before - {path};
  }

  /** The whole tree, if every base loads and no path extends itself. */
  ghost function Unfolded(loader: Loader, manifest: Manifest, dir: string, chain: seq<string>): Option<Tree>
    decreases Unseen(loader, chain), 2, 0
  {
    match manifest.bases
    case NoExtends => Some(Tree(manifest.content, true, []))
    case Malformed => None
    case Refs(refs) =>
      match UnfoldedAll(loader, refs, dir, chain)
      case None => None
      case Some(bases) => Some(Tree(manifest.content, false, bases))
  }

  ghost function UnfoldedAll(loader: Loader, refs: seq<string>, dir: string, chain: seq<string>): Option<seq<Tree>>
    decreases Unseen(loader, chain), 1, |refs|
  {
    if refs == [] then Some([])
    else
      match UnfoldedAll(loader, refs[..|refs| - 1], dir, chain)
      case None => None
      case Some(front) =>
        match UnfoldedRef(loader, refs[|refs| - 1], dir, chain)
        case None => None
        case Some(last) => Some(front + [last])
  }

  ghost function UnfoldedRef(loader: Loader, ref: string, dir: string, chain: seq<string>): Option<Tree>
    decreases Unseen(loader, chain), 0, 0
  {
    var path := loader.join(dir, ref);
    if path in chain || path !in loader.files || loader.files[path].NotAnObject? then None
    else
      ChainGrows(loader, chain, path);
      Unfolded(loader, loader.files[path].manifest, loader.dirOf(path), chain + [path])
  }

  /** The bases merged one after the other, then the manifest itself on top. */
  ghost function Merged(loader: Loader, tree: Tree): Option<Content>
    decreases tree
  {
    if tree.alone then Some(tree.own)
    else
      match MergedAll(loader, tree.bases)
      case None => None
      case Some(composed) => Merge(loader, composed, tree.own)
  }

  ghost function MergedAll(loader: Loader, trees: seq<Tree>): Option<Content>
    decreases trees
  {
    if trees == [] then Some(NOTHING)
    else
      match (MergedAll(loader, trees[..|trees| - 1]), Merged(loader, trees[|trees| - 1]))
      case (Some(composed), Some(last)) => Merge(loader, composed, last)
      case _ => None
  }

  // ----- Resolving -----

  /** What resolving comes to: the tree merged, or a refusal. */
  ghost function Outcome(loader: Loader, tree: Option<Tree>): Option<Content> {
    if tree.None? then None else Merged(loader, tree.value)
  }

  /** No object in the files repeats a key. */
  ghost predicate FilesOk(loader: Loader) {
    forall path :: path in loader.files && loader.files[path].Object? ==>
      SlotsOk(loader.files[path].manifest.content.slots)
  }

  method ResolveInternal(loader: Loader, manifest: Manifest, dir: string,
      chain: seq<string>) returns (r: Option<Content>)
    requires FilesOk(loader) && SlotsOk(manifest.content.slots)
    requires Distinct(chain) && forall i :: 0 <= i < |chain| ==> chain[i] in loader.files
    ensures r == Outcome(loader, Unfolded(loader, manifest, dir, chain))
    ensures r.Some? ==> SlotsOk(r.value.slots)
    decreases Unseen(loader, chain)
  {
    hide Merge, Unseen, SlotOk;
    if manifest.bases.NoExtends? {
      return Some(manifest.content);
    }
    if manifest.bases.Malformed? {
      return None;
    }
    var refs := manifest.bases.refs;
    var composed := NOTHING;
    for i := 0 to |refs|
      invariant UnfoldedAll(loader, refs[..i], dir, chain).Some?
      invariant MergedAll(loader, UnfoldedAll(loader, refs[..i], dir, chain).value) == Some(composed)
      invariant SlotsOk(composed.slots)
    {
      NextRef(loader, refs, i, dir, chain);
      var path := loader.join(dir, refs[i]);
      if path in chain || path !in loader.files || loader.files[path].NotAnObject? {
        Stopped(loader, refs, i, dir, chain);
        return None;
      }
      ChainGrows(loader, chain, path);
      var base := ResolveInternal(loader, loader.files[path].manifest, loader.dirOf(path), chain + [path]);
      if base.None? {
        Stopped(loader, refs, i, dir, chain);
        return None;
      }
      var merged := MergeManifests(loader, composed, base.value);
      if merged.None? {
        Stopped(loader, refs, i, dir, chain);
        return None;
      }
      composed := merged.value;
    }
    assert refs[..|refs|] == refs;
    r := MergeManifests(loader, composed, manifest.content);
  }

  lemma NextRef(loader: Loader, refs: seq<string>, i: nat, dir: string, chain: seq<string>)
    requires i < |refs| && UnfoldedAll(loader, refs[..i], dir, chain).Some?
    ensures refs[..i + 1][..i] == refs[..i] && refs[..i + 1][i] == refs[i]
    ensures var front, last := UnfoldedAll(loader, refs[..i], dir, chain).value,
      UnfoldedRef(loader, refs[i], dir, chain);
      UnfoldedAll(loader, refs[..i + 1], dir, chain) == if last.None? then None else Some(front + [last.value])
    ensures var front, last := UnfoldedAll(loader, refs[..i], dir, chain).value,
      UnfoldedRef(loader, refs[i], dir, chain);
      last.Some? ==> (front + [last.value])[..|front|] == front
  {
    assert refs[..i + 1][..i] == refs[..i];
  }

  /** What the first `i + 1` bases come to. */
  ghost function SoFar(loader: Loader, refs: seq<string>, dir: string, chain: seq<string>): Option<Content> {
    var trees := UnfoldedAll(loader, refs, dir, chain);
    if trees.None? then None else MergedAll(loader, trees.value)
  }

  /** Once the bases so far come to nothing, so do all of them. */
  lemma {:induction false} Stopped(loader: Loader, refs: seq<string>, i: nat, dir: string, chain: seq<string>)
    requires i < |refs| && SoFar(loader, refs[..i + 1], dir, chain).None?
    ensures SoFar(loader, refs, dir, chain).None?
    decreases |refs|
  {
    hide UnfoldedRef, Merge;
    if i + 1 == |refs| {
      assert refs[..i + 1] == refs;
    } else {
      var front := refs[..|refs| - 1];
      assert front[..i + 1] == refs[..i + 1];
      Stopped(loader, front, i, dir, chain);
      var trees := UnfoldedAll(loader, refs, dir, chain);
      if trees.Some? {
        var rest := UnfoldedAll(loader, front, dir, chain).value;
        assert trees.value[..|rest|] == rest;
      }
    }
  }

  method ResolveExtends(loader: Loader, manifest: Raw, dir: string) returns (r: Option<Content>)
    requires FilesOk(loader) && (manifest.Object? ==> SlotsOk(manifest.manifest.content.slots))
    ensures r == if manifest.NotAnObject? then None else Outcome(loader, Unfolded(loader, manifest.manifest, dir, []))
  {
    if manifest.NotAnObject? {
      return None;
    }
    r := ResolveInternal(loader, manifest.manifest, dir, []);
  }

  // ----- Where declarations come from -----

  /** The manifest at a place of the tree: which base to take, at each step down. */
  ghost function At(tree: Tree, place: seq<nat>): Option<Content>
    decreases |place|
  {
    if place == [] then Some(tree.own)
    else if !tree.alone && place[0] < |tree.bases| then At(tree.bases[place[0]], place[1..])
    else None
  }

  ghost predicate Declares(tree: Tree, place: seq<nat>, kind: Kind, id: string) {
    At(tree, place).Some? && id in Sec(At(tree, place).value.sections, kind)
  }

  ghost predicate DeclaresAs(tree: Tree, place: seq<nat>, kind: Kind, id: string, value: Json) {
    Declares(tree, place, kind, id) && Sec(At(tree, place).value.sections, kind)[id] == value
  }

  /** What merging does to one section. */
  lemma MergedSection(loader: Loader, base: Content, child: Content, kind: Kind, id: string)
    requires Merge(loader, base, child).Some?
    ensures var r, a, b := Sec(Merge(loader, base, child).value.sections, kind), Sec(base.sections, kind),
      Sec(child.sections, kind);
      && (id in r <==> id in a || id in b)
      && (kind != Types ==> !(id in a && id in b))
      && (id in a && id !in b ==> r[id] == a[id]) && (id in b && id !in a ==> r[id] == b[id])
  {
    hide IsSet, DeepMerge;
    assert Compatible(kind, base.sections, child.sections);
  }

  /** An id that is not in the result is declared nowhere in the tree. */
  lemma {:induction false} DeclaredNowhere(loader: Loader, tree: Tree, kind: Kind, id: string, place: seq<nat>)
    requires Merged(loader, tree).Some? && id !in Sec(Merged(loader, tree).value.sections, kind)
    ensures !Declares(tree, place, kind, id)
    decreases tree
  {
    hide Merge;
    if !tree.alone {
      MergedSection(loader, MergedAll(loader, tree.bases).value, tree.own, kind, id);
      if place != [] && place[0] < |tree.bases| {
        NowhereInAny(loader, tree.bases, kind, id, place[0], place[1..]);
      }
    }
  }

  lemma {:induction false} NowhereInAny(loader: Loader, trees: seq<Tree>, kind: Kind, id: string, i: nat,
      place: seq<nat>)
    requires MergedAll(loader, trees).Some? && id !in Sec(MergedAll(loader, trees).value.sections, kind) && i < |trees|
    ensures !Declares(trees[i], place, kind, id)
    decreases trees
  {
    hide Merge;
    var front, last := trees[..|trees| - 1], trees[|trees| - 1];
    MergedSection(loader, MergedAll(loader, front).value, Merged(loader, last).value, kind, id);
    if i < |front| {
      NowhereInAny(loader, front, kind, id, i, place);
    } else {
      DeclaredNowhere(loader, last, kind, id, place);
    }
  }

  /** A binding, capability or hook of the result is declared at one place of the tree, exactly as it is. */
  lemma {:induction false} DeclaredOnce(loader: Loader, tree: Tree, kind: Kind, id: string) returns (place: seq<nat>)
    requires kind != Types && Merged(loader, tree).Some? && id in Sec(Merged(loader, tree).value.sections, kind)
    ensures DeclaresAs(tree, place, kind, id, Sec(Merged(loader, tree).value.sections, kind)[id])
    ensures forall q :: Declares(tree, q, kind, id) ==> q == place
    decreases tree
  {
    hide Merge;
    place := [];
    if !tree.alone {
      var composed := MergedAll(loader, tree.bases).value;
      MergedSection(loader, composed, tree.own, kind, id);
      if id in Sec(tree.own.sections, kind) {
        forall q | Declares(tree, q, kind, id) ensures q == [] {
          if q != [] {
            NowhereInAny(loader, tree.bases, kind, id, q[0], q[1..]);
          }
        }
      } else {
        var i, p := OnceAmong(loader, tree.bases, kind, id);
        place := [i] + p;
        assert place[1..] == p;
        forall q | Declares(tree, q, kind, id) ensures q == place {
          assert q != [] && Declares(tree.bases[q[0]], q[1..], kind, id);
          assert q == [q[0]] + q[1..];
        }
      }
    }
  }

  lemma {:induction false} OnceAmong(loader: Loader, trees: seq<Tree>, kind: Kind, id: string) returns (i: nat,
      place: seq<nat>)
    requires kind != Types && MergedAll(loader, trees).Some? && id in Sec(MergedAll(loader, trees).value.sections, kind)
    ensures i < |trees| && DeclaresAs(trees[i], place, kind, id, Sec(MergedAll(loader, trees).value.sections, kind)[id])
    ensures forall j, q :: 0 <= j < |trees| && Declares(trees[j], q, kind, id) ==> j == i && q == place
    decreases trees
  {
    hide Merge, Declares, DeclaresAs;
    var front, last := trees[..|trees| - 1], trees[|trees| - 1];
    MergedSection(loader, MergedAll(loader, front).value, Merged(loader, last).value, kind, id);
    if id in Sec(Merged(loader, last).value.sections, kind) {
      i := |front|;
      place := DeclaredOnce(loader, last, kind, id);
      forall j, q | 0 <= j < |trees| && Declares(trees[j], q, kind, id) ensures j == i && q == place {
        if j < |front| {
          NowhereInAny(loader, front, kind, id, j, q);
        }
      }
    } else {
      i, place := OnceAmong(loader, front, kind, id);
      forall j, q | 0 <= j < |trees| && Declares(trees[j], q, kind, id) ensures j == i && q == place {
        if j == |front| {
          DeclaredNowhere(loader, last, kind, id, q);
        }
      }
    }
  }

  /** Nothing declared is lost. */
  lemma DeclaredIsResolved(loader: Loader, tree: Tree, kind: Kind, id: string, place: seq<nat>)
    requires Merged(loader, tree).Some? && Declares(tree, place, kind, id)
    ensures id in Sec(Merged(loader, tree).value.sections, kind)
  {
    hide Merged, Declares;
    if id !in Sec(Merged(loader, tree).value.sections, kind) {
      DeclaredNowhere(loader, tree, kind, id, place);
    }
  }

  // ----- Where slots come from -----

  ghost predicate TreeSlotsOk(tree: Tree)
    decreases tree
  {
    SlotsOk(tree.own.slots) && forall i :: 0 <= i < |tree.bases| ==> TreeSlotsOk(tree.bases[i])
  }

  ghost predicate DeclaresSlot(tree: Tree, place: seq<nat>, id: string) {
    At(tree, place).Some? && Has(At(tree, place).value.slots, id)
  }

  /** The tree of files without repeated keys has none. */
  lemma {:induction false} UnfoldedSlotsOk(loader: Loader, manifest: Manifest, dir: string, chain: seq<string>)
    requires FilesOk(loader) && SlotsOk(manifest.content.slots) && Unfolded(loader, manifest, dir, chain).Some?
    ensures TreeSlotsOk(Unfolded(loader, manifest, dir, chain).value)
    decreases Unseen(loader, chain), 2, 0
  {
    hide SlotsOk, Unseen;
    if manifest.bases.Refs? {
      UnfoldedAllSlotsOk(loader, manifest.bases.refs, dir, chain);
    }
  }

  lemma {:induction false} UnfoldedAllSlotsOk(loader: Loader, refs: seq<string>, dir: string, chain: seq<string>)
    requires FilesOk(loader) && UnfoldedAll(loader, refs, dir, chain).Some?
    ensures forall k :: 0 <= k < |UnfoldedAll(loader, refs, dir, chain).value| ==>
      TreeSlotsOk(UnfoldedAll(loader, refs, dir, chain).value[k])
    decreases Unseen(loader, chain), 1, |refs|
  {
    hide SlotsOk, Unseen, TreeSlotsOk;
    if refs != [] {
      var path := loader.join(dir, refs[|refs| - 1]);
      UnfoldedAllSlotsOk(loader, refs[..|refs| - 1], dir, chain);
      ChainGrows(loader, chain, path);
      UnfoldedSlotsOk(loader, loader.files[path].manifest, loader.dirOf(path), chain + [path]);
    }
  }

  lemma MergedSlots(loader: Loader, base: Content, child: Content, id: string)
    requires Merge(loader, base, child).Some? && SlotsOk(base.slots) && SlotsOk(child.slots)
    ensures var r := Merge(loader, base, child).value.slots;
      && SlotsOk(r) && (DistinctIds(base.slots) ==> DistinctIds(r))
      && (Has(r, id) <==> Has(base.slots, id) || Has(child.slots, id))
  {
    hide SlotsAdded, SlotOk, DistinctIds, Has, Compatible, Union;
    SlotsAddedLaw(base.slots, child.slots, id);
  }

  /** The slots of a result have distinct ids, and those of every place of the tree; none is lost. */
  lemma {:induction false} SlotsStandOnce(loader: Loader, tree: Tree, id: string, place: seq<nat>)
    requires Merged(loader, tree).Some? && TreeSlotsOk(tree)
    ensures SlotsOk(Merged(loader, tree).value.slots)
    ensures !tree.alone ==> DistinctIds(Merged(loader, tree).value.slots)
    ensures DeclaresSlot(tree, place, id) ==> Has(Merged(loader, tree).value.slots, id)
    decreases tree
  {
    hide Merge, SlotsOk, DistinctIds, Has;
    if !tree.alone {
      SlotsOfAll(loader, tree.bases, id, if place != [] then place[0] else 0, if place != [] then place[1..] else []);
      MergedSlots(loader, MergedAll(loader, tree.bases).value, tree.own, id);
    }
  }

  lemma {:induction false} SlotsOfAll(loader: Loader, trees: seq<Tree>, id: string, i: nat, place: seq<nat>)
    requires MergedAll(loader, trees).Some? && forall k :: 0 <= k < |trees| ==> TreeSlotsOk(trees[k])
    ensures SlotsOk(MergedAll(loader, trees).value.slots) && DistinctIds(MergedAll(loader, trees).value.slots)
    ensures i < |trees| && DeclaresSlot(trees[i], place, id) ==> Has(MergedAll(loader, trees).value.slots, id)
    decreases trees
  {
    hide Merge, Has, DeclaresSlot, TreeSlotsOk, Merged, SlotOk;
    if trees != [] {
      var front, last := trees[..|trees| - 1], trees[|trees| - 1];
      SlotsOfAll(loader, front, id, i, place);
      SlotsStandOnce(loader, last, id, place);
      MergedSlots(loader, MergedAll(loader, front).value, Merged(loader, last).value, id);
    }
  }

  /** Every slot id of a result stands at some place of the tree. */
  lemma {:induction false} SlotIsDeclared(loader: Loader, tree: Tree, id: string) returns (place: seq<nat>)
    requires Merged(loader, tree).Some? && TreeSlotsOk(tree) && Has(Merged(loader, tree).value.slots, id)
    ensures DeclaresSlot(tree, place, id)
    decreases tree
  {
    hide Merge, SlotsOk, DistinctIds, Has;
    place := [];
    if !tree.alone && !Has(tree.own.slots, id) {
      SlotsOfAll(loader, tree.bases, id, 0, []);
      MergedSlots(loader, MergedAll(loader, tree.bases).value, tree.own, id);
      var i, p := SlotIsAmong(loader, tree.bases, id);
      place := [i] + p;
      assert place[1..] == p;
    }
  }

  lemma {:induction false} SlotIsAmong(loader: Loader, trees: seq<Tree>, id: string) returns (i: nat, place: seq<nat>)
    requires MergedAll(loader, trees).Some? && forall k :: 0 <= k < |trees| ==> TreeSlotsOk(trees[k])
    requires Has(MergedAll(loader, trees).value.slots, id)
    ensures i < |trees| && DeclaresSlot(trees[i], place, id)
    decreases trees
  {
    hide Merge, DeclaresSlot, TreeSlotsOk, Merged, SlotsOk, DistinctIds;
    var front, last := trees[..|trees| - 1], trees[|trees| - 1];
    SlotsOfAll(loader, front, id, 0, []);
    SlotsStandOnce(loader, last, id, []);
    MergedSlots(loader, MergedAll(loader, front).value, Merged(loader, last).value, id);
    if Has(MergedAll(loader, front).value.slots, id) {
      i, place := SlotIsAmong(loader, front, id);
    } else {
      i := |front|;
      place := SlotIsDeclared(loader, last, id);
    }
  }

  // ----- Chains -----

  /** How many bases a chain down the tree takes, at most. */
  ghost function Height(tree: Tree): nat
    decreases tree
  {
    if tree.bases == [] then 0 else 1 + MaxHeight(tree.bases)
  }

  ghost function MaxHeight(trees: seq<Tree>): nat
    decreases trees
  {
    if trees == [] then 0
    else
      var front, last := MaxHeight(trees[..|trees| - 1]), Height(trees[|trees| - 1]);
      if front >= last then front else last
  }

  /** However the files extend each other, no chain of bases is longer than there are files left. */
  lemma {:induction false} ChainsEnd(loader: Loader, manifest: Manifest, dir: string, chain: seq<string>)
    requires Unfolded(loader, manifest, dir, chain).Some?
    ensures Height(Unfolded(loader, manifest, dir, chain).value) <= Unseen(loader, chain)
    decreases Unseen(loader, chain), 2, 0
  {
    hide Unseen;
    if manifest.bases.Refs? && manifest.bases.refs != [] {
      ChainsOfAllEnd(loader, manifest.bases.refs, dir, chain);
    }
  }

  lemma {:induction false} ChainsOfAllEnd(loader: Loader, refs: seq<string>, dir: string, chain: seq<string>)
    requires UnfoldedAll(loader, refs, dir, chain).Some? && refs != []
    ensures 1 + MaxHeight(UnfoldedAll(loader, refs, dir, chain).value) <= Unseen(loader, chain)
    decreases Unseen(loader, chain), 1, |refs|
  {
    hide Unseen;
    var front, last := refs[..|refs| - 1], refs[|refs| - 1];
    var path := loader.join(dir, last);
    ChainGrows(loader, chain, path);
    ChainsEnd(loader, loader.files[path].manifest, loader.dirOf(path), chain + [path]);
    var trees := UnfoldedAll(loader, front, dir, chain).value;
    assert (trees + [UnfoldedRef(loader, last, dir, chain).value])[..|trees|] == trees;
    if front != [] {
      ChainsOfAllEnd(loader, front, dir, chain);
    }
  }
}
