/**
 What a deep merge of runtimes/js/src/extends.ts holds, path by path, and when the `refines` markers of
 the child are all gone from it.
 */
module MergePaths {
  import opened Prelude
  import opened Manifests

  type Path = seq<string>

  const MARKER := "refines"

  /** The value a path of keys leads to. */
  function At(value: Json, path: Path): Option<Json>
    decreases |path|
  {
    if path == [] then Some(value)
    else if !value.Obj? then None
    else match Get(value.fields, path[0]) case None => None case Some(inner) => At(inner, path[1..])
  }

  function Overlaid(base: Json, child: Json): Json
    requires base.Obj? && child.Obj?
  {
    Obj(DeepMerge(base.fields, base.fields, child.fields))
  }

  ghost predicate ObjectAt(value: Json, path: Path) { At(value, path).Some? && At(value, path).value.Obj? }

  /** Base and child both have an object there, and no marker leads to it. */
  ghost predicate Meet(base: Json, child: Json, path: Path) {
    ObjectAt(base, path) && ObjectAt(child, path) && MARKER !in path
  }

  /** `k` is how far down the path base and child meet. */
  ghost predicate PartAfter(base: Json, child: Json, path: Path, k: nat) {
    k < |path| && Meet(base, child, path[..k]) && !Meet(base, child, path[..k + 1])
  }

  lemma {:induction false} MeetBefore(base: Json, child: Json, path: Path, k: nat)
    requires Meet(base, child, path) && k <= |path|
    ensures Meet(base, child, path[..k])
  {
    ObjectBefore(base, path, k);
    ObjectBefore(child, path, k);
  }

  lemma {:induction false} ObjectBefore(value: Json, path: Path, k: nat)
    requires ObjectAt(value, path) && k <= |path|
    ensures ObjectAt(value, path[..k])
    decreases k
  {
    if k > 0 {
      ObjectBefore(Get(value.fields, path[0]).value, path[1..], k - 1);
      assert path[..k][1..] == path[1..][..k - 1];
    }
  }

  /** Every path meets to its end, or parts somewhere. */
  lemma {:induction false} MeetsOrParts(base: Json, child: Json, path: Path) returns (k: nat)
    requires base.Obj? && child.Obj? && !Meet(base, child, path)
    ensures PartAfter(base, child, path, k)
    decreases |path|
  {
    var front := path[..|path| - 1];
    if Meet(base, child, front) {
      k := |path| - 1;
      assert path[..k + 1] == path;
    } else {
      k := MeetsOrParts(base, child, front);
      assert front[..k] == path[..k] && front[..k + 1] == path[..k + 1];
    }
  }

  /** One key down. */
  lemma MeetBelow(base: Json, child: Json, path: Path)
    requires base.Obj? && child.Obj? && path != [] && path[0] != MARKER
    requires ObjectAt(base, path[..1]) && ObjectAt(child, path[..1])
    ensures var b, c := Get(base.fields, path[0]), Get(child.fields, path[0]);
      && b.Some? && b.value.Obj? && c.Some? && c.value.Obj?
      && (Meet(base, child, path) <==> Meet(b.value, c.value, path[1..]))
  {
    OneKey(base, path[0]);
    OneKey(child, path[0]);
    assert path[..1] == [path[0]];
    assert path == [path[0]] + path[1..];
  }

  lemma OneKey(value: Json, key: string)
    requires value.Obj?
    ensures At(value, [key]) == Get(value.fields, key)
  {
    assert [key][1..] == [];
  }

  lemma OverlaidKey(base: Json, child: Json, key: string)
    requires base.Obj? && child.Obj? && DistinctFields(child.fields)
    ensures Get(Overlaid(base, child).fields, key) ==
      match Get(child.fields, key)
      case None => Get(base.fields, key)
      case Some(value) =>
        if key == MARKER then Get(base.fields, key)
        else if Get(base.fields, key).Some? && Get(base.fields, key).value.Obj? && value.Obj?
        then Some(Overlaid(Get(base.fields, key).value, value))
        else Some(value)
  {
    hide DeepMerge;
    DeepMergeLaw(base.fields, base.fields, child.fields, key);
  }

  /** Where base and child meet, so does the merge. */
  lemma {:induction false} OverlaidMeets(base: Json, child: Json, path: Path)
    requires base.Obj? && child.Obj? && DistinctFields(child.fields) && Meet(base, child, path)
    ensures ObjectAt(Overlaid(base, child), path)
    decreases |path|
  {
    hide Overlaid, Meet, DistinctFields;
    if path != [] {
      MeetBefore(base, child, path, 1);
      MeetsAt(base, child, path[..1]);
      NoMarker(base, child, path);
      MeetBelow(base, child, path);
      OverlaidKey(base, child, path[0]);
      FieldIsDistinct(child.fields, path[0]);
      OverlaidMeets(Get(base.fields, path[0]).value, Get(child.fields, path[0]).value, path[1..]);
    }
    OverlaidIsObject(base, child);
  }

  lemma OverlaidIsObject(base: Json, child: Json)
    requires base.Obj? && child.Obj?
    ensures Overlaid(base, child).Obj?
  {
  }

  lemma MeetsAt(base: Json, child: Json, path: Path)
    requires Meet(base, child, path)
    ensures ObjectAt(base, path) && ObjectAt(child, path)
  {
  }

  lemma NoMarker(base: Json, child: Json, path: Path)
    requires Meet(base, child, path) && path != []
    ensures path[0] != MARKER
  {
    assert path[0] in path;
  }

  /** Below the place where they part: what the child has there, unless it has nothing or only its marker. */
  ghost function HeldAt(base: Json, child: Json, path: Path, k: nat): Option<Json>
    requires k < |path|
  {
    if path[k] == MARKER || At(child, path[..k + 1]).None? then At(base, path) else At(child, path)
  }

  /**
   Below the place where they part a merge holds what the child has there, and the base's value where
   the child has nothing or only its marker.
   */
  lemma {:induction false} OverlaidParts(base: Json, child: Json, path: Path, k: nat)
    requires base.Obj? && child.Obj? && DistinctFields(child.fields) && PartAfter(base, child, path, k)
    ensures At(Overlaid(base, child), path) == HeldAt(base, child, path, k)
    decreases |path|
  {
    hide Overlaid, Meet, DistinctFields;
    OverlaidKey(base, child, path[0]);
    OverlaidIsObject(base, child);
    if k == 0 {
      PartsAtOnce(base, child, path);
    } else {
      var b, c := Get(base.fields, path[0]), Get(child.fields, path[0]);
      MeetBefore(base, child, path[..k], 1);
      assert path[..k][..1] == path[..1];
      MeetsAt(base, child, path[..1]);
      NoMarker(base, child, path[..k]);
      MeetBelow(base, child, path[..k]);
      MeetBelow(base, child, path[..k + 1]);
      FieldIsDistinct(child.fields, path[0]);
      Tails(path, k);
      OverlaidParts(b.value, c.value, path[1..], k - 1);
    }
  }

  lemma Tails(path: Path, k: nat)
    requires 0 < k < |path|
    ensures path[..k][1..] == path[1..][..k - 1] && path[..k + 1][1..] == path[1..][..k]
    ensures path[..k + 1][..1] == path[..1] == path[..k][..1]
    ensures path[..k][0] == path[0] == path[..k + 1][0]
  {
  }

  lemma PartsAtOnce(base: Json, child: Json, path: Path)
    requires base.Obj? && child.Obj? && PartAfter(base, child, path, 0)
    ensures At(child, path[..1]) == Get(child.fields, path[0])
    ensures path[0] == MARKER || !(ObjectAt(base, path[..1]) && ObjectAt(child, path[..1]))
    ensures At(base, path[..1]) == Get(base.fields, path[0])
  {
    assert path[..1] == [path[0]];
    OneKey(base, path[0]);
    OneKey(child, path[0]);
  }

  // ----- Types declared on both sides -----

  ghost predicate TrueAt(value: Json, key: string) { At(value, [key]) == Some(Atom("true")) }

  /** The child's type stands as it is over an abstract one, and is laid over one that it refines. */
  ghost predicate StandsOver(base: Json, child: Json, r: Json) {
    if TrueAt(base, "abstract") then r == child
    else base.Obj? && child.Obj? && (forall path :: Meet(base, child, path) ==> ObjectAt(r, path))
         && forall path, k :: PartAfter(base, child, path, k) ==> At(r, path) == HeldAt(base, child, path, k)
  }

  /** Only types may be declared on both sides, over an abstract one or to refine one, and what then stands. */
  lemma CollidesByPaths(kind: Kind, base: Json, child: Json)
    requires child.Obj? ==> DistinctFields(child.fields)
    ensures var r := Collide(kind, base, child);
      && (r.Some? <==> kind == Types && base.Obj? && child.Obj? && (TrueAt(base, "abstract") || TrueAt(child, MARKER)))
      && (r.Some? ==> StandsOver(base, child, r.value))
  {
    hide DeepMerge, DistinctFields, Meet, ObjectAt;
    if base.Obj? && child.Obj? {
      OneKey(base, "abstract");
      OneKey(child, MARKER);
      forall path | Meet(base, child, path) ensures ObjectAt(Overlaid(base, child), path) {
        OverlaidMeets(base, child, path);
      }
      forall path, k | PartAfter(base, child, path, k)
        ensures At(Overlaid(base, child), path) == HeldAt(base, child, path, k)
      {
        OverlaidParts(base, child, path, k);
      }
    }
  }

  // ----- The markers -----

  ghost predicate HasMarker(value: Json, path: Path) { MARKER !in path && At(value, path + [MARKER]).Some? }

  ghost predicate Unmarked(value: Json) { forall path :: !HasMarker(value, path) }

  /** Every object of the child that carries a marker lies over an object of the base. */
  ghost predicate MarkersMeet(base: Json, child: Json) {
    forall path :: HasMarker(child, path) ==> Meet(base, child, path)
  }

  lemma {:induction false} AtPrefix(value: Json, path: Path, k: nat)
    requires k <= |path| && At(value, path).Some?
    ensures At(value, path[..k]).Some?
    decreases k
  {
    if k > 0 {
      AtPrefix(Get(value.fields, path[0]).value, path[1..], k - 1);
      assert path[..k][1..] == path[1..][..k - 1];
    }
  }

  lemma {:induction false} MarkerMeans(value: Json, path: Path)
    requires At(value, path + [MARKER]).Some?
    ensures ObjectAt(value, path)
    decreases |path|
  {
    if path == [] {
      assert path + [MARKER] == [MARKER];
    } else {
      assert (path + [MARKER])[1..] == path[1..] + [MARKER];
      MarkerMeans(Get(value.fields, path[0]).value, path[1..]);
    }
  }

  /** A marker under a place where base and child have parted is there exactly when its own side has it. */
  lemma MarkerBelowParting(base: Json, child: Json, path: Path, k: nat)
    requires base.Obj? && child.Obj? && DistinctFields(child.fields) && MARKER !in path
    requires PartAfter(base, child, path, k)
    ensures At(Overlaid(base, child), path + [MARKER])
         == if At(child, path[..k + 1]).None? then At(base, path + [MARKER]) else At(child, path + [MARKER])
  {
    hide Overlaid, Meet, At, DistinctFields;
    var p := path + [MARKER];
    assert p[..k] == path[..k] && p[..k + 1] == path[..k + 1] && p[k] == path[k];
    assert path[k] in path;
    OverlaidParts(base, child, p, k);
  }

  lemma MarkerWhereTheyMeet(base: Json, child: Json, path: Path)
    requires base.Obj? && child.Obj? && DistinctFields(child.fields) && Meet(base, child, path)
    ensures At(Overlaid(base, child), path + [MARKER]) == At(base, path + [MARKER])
  {
    hide Overlaid, At, DistinctFields, ObjectAt;
    var p := path + [MARKER];
    assert p[..|path|] == path && p[..|path| + 1] == p && p[|path|] == MARKER && MARKER in p;
    OverlaidParts(base, child, p, |path|);
  }

  /** A merge onto a base without markers has none exactly when each of the child's lies over an object of the base. */
  lemma MarkersAreConsumed(base: Json, child: Json)
    requires base.Obj? && child.Obj? && DistinctFields(child.fields) && Unmarked(base)
    ensures Unmarked(Overlaid(base, child)) <==> MarkersMeet(base, child)
  {
    hide Overlaid, At, Meet, DistinctFields;
    if MarkersMeet(base, child) {
      forall path ensures !HasMarker(Overlaid(base, child), path) {
        assert !HasMarker(base, path);
        if MARKER !in path && Meet(base, child, path) {
          MarkerWhereTheyMeet(base, child, path);
        } else if MARKER !in path {
          var k := MeetsOrParts(base, child, path);
          MarkerBelowParting(base, child, path, k);
        }
      }
    } else {
      var path :| HasMarker(child, path) && !Meet(base, child, path);
      var k := MeetsOrParts(base, child, path);
      MarkerBelowParting(base, child, path, k);
      AtPrefix(child, path + [MARKER], k + 1);
      assert (path + [MARKER])[..k + 1] == path[..k + 1];
      assert HasMarker(Overlaid(base, child), path);
    }
  }

  const PLAIN := Obj(Field("a", Atom("1"), NoField))
  const MARKED := Obj(Field("a", Obj(Field(MARKER, Atom("true"), NoField)), Field(MARKER, Atom("true"), NoField)))

  lemma PlainIsUnmarked(path: Path)
    ensures At(PLAIN, path + [MARKER]).None?
  {
    var p := path + [MARKER];
    if path == [] {
      OneKey(PLAIN, MARKER);
      assert p == [MARKER];
    } else {
      assert p[0] == path[0] && p[1..] == path[1..] + [MARKER];
      assert Get(NoField, path[0]) == None;
      assert Get(PLAIN.fields, path[0]) == if path[0] == "a" then Some(Atom("1")) else None;
      assert At(Atom("1"), p[1..]) == None;
    }
  }

  /** So a marker inside a value that replaces a scalar does reach the resolved manifest. */
  lemma MarkerSurvives()
    ensures Unmarked(PLAIN) && !Unmarked(Overlaid(PLAIN, MARKED))
  {
    forall path ensures !HasMarker(PLAIN, path) {
      PlainIsUnmarked(path);
    }
    OneKey(MARKED, "a");
    OneKey(PLAIN, "a");
    OneKey(Get(MARKED.fields, "a").value, MARKER);
    assert (["a"] + [MARKER])[1..] == [MARKER];
    assert HasMarker(MARKED, ["a"]) && !Meet(PLAIN, MARKED, ["a"]);
    MarkersAreConsumed(PLAIN, MARKED);
  }
}
