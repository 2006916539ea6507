/**
 Keyed repeats, after crates/xript-tree/src/repeat.rs: which keys a repeat's copies get, and the
 patch that turns the previous render's copies into the next one's.
 */
module RepeatDiff {
  import opened Prelude
  import opened IncreasingSubsequence

  datatype RepeatMode = Keyed | Index | Replace

  /** An evaluated `data-key`. A number is taken by its value, so `-0` and `0` are one key. */
  datatype Key = TextKey(text: string) | NumberKey(value: real) | OtherKey(json: string)

  /** The tagged text a key is compared by (`s:`, `n:` or `x:` and the key's spelling). */
  datatype Token = TextToken(text: string) | NumberToken(value: real) | OtherToken(json: string)

  function TokenOf(key: Key): Token {
    match key
    case TextKey(text) => TextToken(text)
    case NumberKey(value) => NumberToken(value)
    case OtherKey(json) => OtherToken(json)
  }

  datatype KeyProblem = InvalidKey | DuplicateKey
  datatype KeyResolution = KeyResolution(mode: RepeatMode, keys: seq<Key>, problem: Option<KeyProblem>)

  function IndexKeys(count: nat): seq<Key> {
    seq(count, i => NumberKey(i as real))
  }

  /** A key is a string or a number. */
  predicate ValidKey(key: Key) {
    key.TextKey? || key.NumberKey?
  }

  method ResolveRepeatKeys(values: seq<Key>) returns (r: KeyResolution)
    ensures |r.keys| == |values| && Distinct(r.keys) && r.mode != Replace
    ensures r.mode == Keyed <==> (forall i :: 0 <= i < |values| ==> ValidKey(values[i])) && Distinct(values)
    ensures r.keys == if r.mode == Keyed then values else IndexKeys(|values|)
    ensures r.problem == Some(InvalidKey) <==> exists i :: 0 <= i < |values| && !ValidKey(values[i])
    ensures r.problem == None <==> r.mode == Keyed
  {
    var seen: set<Token> := {};
    var duplicate := false;
    for i := 0 to |values|
      invariant forall k :: 0 <= k < i ==> ValidKey(values[k])
      invariant forall t :: t in seen <==> exists k :: 0 <= k < i && TokenOf(values[k]) == t
      invariant duplicate <==> !Distinct(values[..i])
    {
      var value := values[i];
      if !ValidKey(value) {
        return KeyResolution(Index, IndexKeys(|values|), Some(InvalidKey));
      }
      assert values[..i + 1] == values[..i] + [value];
      if TokenOf(value) in seen {
        duplicate := true;
        var k :| 0 <= k < i && TokenOf(values[k]) == TokenOf(value);
        assert TokenOf(values[..i + 1][k]) == TokenOf(values[..i + 1][i]);
      }
      DistinctExtends(values[..i], value);
      seen := seen + {TokenOf(value)};
    }
    assert values[..|values|] == values;
    if duplicate {
      return KeyResolution(Index, IndexKeys(|values|), Some(DuplicateKey));
    }
    return KeyResolution(Keyed, values, None);
  }

  lemma DistinctExtends(keys: seq<Key>, key: Key)
    ensures Distinct(keys + [key]) <==>
            Distinct(keys) && forall k :: 0 <= k < |keys| ==> TokenOf(keys[k]) != TokenOf(key)
  {
    var longer := keys + [key];
    assert forall k :: 0 <= k < |keys| ==> longer[k] == keys[k];
    if Distinct(longer) {
      forall k | 0 <= k < |keys| ensures TokenOf(keys[k]) != TokenOf(key) {
        assert TokenOf(longer[k]) != TokenOf(longer[|keys|]);
      }
      forall i, j | 0 <= i < j < |keys| ensures TokenOf(keys[i]) != TokenOf(keys[j]) {
        assert TokenOf(longer[i]) != TokenOf(longer[j]);
      }
    }
  }

  datatype PatchKind = Remove | Insert | Reuse | Move
  datatype PatchOp = PatchOp(kind: PatchKind, key: Key, from: Option<nat>, to: Option<nat>)

  function Removes(keys: seq<Key>): seq<PatchOp> {
    seq(|keys|, i requires 0 <= i < |keys| => PatchOp(Remove, keys[i], Some(i), None))
  }

  function Inserts(keys: seq<Key>): seq<PatchOp> {
    seq(|keys|, i requires 0 <= i < |keys| => PatchOp(Insert, keys[i], None, Some(i)))
  }

  /** The last position of a token, which is what building the previous index key by key keeps. */
  function LastIndex(keys: seq<Key>, t: Token): (at: Option<nat>)
    ensures at.Some? ==> at.value < |keys| && TokenOf(keys[at.value]) == t
    ensures at.None? ==> forall i :: 0 <= i < |keys| ==> TokenOf(keys[i]) != t
  {
    if keys == [] then None
    else if TokenOf(keys[|keys| - 1]) == t then Some(|keys| - 1)
    else LastIndex(keys[..|keys| - 1], t)
  }

  function Tokens(keys: seq<Key>): set<Token> {
    set i | 0 <= i < |keys| :: TokenOf(keys[i])
  }

  /** The removes among the first `n` previous copies, in previous order. */
  function RemovedOps(prev: seq<Key>, next: seq<Key>, n: nat): seq<PatchOp>
    requires n <= |prev|
  {
    if n == 0 then []
    else
      var rest := RemovedOps(prev, next, n - 1);
      if TokenOf(prev[n - 1]) in Tokens(next) then rest
      else rest + [PatchOp(Remove, prev[n - 1], Some(n - 1), None)]
  }

  /** Where a next copy was before, if it is kept. */
  function FromOf(prev: seq<Key>, next: seq<Key>, to: nat): Option<nat>
    requires to < |next|
  {
    LastIndex(prev, TokenOf(next[to]))
  }

  /** The kept ones among the first `n` next copies. */
  function KeptTo(prev: seq<Key>, next: seq<Key>, n: nat): (kept: seq<nat>)
    requires n <= |next|
    ensures forall k :: 0 <= k < |kept| ==> kept[k] < n && FromOf(prev, next, kept[k]).Some?
  {
    if n == 0 then []
    else if FromOf(prev, next, n - 1).Some? then KeptTo(prev, next, n - 1) + [n - 1]
    else KeptTo(prev, next, n - 1)
  }

  /** Where those copies were before. */
  function KeptFrom(prev: seq<Key>, next: seq<Key>, n: nat): (froms: seq<nat>)
    requires n <= |next|
    ensures |froms| == |KeptTo(prev, next, n)|
    ensures forall k :: 0 <= k < |froms| ==> Some(froms[k]) == FromOf(prev, next, KeptTo(prev, next, n)[k])
  {
    if n == 0 then []
    else if FromOf(prev, next, n - 1).Some? then KeptFrom(prev, next, n - 1) + [FromOf(prev, next, n - 1).value]
    else KeptFrom(prev, next, n - 1)
  }

  function NextOp(prev: seq<Key>, next: seq<Key>, stable: set<nat>, to: nat): PatchOp
    requires to < |next|
  {
    match FromOf(prev, next, to)
    case None => PatchOp(Insert, next[to], None, Some(to))
    case Some(from) => PatchOp(if to in stable then Reuse else Move, next[to], Some(from), Some(to))
  }

  function NextOps(prev: seq<Key>, next: seq<Key>, stable: set<nat>, n: nat): seq<PatchOp>
    requires n <= |next|
  {
    seq(n, to requires 0 <= to < n => NextOp(prev, next, stable, to))
  }

  /** The next positions that a pick of kept copies stands for. */
  ghost function StableOf(kept: seq<nat>, pick: seq<nat>): set<nat> {
    set k | 0 <= k < |pick| && pick[k] < |kept| :: kept[pick[k]]
  }

  ghost function Stable(prev: seq<Key>, next: seq<Key>, pick: seq<nat>): set<nat> {
    StableOf(KeptTo(prev, next, |next|), pick)
  }

  /** The removes, then one op per next copy. */
  ghost predicate PatchShape(prev: seq<Key>, next: seq<Key>, stable: set<nat>, ops: seq<PatchOp>) {
    ops == RemovedOps(prev, next, |prev|) + NextOps(prev, next, stable, |next|)
  }

  /** A patch by key, reusing the longest run of kept copies the procedure settles on. */
  ghost predicate PatchByKey(prev: seq<Key>, next: seq<Key>, rank: seq<nat>, pick: seq<nat>, ops: seq<PatchOp>) {
    && SettledPick(KeptFrom(prev, next, |next|), rank, pick)
    && PatchShape(prev, next, Stable(prev, next, pick), ops)
  }

  method DiffRepeat(previous: Option<(RepeatMode, seq<Key>)>, nextMode: RepeatMode, next: seq<Key>)
    returns (ops: seq<PatchOp>)
    ensures previous.None? ==> ops == Inserts(next)
    ensures previous.Some? && (nextMode == Replace || previous.value.0 != nextMode) ==>
              ops == Removes(previous.value.1) + Inserts(next)
    ensures previous.Some? && nextMode != Replace && previous.value.0 == nextMode ==>
              exists rank, pick :: PatchByKey(previous.value.1, next, rank, pick, ops)
  {
    if previous.None? {
      return Inserts(next);
    }
    var (previousMode, prev) := previous.value;
    if nextMode == Replace || previousMode != nextMode {
      return Removes(prev) + Inserts(next);
    }
    var index := PreviousIndex(prev);
    var removes := RemoveMissing(prev, next);
    var keptTo, keptFrom := CollectKept(prev, next, index);
    var pick := LongestIncreasingSubsequence(keptFrom);
    var stable := set k | 0 <= k < |pick| && pick[k] < |keptTo| :: keptTo[pick[k]];
    var placed := PlaceNext(prev, next, index, stable);
    ops := removes + placed;
    ghost var rank :| SettledPick(keptFrom, rank, pick);
    assert PatchByKey(prev, next, rank, pick, ops);
  }

  /** The previous index holds each token's last position. */
  ghost predicate IndexOf(prev: seq<Key>, index: map<Token, nat>) {
    forall t :: LastIndex(prev, t) == if t in index then Some(index[t]) else None
  }

  method CollectKept(prev: seq<Key>, next: seq<Key>, index: map<Token, nat>)
    returns (keptTo: seq<nat>, keptFrom: seq<nat>)
    requires IndexOf(prev, index)
    ensures keptTo == KeptTo(prev, next, |next|) && keptFrom == KeptFrom(prev, next, |next|)
  {
    keptTo, keptFrom := [], [];
    for to := 0 to |next|
      invariant keptTo == KeptTo(prev, next, to) && keptFrom == KeptFrom(prev, next, to)
    {
      var t := TokenOf(next[to]);
      if t in index {
        keptTo, keptFrom := keptTo + [to], keptFrom + [index[t]];
      }
    }
  }

  method PlaceNext(prev: seq<Key>, next: seq<Key>, index: map<Token, nat>, stable: set<nat>)
    returns (ops: seq<PatchOp>)
    requires IndexOf(prev, index)
    ensures ops == NextOps(prev, next, stable, |next|)
  {
    ops := [];
    for to := 0 to |next|
      invariant ops == NextOps(prev, next, stable, to)
    {
      var t := TokenOf(next[to]);
      if t !in index {
        ops := ops + [PatchOp(Insert, next[to], None, Some(to))];
      } else {
        ops := ops + [PatchOp(if to in stable then Reuse else Move, next[to], Some(index[t]), Some(to))];
      }
    }
  }

  method PreviousIndex(prev: seq<Key>) returns (index: map<Token, nat>)
    ensures IndexOf(prev, index)
  {
    index := map[];
    for from := 0 to |prev|
      invariant IndexOf(prev[..from], index)
    {
      assert prev[..from + 1][..from] == prev[..from];
      index := index[TokenOf(prev[from]) := from];
    }
    assert prev[..|prev|] == prev;
  }

  method RemoveMissing(prev: seq<Key>, next: seq<Key>) returns (ops: seq<PatchOp>)
    ensures ops == RemovedOps(prev, next, |prev|)
  {
    ops := [];
    for from := 0 to |prev|
      invariant ops == RemovedOps(prev, next, from)
    {
      if TokenOf(prev[from]) !in Tokens(next) {
        ops := ops + [PatchOp(Remove, prev[from], Some(from), None)];
      }
    }
  }

  // ----- What a patch by key does to the previous copies -----

  lemma LastIndexOfDistinct(keys: seq<Key>, i: nat)
    requires Distinct(keys) && i < |keys|
    ensures LastIndex(keys, TokenOf(keys[i])) == Some(i)
  {
    var at := LastIndex(keys, TokenOf(keys[i]));
    assert at.Some? && TokenOf(keys[at.value]) == TokenOf(keys[i]);
  }

  /** Exactly one op of the patch takes previous position `from`. */
  ghost predicate TakenOnce(ops: seq<PatchOp>, from: nat) {
    exists k :: TakenAt(ops, from, k) && forall other :: TakenAt(ops, from, other) ==> other == k
  }

  ghost predicate TakenAt(ops: seq<PatchOp>, from: nat, k: int) {
    0 <= k < |ops| && ops[k].from == Some(from)
  }

  lemma {:induction false} RemovedOpsTake(prev: seq<Key>, next: seq<Key>, n: nat)
    requires n <= |prev|
    ensures var ops := RemovedOps(prev, next, n);
      && (forall k :: 0 <= k < |ops| ==>
            ops[k].kind == Remove && ops[k].to == None && ops[k].from.Some? && ops[k].from.value < n
            && ops[k].key == prev[ops[k].from.value] && TokenOf(ops[k].key) !in Tokens(next))
      && (forall j, k :: 0 <= j < k < |ops| ==> ops[j].from.value < ops[k].from.value)
      && (forall from :: 0 <= from < n && TokenOf(prev[from]) !in Tokens(next) ==>
            exists k :: TakenAt(ops, from, k))
  {
    if n > 0 {
      RemovedOpsTake(prev, next, n - 1);
      var rest, ops := RemovedOps(prev, next, n - 1), RemovedOps(prev, next, n);
      forall from | 0 <= from < n && TokenOf(prev[from]) !in Tokens(next)
        ensures exists k :: TakenAt(ops, from, k)
      {
        if from < n - 1 {
          var k :| TakenAt(rest, from, k);
          assert TakenAt(ops, from, k);
        } else {
          assert TakenAt(ops, from, |rest|);
        }
      }
    }
  }

  /** The op of next position `to` sits that far behind the removes. */
  lemma PatchOpAt(prev: seq<Key>, next: seq<Key>, stable: set<nat>, ops: seq<PatchOp>, to: nat)
    requires PatchShape(prev, next, stable, ops) && to < |next|
    ensures |ops| == |RemovedOps(prev, next, |prev|)| + |next|
    ensures ops[|ops| - |next| + to] == NextOp(prev, next, stable, to)
  {
  }

  /** A kept copy's position is named by its own op, a removed one's by its remove, and by no other. */
  lemma PatchTakes(prev: seq<Key>, next: seq<Key>, stable: set<nat>, ops: seq<PatchOp>, from: nat, k: nat)
    requires PatchShape(prev, next, stable, ops) && Distinct(prev) && from < |prev| && k < |ops|
    ensures |ops| >= |next|
    ensures ops[k].from == Some(from) <==>
              if k >= |ops| - |next| then TokenOf(next[k - (|ops| - |next|)]) == TokenOf(prev[from])
              else ops[k].key == prev[from] && TokenOf(prev[from]) !in Tokens(next)
  {
    RemovedOpsTake(prev, next, |prev|);
    LastIndexOfDistinct(prev, from);
    if k >= |ops| - |next| {
      PatchOpAt(prev, next, stable, ops, k - (|ops| - |next|));
    }
  }

  /** Removed and kept positions partition the previous copies. */
  lemma PatchTakesEachOnce(prev: seq<Key>, next: seq<Key>, stable: set<nat>, ops: seq<PatchOp>, from: nat)
    requires PatchShape(prev, next, stable, ops) && Distinct(prev) && Distinct(next) && from < |prev|
    ensures TakenOnce(ops, from)
  {
    var at: nat;
    if TokenOf(prev[from]) in Tokens(next) {
      var to :| 0 <= to < |next| && TokenOf(next[to]) == TokenOf(prev[from]);
      at := |RemovedOps(prev, next, |prev|)| + to;
    } else {
      RemovedOpsTake(prev, next, |prev|);
      at :| TakenAt(RemovedOps(prev, next, |prev|), from, at);
    }
    PatchTakes(prev, next, stable, ops, from, at);
    assert TakenAt(ops, from, at);
    forall other | TakenAt(ops, from, other) ensures other == at {
      PatchTakes(prev, next, stable, ops, from, other);
      if other < |ops| - |next| {
        RemovedOpsTake(prev, next, |prev|);
      }
    }
  }

  /** After the removes, the ops name the next positions 0, 1, 2, ... and carry the next keys. */
  lemma PatchNamesEachNext(prev: seq<Key>, next: seq<Key>, stable: set<nat>, ops: seq<PatchOp>, k: nat)
    requires PatchShape(prev, next, stable, ops) && k < |ops|
    ensures |ops| >= |next|
    ensures var removes := |ops| - |next|;
      if k < removes then ops[k].kind == Remove && ops[k].to == None && ops[k].from.Some?
      else ops[k].kind != Remove && ops[k].to == Some(k - removes) && ops[k].key == next[k - removes]
    ensures ops[k].from.Some? <==> ops[k].kind != Insert
    ensures ops[k].from.Some? ==>
              ops[k].from.value < |prev| && TokenOf(prev[ops[k].from.value]) == TokenOf(ops[k].key)
  {
    RemovedOpsTake(prev, next, |prev|);
    if k >= |ops| - |next| {
      PatchOpAt(prev, next, stable, ops, k - (|ops| - |next|));
    }
  }

  /** A rendered copy: one the host already drew, or one this patch inserted. */
  datatype Copy = Old(from: nat) | Fresh(to: nat)

  /** The copy an op puts at its next position. */
  function Placed(op: PatchOp): Copy
    requires op.to.Some?
  {
    if op.from.Some? then Old(op.from.value) else Fresh(op.to.value)
  }

  /** The positions a host leaves where they are. */
  ghost predicate Stays(ops: seq<PatchOp>, from: nat) {
    exists k :: TakenAt(ops, from, k) && ops[k].kind == Reuse
  }

  /** The first `n` previous copies without those the patch removes or moves. */
  ghost function Undisturbed(ops: seq<PatchOp>, n: nat): seq<nat> {
    if n == 0 then []
    else if Stays(ops, n - 1) then Undisturbed(ops, n - 1) + [n - 1]
    else Undisturbed(ops, n - 1)
  }

  /** Puts the inserted and moved copies in, each at its next position, first to last. */
  ghost function PutIn(copies: seq<Copy>, ops: seq<PatchOp>): seq<Copy>
    decreases |ops|
  {
    if ops == [] then copies
    else
      var op := ops[0];
      var after :=
        if op.kind in {Insert, Move} && op.to.Some? && op.to.value <= |copies|
        then copies[..op.to.value] + [Placed(op)] + copies[op.to.value..]
        else copies;
      PutIn(after, ops[1..])
  }

  /** A host applying a patch: it takes out what is removed or moved, then puts in what is new or moved. */
  ghost function ApplyPatch(count: nat, ops: seq<PatchOp>): seq<Copy> {
    PutIn(AsOld(Undisturbed(ops, count)), ops)
  }

  ghost function AsOld(froms: seq<nat>): seq<Copy> {
    seq(|froms|, i requires 0 <= i < |froms| => Old(froms[i]))
  }

  ghost predicate Ascending(s: seq<nat>) {
    forall i, j :: 0 <= i < j < |s| ==> s[i] < s[j]
  }

  lemma {:induction false} SameAscending(a: seq<nat>, b: seq<nat>)
    requires Ascending(a) && Ascending(b) && forall x :: x in a <==> x in b
    ensures a == b
    decreases |a|
  {
    if a == [] {
      assert forall k :: 0 <= k < |b| ==> b[k] in b;
    } else {
      assert a[0] in b;
      var x, y := a[|a| - 1], b[|b| - 1];
      assert x in b && y in a;
      assert x == y;
      var a', b' := a[..|a| - 1], b[..|b| - 1];
      forall z ensures z in a' <==> z in b' {
        assert z in a' <==> z in a && z != x;
        assert z in b' <==> z in b && z != y;
      }
      SameAscending(a', b');
      assert a == a' + [x] && b == b' + [y];
    }
  }

  lemma {:induction false} KeptToAscends(prev: seq<Key>, next: seq<Key>, n: nat)
    requires n <= |next|
    ensures Ascending(KeptTo(prev, next, n))
    ensures forall to :: 0 <= to < n && FromOf(prev, next, to).Some? ==> to in KeptTo(prev, next, n)
  {
    if n > 0 {
      KeptToAscends(prev, next, n - 1);
    }
  }

  /** Reused copies come from ascending previous positions. */
  lemma ReusedKeepOrder(prev: seq<Key>, next: seq<Key>, rank: seq<nat>, pick: seq<nat>, a: nat, b: nat)
    requires SettledPick(KeptFrom(prev, next, |next|), rank, pick)
    requires a < b < |next| && a in Stable(prev, next, pick) && b in Stable(prev, next, pick)
    ensures FromOf(prev, next, a).Some? && FromOf(prev, next, b).Some?
    ensures FromOf(prev, next, a).value < FromOf(prev, next, b).value
  {
    KeptToAscends(prev, next, |next|);
    var kept, froms := KeptTo(prev, next, |next|), KeptFrom(prev, next, |next|);
    var i :| 0 <= i < |pick| && pick[i] < |kept| && a == kept[pick[i]];
    var j :| 0 <= j < |pick| && pick[j] < |kept| && b == kept[pick[j]];
    assert i < j;
    assert froms[pick[i]] < froms[pick[j]];
  }

  /** The previous positions reused from next position `to` on. */
  ghost function ReusedFrom(ops: seq<PatchOp>, to: nat): seq<nat>
    requires to <= |ops|
    decreases |ops| - to
  {
    if to == |ops| then []
    else if ops[to].kind == Reuse && ops[to].from.Some? then [ops[to].from.value] + ReusedFrom(ops, to + 1)
    else ReusedFrom(ops, to + 1)
  }

  ghost predicate ReusedAt(ops: seq<PatchOp>, from: nat, k: int) {
    0 <= k < |ops| && ops[k].kind == Reuse && ops[k].from == Some(from)
  }

  ghost predicate ReusesAscend(ops: seq<PatchOp>) {
    forall j, k, x, y :: ReusedAt(ops, x, j) && ReusedAt(ops, y, k) && j < k ==> x < y
  }

  lemma {:induction false} ReusedFromMeans(ops: seq<PatchOp>, to: nat)
    requires to <= |ops|
    requires ReusesAscend(ops)
    ensures forall x :: x in ReusedFrom(ops, to) <==> exists k :: to <= k && ReusedAt(ops, x, k)
    ensures Ascending(ReusedFrom(ops, to))
    decreases |ops| - to
  {
    if to < |ops| {
      ReusedFromMeans(ops, to + 1);
      var tail := ReusedFrom(ops, to + 1);
      forall x ensures x in ReusedFrom(ops, to) <==> exists k :: to <= k && ReusedAt(ops, x, k) {
        if x in tail {
          var k :| to + 1 <= k && ReusedAt(ops, x, k);
          assert to <= k && ReusedAt(ops, x, k);
        } else if x in ReusedFrom(ops, to) {
          assert ReusedAt(ops, x, to);
        }
      }
      if ops[to].kind == Reuse && ops[to].from.Some? {
        assert ReusedAt(ops, ops[to].from.value, to);
        forall y | y in tail ensures ops[to].from.value < y {
          var k :| to + 1 <= k && ReusedAt(ops, y, k);
        }
        assert forall k :: 0 <= k < |tail| ==> tail[k] in tail;
      }
    }
  }

  lemma {:induction false} UndisturbedMeans(ops: seq<PatchOp>, n: nat)
    ensures Ascending(Undisturbed(ops, n))
    ensures forall x: nat :: x in Undisturbed(ops, n) <==> x < n && Stays(ops, x)
  {
    if n > 0 {
      UndisturbedMeans(ops, n - 1);
      var before := Undisturbed(ops, n - 1);
      assert forall k :: 0 <= k < |before| ==> before[k] in before;
    }
  }

  /** Ops in the form a patch gives the next copies: one per position, in order. */
  ghost predicate Orderly(ops: seq<PatchOp>) {
    forall k :: 0 <= k < |ops| ==>
      ops[k].kind != Remove && ops[k].to == Some(k) && (ops[k].from.Some? <==> ops[k].kind != Insert)
  }

  ghost function Assembled(ops: seq<PatchOp>): seq<Copy>
    requires Orderly(ops)
  {
    seq(|ops|, k requires 0 <= k < |ops| => Placed(ops[k]))
  }

  lemma {:induction false} PutInAssembles(ops: seq<PatchOp>, to: nat, copies: seq<Copy>)
    requires Orderly(ops) && to <= |ops|
    requires copies == Assembled(ops)[..to] + AsOld(ReusedFrom(ops, to))
    ensures PutIn(copies, ops[to..]) == Assembled(ops)
    decreases |ops| - to
  {
    if to < |ops| {
      var op := ops[to];
      var before, rest := Assembled(ops)[..to], AsOld(ReusedFrom(ops, to + 1));
      assert ops[to..][0] == op && ops[to..][1..] == ops[to + 1..];
      assert Assembled(ops)[..to + 1] == before + [Placed(op)];
      if op.kind == Reuse {
        assert AsOld(ReusedFrom(ops, to)) == [Placed(op)] + rest;
        assert copies == Assembled(ops)[..to + 1] + rest;
        PutInAssembles(ops, to + 1, copies);
      } else {
        assert copies[..to] == before && copies[to..] == rest;
        PutInAssembles(ops, to + 1, before + [Placed(op)] + rest);
      }
    }
  }

  lemma {:induction false} PutInSkipsRemoves(copies: seq<Copy>, ops: seq<PatchOp>, r: nat)
    requires r <= |ops| && forall k :: 0 <= k < r ==> ops[k].kind == Remove
    ensures PutIn(copies, ops) == PutIn(copies, ops[r..])
    decreases r
  {
    if r > 0 {
      PutInSkipsRemoves(copies, ops[1..], r - 1);
      assert ops[1..][r - 1..] == ops[r..];
    }
  }

  /** The reuses of the whole patch are those of its next ops. */
  lemma StaysWhereReused(prev: seq<Key>, next: seq<Key>, stable: set<nat>, ops: seq<PatchOp>, x: nat)
    requires PatchShape(prev, next, stable, ops)
    ensures x < |prev| && Stays(ops, x) <==> exists k :: ReusedAt(NextOps(prev, next, stable, |next|), x, k)
  {
    var tail := NextOps(prev, next, stable, |next|);
    var r := |ops| - |next|;
    if k :| ReusedAt(tail, x, k) {
      PatchNamesEachNext(prev, next, stable, ops, r + k);
      assert TakenAt(ops, x, r + k);
    }
    if x < |prev| && Stays(ops, x) {
      var k :| TakenAt(ops, x, k) && ops[k].kind == Reuse;
      PatchNamesEachNext(prev, next, stable, ops, k);
      assert ReusedAt(tail, x, k - r);
    }
  }

  lemma ReusedMatchUndisturbed(prev: seq<Key>, next: seq<Key>, stable: set<nat>, ops: seq<PatchOp>)
    requires PatchShape(prev, next, stable, ops)
    requires ReusesAscend(NextOps(prev, next, stable, |next|))
    ensures ReusedFrom(NextOps(prev, next, stable, |next|), 0) == Undisturbed(ops, |prev|)
  {
    var reused := ReusedFrom(NextOps(prev, next, stable, |next|), 0);
    ReusedFromMeans(NextOps(prev, next, stable, |next|), 0);
    UndisturbedMeans(ops, |prev|);
    forall x: nat ensures x in reused <==> x in Undisturbed(ops, |prev|) {
      StaysWhereReused(prev, next, stable, ops, x);
    }
    SameAscending(reused, Undisturbed(ops, |prev|));
  }

  lemma NextOpsOrderly(prev: seq<Key>, next: seq<Key>, stable: set<nat>)
    ensures Orderly(NextOps(prev, next, stable, |next|))
  {
  }

  /** Applying the patch assembles exactly the copies its next ops name. */
  lemma PatchAssembles(prev: seq<Key>, next: seq<Key>, rank: seq<nat>, pick: seq<nat>, ops: seq<PatchOp>)
    requires PatchByKey(prev, next, rank, pick, ops)
    ensures Orderly(NextOps(prev, next, Stable(prev, next, pick), |next|))
    ensures ApplyPatch(|prev|, ops) == Assembled(NextOps(prev, next, Stable(prev, next, pick), |next|))
  {
    var stable := Stable(prev, next, pick);
    var tail := NextOps(prev, next, stable, |next|);
    NextOpsOrderly(prev, next, stable);
    forall j, k, x, y | ReusedAt(tail, x, j) && ReusedAt(tail, y, k) && j < k ensures x < y {
      ReusedKeepOrder(prev, next, rank, pick, j, k);
    }
    ReusedMatchUndisturbed(prev, next, stable, ops);
    var start := AsOld(Undisturbed(ops, |prev|));
    var r := |ops| - |next|;
    forall k | 0 <= k < r ensures ops[k].kind == Remove {
      PatchNamesEachNext(prev, next, stable, ops, k);
    }
    PutInSkipsRemoves(start, ops, r);
    assert ops[r..] == tail == tail[0..];
    PutInAssembles(tail, 0, start);
  }

  /** Applying the patch leaves one copy per next key, in order: kept copies with that key, fresh ones for the rest. */
  lemma PatchRebuildsNext(prev: seq<Key>, next: seq<Key>, rank: seq<nat>, pick: seq<nat>, ops: seq<PatchOp>)
    requires PatchByKey(prev, next, rank, pick, ops)
    ensures var copies := ApplyPatch(|prev|, ops);
      && |copies| == |next|
      && forall to :: 0 <= to < |next| ==>
           match copies[to]
           case Old(from) => from < |prev| && TokenOf(prev[from]) == TokenOf(next[to])
           case Fresh(at) => at == to && TokenOf(next[to]) !in Tokens(prev)
  {
    PatchAssembles(prev, next, rank, pick, ops);
  }

  /** Next positions, ascending, of kept copies whose previous positions ascend too. */
  ghost predicate LeftInOrder(prev: seq<Key>, next: seq<Key>, still: seq<nat>) {
    && (forall k :: 0 <= k < |still| ==> still[k] < |next| && FromOf(prev, next, still[k]).Some?)
    && forall j, k :: 0 <= j < k < |still| ==>
         still[j] < still[k] && FromOf(prev, next, still[j]).value < FromOf(prev, next, still[k]).value
  }

  /** No patch that leaves its unmoved copies in relative order moves fewer of them. */
  lemma PatchMovesFewest(prev: seq<Key>, next: seq<Key>, rank: seq<nat>, pick: seq<nat>, ops: seq<PatchOp>,
      still: seq<nat>)
    requires PatchByKey(prev, next, rank, pick, ops) && LeftInOrder(prev, next, still)
    ensures |still| <= |set k | 0 <= k < |ops| && ops[k].kind == Reuse|
  {
    var kept, froms := KeptTo(prev, next, |next|), KeptFrom(prev, next, |next|);
    KeptToAscends(prev, next, |next|);
    var other := IndicesIn(kept, still);
    forall j, k | 0 <= j < k < |other| ensures other[j] < other[k] && froms[other[j]] < froms[other[k]] {
      assert kept[other[j]] == still[j] && kept[other[k]] == still[k];
    }
    SettledPickIsLongest(froms, rank, pick, other);
    var r := |ops| - |next|;
    var reused := set k | 0 <= k < |ops| && ops[k].kind == Reuse;
    var stable := Stable(prev, next, pick);
    forall k | 0 <= k < |pick| ensures r + kept[pick[k]] in reused {
      PatchOpAt(prev, next, stable, ops, kept[pick[k]]);
      assert kept[pick[k]] in stable;
    }
    DistinctImages(pick, kept, r, reused);
  }

  lemma {:induction false} IndicesIn(kept: seq<nat>, still: seq<nat>) returns (at: seq<nat>)
    requires forall k :: 0 <= k < |still| ==> still[k] in kept
    ensures |at| == |still| && forall k :: 0 <= k < |at| ==> at[k] < |kept| && kept[at[k]] == still[k]
    decreases |still|
  {
    if still == [] {
      at := [];
    } else {
      var front := IndicesIn(kept, still[..|still| - 1]);
      var i :| 0 <= i < |kept| && kept[i] == still[|still| - 1];
      at := front + [i];
    }
  }

  lemma {:induction false} DistinctImages(pick: seq<nat>, kept: seq<nat>, r: int, images: set<int>)
    requires Ascending(pick) && Ascending(kept) && forall k :: 0 <= k < |pick| ==> pick[k] < |kept|
    requires forall k :: 0 <= k < |pick| ==> r + kept[pick[k]] in images
    ensures |pick| <= |images|
    decreases |pick|
  {
    if pick != [] {
      var last := r + kept[pick[|pick| - 1]];
      DistinctImages(pick[..|pick| - 1], kept, r, images - {last});
    }
  }
}
