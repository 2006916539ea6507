/**
 What a run of several workers answers (runtimes/js/src/event-bus-kernel.ts): who owns a namespace, whose
 declaration stands, what a cancellation reports, and in which order an event's subscribers are listed.
 */
module BusAnswers {
  import opened Prelude
  import opened EventBus
  import opened BusRuns

  /** The state right before the `k`-th committed change of a run. */
  ghost function StateAt(log: seq<Change>, k: nat): State
    requires k <= |log| && Replay(log).Some?
  {
    ReplayGrows(log, k);
    Replay(log[..k]).value
  }

  lemma LogReplays(steps: seq<Step>)
    ensures Replay(Run(steps).log) == Some(Run(steps).state)
    ensures StateAt(Run(steps).log, |Run(steps).log|) == Run(steps).state
  {
    hide Run, Replay, Exact;
    StatesAreSequential(steps);
    assert Run(steps).log[..|Run(steps).log|] == Run(steps).log;
  }

  lemma Stepped(log: seq<Change>, k: nat)
    requires k < |log| && Replay(log).Some?
    ensures Apply(log[k], StateAt(log, k)).Changed? && Exact(StateAt(log, k))
    ensures StateAt(log, k + 1) == Apply(log[k], StateAt(log, k)).state
  {
    hide Replay, Apply, Exact;
    ReplayStep(log, k);
  }

  // ----- Namespaces -----

  ghost predicate ClaimsPrefix(change: Change, prefix: string) { change.Claim? && change.prefix == prefix }

  /** The `k`-th committed change is the first to claim the prefix. */
  ghost predicate FirstToClaim(log: seq<Change>, prefix: string, k: nat) {
    k < |log| && ClaimsPrefix(log[k], prefix) && forall j :: 0 <= j < k ==> !ClaimsPrefix(log[j], prefix)
  }

  lemma {:induction false} FindClaimOfSum(a: seq<NamespaceClaim>, b: NamespaceClaim, prefix: string)
    ensures FindClaim(a + [b], prefix)
         == if FindClaim(a, prefix).Some? then FindClaim(a, prefix) else FindClaim([b], prefix)
  {
    if a == [] {
      assert a + [b] == [b];
    } else {
      assert (a + [b])[1..] == a[1..] + [b];
      FindClaimOfSum(a[1..], b, prefix);
    }
  }

  /** A change moves a prefix only by claiming it while it is free. */
  lemma ClaimStep(change: Change, s: State, prefix: string)
    requires Apply(change, s).Changed?
    ensures FindClaim(Apply(change, s).state.claims, prefix)
         == if FindClaim(s.claims, prefix).None? && ClaimsPrefix(change, prefix)
            then Some(NamespaceClaim(prefix, change.claimant)) else FindClaim(s.claims, prefix)
  {
    hide Without, TokenOf, FindDeclared, FromManifest;
    if change.Claim? {
      assert [NamespaceClaim(change.prefix, change.claimant)][1..] == [];
      FindClaimOfSum(s.claims, NamespaceClaim(change.prefix, change.claimant), prefix);
    }
  }

  ghost predicate OwnedByFirst(log: seq<Change>, n: nat, prefix: string)
    requires n <= |log| && Replay(log).Some?
  {
    match FindClaim(StateAt(log, n).claims, prefix)
    case None => forall k :: 0 <= k < n ==> !ClaimsPrefix(log[k], prefix)
    case Some(c) =>
      exists k :: 0 <= k < n && FirstToClaim(log, prefix, k) && c == NamespaceClaim(prefix, log[k].claimant)
  }

  lemma {:induction false} OwnersAreFirst(log: seq<Change>, n: nat, prefix: string)
    requires n <= |log| && Replay(log).Some?
    ensures OwnedByFirst(log, n, prefix)
  {
    hide Apply, Exact;
    if n == 0 {
      assert log[..0] == [];
    } else {
      OwnersAreFirst(log, n - 1, prefix);
      Stepped(log, n - 1);
      ClaimStep(log[n - 1], StateAt(log, n - 1), prefix);
      if FindClaim(StateAt(log, n - 1).claims, prefix).None? && ClaimsPrefix(log[n - 1], prefix) {
        assert FirstToClaim(log, prefix, n - 1);
      }
    }
  }

  /** After any run a prefix belongs to whoever committed the first claim of it, or to nobody if none did. */
  lemma PrefixBelongsToFirst(steps: seq<Step>, prefix: string)
    ensures var log := Run(steps).log;
      match FindClaim(Run(steps).state.claims, prefix)
      case None => forall k :: 0 <= k < |log| ==> !ClaimsPrefix(log[k], prefix)
      case Some(c) => exists k: nat :: FirstToClaim(log, prefix, k) && c == NamespaceClaim(prefix, log[k].claimant)
  {
    hide Run, Replay;
    LogReplays(steps);
    OwnersAreFirst(Run(steps).log, |Run(steps).log|, prefix);
  }

  /** A claim is granted exactly when no other claimant came first. */
  lemma ClaimIsAnswered(steps: seq<Step>, k: nat, first: nat)
    requires k < |Run(steps).log| && Run(steps).log[k].Claim?
    requires FirstToClaim(Run(steps).log, Run(steps).log[k].prefix, first)
    ensures Replay(Run(steps).log).Some? && Apply(Run(steps).log[k], StateAt(Run(steps).log, k)).Changed?
    ensures var log := Run(steps).log;
      Apply(log[k], StateAt(log, k)).reply == Answer(log[first].claimant == log[k].claimant)
  {
    hide Run, Replay, Exact;
    LogReplays(steps);
    var log := Run(steps).log;
    var prefix := log[k].prefix;
    OwnersAreFirst(log, k, prefix);
    if FindClaim(StateAt(log, k).claims, prefix).Some? {
      var j :| 0 <= j < k && FirstToClaim(log, prefix, j)
        && FindClaim(StateAt(log, k).claims, prefix).value == NamespaceClaim(prefix, log[j].claimant);
      assert j == first;
    } else {
      assert first == k;
    }
  }

  // ----- Declarations -----

  /** The place keeps its id, its party and whether the manifest gave it; its entry may be declared anew. */
  ghost predicate SamePlace(a: Declared, b: Declared) {
    b.entry.id == a.entry.id && b.party == a.party && b.manifest == a.manifest && (a.manifest ==> b == a)
  }

  /** The change declares the entry that stands at the place, for the place's own party. */
  ghost predicate DeclaresAt(change: Change, d: Declared) {
    change == Declare(d.entry, d.party) && !d.manifest
  }

  /** A committed change keeps every place of the catalogue, and rewrites one only for the place's party. */
  lemma DeclareStep(change: Change, s: State, i: nat)
    requires Apply(change, s).Changed? && i < |s.catalogue|
    ensures var r := Apply(change, s).state;
      && i < |r.catalogue| && SamePlace(s.catalogue[i], r.catalogue[i])
      && (r.catalogue[i] == s.catalogue[i] || DeclaresAt(change, r.catalogue[i]))
  {
    hide Without, TokenOf, FindClaim;
  }

  /** An entry once declared stands at its place for good, and is the last that its own party declared. */
  lemma {:induction false} EntriesStand(log: seq<Change>, j: nat, k: nat, i: nat)
    requires j <= k <= |log| && Replay(log).Some? && i < |StateAt(log, j).catalogue|
    ensures i < |StateAt(log, k).catalogue|
    ensures SamePlace(StateAt(log, j).catalogue[i], StateAt(log, k).catalogue[i])
    ensures StateAt(log, k).catalogue[i] == StateAt(log, j).catalogue[i]
         || exists m :: j <= m < k && DeclaresAt(log[m], StateAt(log, k).catalogue[i])
    decreases k - j
  {
    hide Apply, Exact, Replay, DeclaresAt;
    if j < k {
      EntriesStand(log, j, k - 1, i);
      Stepped(log, k - 1);
      DeclareStep(log[k - 1], StateAt(log, k - 1), i);
    }
  }

  lemma {:induction false} FoundIsFirst(catalogue: seq<Declared>, id: string)
    ensures match FindDeclared(catalogue, id)
      case None => forall i :: 0 <= i < |catalogue| ==> catalogue[i].entry.id != id
      case Some(n) => n < |catalogue| && catalogue[n].entry.id == id
                      && forall i :: 0 <= i < n ==> catalogue[i].entry.id != id
  {
    if catalogue != [] {
      FoundIsFirst(catalogue[1..], id);
      assert forall i :: 1 <= i < |catalogue| ==> catalogue[i] == catalogue[1..][i - 1];
    }
  }

  /** The entry that `resolve` finds first under an id. */
  ghost function Standing(s: State, id: string): Option<Declared> {
    match FindDeclared(s.catalogue, id)
    case None => None
    case Some(i) => Some(s.catalogue[i])
  }

  lemma DeclareStands(entry: Entry, party: Owner, s: State)
    requires Apply(Declare(entry, party), s).Changed?
    ensures Standing(s, entry.id).Some? ==> var d := Standing(s, entry.id).value; d.party == party && !d.manifest
    ensures Standing(Apply(Declare(entry, party), s).state, entry.id) == Some(Declared(entry, false, party))
  {
    hide FindDeclared;
    var r := Apply(Declare(entry, party), s).state;
    FoundIsFirst(s.catalogue, entry.id);
    FoundIsFirst(r.catalogue, entry.id);
    var at := if FindDeclared(s.catalogue, entry.id).Some? then FindDeclared(s.catalogue, entry.id).value
              else |s.catalogue|;
    assert r.catalogue[at] == Declared(entry, false, party);
  }

  /** A committed declaration stands afterwards; none is ever committed over a manifest's or another party's entry. */
  lemma DeclarationStands(steps: seq<Step>, k: nat)
    requires k < |Run(steps).log| && Run(steps).log[k].Declare?
    ensures Replay(Run(steps).log).Some?
    ensures var log := Run(steps).log; var entry, party := log[k].entry, log[k].party;
      && Standing(StateAt(log, k + 1), entry.id) == Some(Declared(entry, false, party))
      && (Standing(StateAt(log, k), entry.id).Some? ==>
           var d := Standing(StateAt(log, k), entry.id).value; d.party == party && !d.manifest)
  {
    hide Run, Replay, Exact, Standing, Apply;
    LogReplays(steps);
    var log := Run(steps).log;
    Stepped(log, k);
    DeclareStands(log[k].entry, log[k].party, StateAt(log, k));
  }

  // ----- Cancellations -----

  lemma {:induction false} ClaimedIsSpent(log: seq<Change>, k: nat, j: nat, t: Token)
    requires j < k <= |log| && Replay(log).Some? && ClaimsAt(log, j, t)
    ensures t in StateAt(log, k).spent
  {
    hide Replay, Apply, Exact;
    Stepped(log, j);
    WhatChanges(log[j], StateAt(log, j));
    ReplayGrows(log, k);
    ReplayGrows(log[..k], j + 1);
    assert log[..k][..j + 1] == log[..j + 1];
  }

  /** A cancellation says whether the token was live and, if not, whether a run had claimed it. */
  lemma CancelIsAnswered(steps: seq<Step>, k: nat)
    requires k < |Run(steps).log| && Run(steps).log[k].Cancel?
    ensures Replay(Run(steps).log).Some?
    ensures Apply(Run(steps).log[k], StateAt(Run(steps).log, k)).Changed?
    ensures var log := Run(steps).log; var t := log[k].key; var reply := Apply(log[k], StateAt(log, k)).reply;
      && reply.Cancelled?
      && (reply.cancelled <==> t in StateAt(log, k).subscriptions)
      && (reply.spent <==> exists j :: 0 <= j < k && ClaimsAt(log, j, t))
      && t !in StateAt(log, k + 1).subscriptions
  {
    hide Run, Replay, Exact, ClaimsAt;
    LogReplays(steps);
    var log := Run(steps).log;
    var t := log[k].key;
    Stepped(log, k);
    WhatChanges(log[k], StateAt(log, k));
    if t in StateAt(log, k).spent {
      ReplayGrows(log, k);
      var j := SpentWasClaimed(log[..k], t);
      SpentIsNotLive(StateAt(log, k), t);
      ClaimInPrefix(log, k, j, t);
    }
    forall j | 0 <= j < k && ClaimsAt(log, j, t) ensures t in StateAt(log, k).spent {
      ClaimedIsSpent(log, k, j, t);
    }
  }

  lemma ClaimInPrefix(log: seq<Change>, k: nat, j: nat, t: Token)
    requires k <= |log| && ClaimsAt(log[..k], j, t)
    ensures j < k && ClaimsAt(log, j, t)
  {
    hide Replay;
    assert log[..k][..j] == log[..j];
  }

  // ----- Removals by event and by owner -----

  lemma CountsWhatGoes(subs: map<Token, Subscription>, gone: set<Token>)
    requires gone <= subs.Keys
    ensures |subs - gone| + |gone| == |subs|
  {
    assert (subs - gone).Keys == subs.Keys - gone;
  }

  /** The change drops all subscriptions of an event or of an owner that the caller may drop. */
  ghost predicate TakesOut(change: Change, sub: Subscription) {
    || (change.Off? && sub.event == change.id && (sub.owner == change.caller || change.everyone))
    || (change.CancelOwned? && sub.owner == change.owner)
  }

  /** `off`, or the end of an owner, drops exactly those subscriptions, and answers how many fewer there are. */
  lemma DropsAreAnswered(steps: seq<Step>, k: nat)
    requires k < |Run(steps).log| && (Run(steps).log[k].Off? || Run(steps).log[k].CancelOwned?)
    ensures Replay(Run(steps).log).Some?
    ensures Apply(Run(steps).log[k], StateAt(Run(steps).log, k)).Changed?
    ensures var log := Run(steps).log; var s, r := StateAt(log, k), StateAt(log, k + 1);
      && Apply(log[k], s).reply.Count? && Apply(log[k], s).reply.n == |s.subscriptions| - |r.subscriptions|
      && (forall t :: t in r.subscriptions <==> t in s.subscriptions && !TakesOut(log[k], s.subscriptions[t]))
      && (forall t :: t in r.subscriptions ==> r.subscriptions[t] == s.subscriptions[t])
  {
    hide Run, Replay, Exact, Detached;
    LogReplays(steps);
    var log := Run(steps).log;
    Stepped(log, k);
    WhatChanges(log[k], StateAt(log, k));
    CountsWhatGoes(StateAt(log, k).subscriptions, Gone(log[k], StateAt(log, k)));
  }

  // ----- The order of an event's list -----

  ghost predicate IssuedBefore(u: Token, t: Token) {
    exists a: nat, b: nat :: a < b && u == TokenOf(a) && t == TokenOf(b)
  }

  ghost predicate InOrder(list: seq<Token>) { forall i, j :: 0 <= i < j < |list| ==> IssuedBefore(list[i], list[j]) }

  ghost predicate ListsInOrder(s: State) { forall e :: e in s.byEvent ==> InOrder(s.byEvent[e]) }

  lemma {:induction false} WithoutKeepsOrder(list: seq<Token>, gone: set<Token>)
    requires InOrder(list)
    ensures InOrder(Without(list, gone))
  {
    hide IssuedBefore;
    if list != [] {
      var rest := list[1..];
      assert forall i, j :: 0 <= i < j < |rest| ==> rest[i] == list[i + 1] && rest[j] == list[j + 1];
      WithoutKeepsOrder(rest, gone);
      var kept := Without(rest, gone);
      forall j | 0 <= j < |kept| ensures IssuedBefore(list[0], kept[j]) {
        assert kept[j] in rest;
      }
    }
  }

  lemma DetachedInOrder(s: State, gone: set<Token>)
    requires ListsInOrder(s)
    ensures ListsInOrder(Detached(s, gone))
  {
    hide InOrder, Without;
    forall e | e in Detached(s, gone).byEvent ensures InOrder(Detached(s, gone).byEvent[e]) {
      WithoutKeepsOrder(s.byEvent[e], gone);
    }
  }

  lemma NextComesLast(s: State, e: string)
    requires Exact(s) && ListsInOrder(s) && e in s.byEvent
    ensures InOrder(s.byEvent[e] + [TokenOf(s.sequence + 1)])
  {
    hide TokenOf, Distinct;
    var list := s.byEvent[e];
    assert ListOk(s, e);
    forall i | 0 <= i < |list| ensures IssuedBefore(list[i], TokenOf(s.sequence + 1)) {
      assert list[i] in list;
      assert LiveOk(s, list[i]);
    }
  }

  lemma VerbKeepsOrder(change: Change, s: State)
    requires Exact(s) && ListsInOrder(s) && Apply(change, s).Changed?
    ensures ListsInOrder(Apply(change, s).state)
  {
    hide Exact, Detached, InOrder, TokenOf, FindClaim, FindDeclared, FromManifest;
    match change
    case Subscribe(sub) => SubscribedInOrder(s, sub);
    case Cancel(key, _, _) => DetachedInOrder(s, {key});
    case CancelOwned(owner) => DetachedInOrder(s, OwnedBy(s, owner));
    case Off(id, caller, everyone) => DetachedInOrder(s, DroppedByOff(s, id, caller, everyone));
    case Spend(t) => DetachedInOrder(s, {t});
    case _ =>
  }

  lemma SubscribedInOrder(s: State, sub: Subscription)
    requires Exact(s) && ListsInOrder(s)
    ensures ListsInOrder(Subscribed(s, sub))
  {
    hide Exact, InOrder, TokenOf;
    if sub.event in s.byEvent {
      NextComesLast(s, sub.event);
    } else {
      OneInOrder(TokenOf(s.sequence + 1));
    }
  }

  lemma OneInOrder(t: Token)
    ensures InOrder([] + [t])
  {
  }

  lemma {:induction false} ReplayedInOrder(log: seq<Change>)
    requires Replay(log).Some?
    ensures ListsInOrder(Replay(log).value)
  {
    hide Apply, Exact;
    if log != [] {
      ReplayedInOrder(log[..|log| - 1]);
      ReplayedIsExact(log[..|log| - 1]);
      VerbKeepsOrder(log[|log| - 1], Replay(log[..|log| - 1]).value);
    }
  }

  /** After any run an event's list holds exactly its live tokens, in the order they were issued. */
  lemma SubscribersStandInOrder(steps: seq<Step>, e: string)
    ensures var s := Run(steps).state; var list := if e in s.byEvent then s.byEvent[e] else [];
      && InOrder(list) && Distinct(list)
      && forall t :: t in list <==> t in s.subscriptions && s.subscriptions[t].event == e
  {
    hide Run, Replay, TokenOf, IssuedBy, IssuedBefore;
    StatesAreSequential(steps);
    ReplayedInOrder(Run(steps).log);
    var s := Run(steps).state;
    assert e in s.byEvent ==> ListOk(s, e);
    forall t | t in s.subscriptions && s.subscriptions[t].event == e ensures e in s.byEvent && t in s.byEvent[e] {
      assert LiveOk(s, t);
    }
  }
}
