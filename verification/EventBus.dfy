/**
 The events bus, after runtimes/js/src/event-bus-kernel.ts: the state its verbs change, what each
 verb does to it, and the exactness of the per-event index.
 */
module EventBus {
  import opened Prelude
  import Decimal

  type Token = string

  /** The mod code runs for; none for code no mod owns. */
  type Owner = Option<string>

  datatype Subscription = Subscription(event: string, owner: Owner, once: bool, worker: nat)
  datatype Entry = Entry(id: string, body: string)
  datatype Declared = Declared(entry: Entry, manifest: bool, party: Owner)
  datatype NamespaceClaim = NamespaceClaim(prefix: string, owner: string)

  datatype State = State(
    catalogue: seq<Declared>,
    byEvent: map<string, seq<Token>>,
    subscriptions: map<Token, Subscription>,
    spent: set<Token>,
    claims: seq<NamespaceClaim>,
    sequence: nat,
    seeded: bool)

  const BLANK: State := State([], map[], map[], {}, [], 0, false)

  // ----- Tokens -----

  function TokenOf(n: nat): Token { "sub-" + Decimal.Spelling(n) }

  lemma TokensDiffer(a: nat, b: nat)
    requires TokenOf(a) == TokenOf(b)
    ensures a == b
  {
    assert TokenOf(a)[4..] == Decimal.Spelling(a) && TokenOf(b)[4..] == Decimal.Spelling(b);
    Decimal.SpellingSpells(a);
    Decimal.SpellingSpells(b);
  }

  ghost predicate IssuedBy(sequence: nat, t: Token) { exists n: nat :: 1 <= n <= sequence && t == TokenOf(n) }

  /** The next token has not been issued. */
  lemma NextTokenIsNew(sequence: nat)
    ensures !IssuedBy(sequence, TokenOf(sequence + 1)) && IssuedBy(sequence + 1, TokenOf(sequence + 1))
  {
    hide TokenOf;
    if IssuedBy(sequence, TokenOf(sequence + 1)) {
      var n: nat :| 1 <= n <= sequence && TokenOf(sequence + 1) == TokenOf(n);
      TokensDiffer(n, sequence + 1);
    }
  }

  lemma StaysIssued(a: nat, b: nat, t: Token)
    requires a <= b && IssuedBy(a, t)
    ensures IssuedBy(b, t)
  {
  }

  // ----- The index -----

  /** A live token is one that was issued, is not spent, and stands in its own event's list. */
  ghost predicate LiveOk(s: State, t: Token) {
    && t in s.subscriptions
    && IssuedBy(s.sequence, t)
    && t !in s.spent
    && s.subscriptions[t].event in s.byEvent
    && t in s.byEvent[s.subscriptions[t].event]
  }

  /** An event's list is not empty and holds live tokens of that event, each once. */
  ghost predicate ListOk(s: State, e: string) {
    && e in s.byEvent
    && s.byEvent[e] != []
    && Distinct(s.byEvent[e])
    && forall t :: t in s.byEvent[e] ==> t in s.subscriptions && s.subscriptions[t].event == e
  }

  /** The index is exact: each live token once in its own event's list and nowhere else. */
  ghost predicate Exact(s: State) {
    && (forall t :: t in s.subscriptions ==> LiveOk(s, t))
    && (forall e :: e in s.byEvent ==> ListOk(s, e))
    && (forall t :: t in s.spent ==> IssuedBy(s.sequence, t))
  }

  /** What is left of a list. */
  function Without(list: seq<Token>, gone: set<Token>): (r: seq<Token>)
    ensures forall t :: t in r <==> t in list && t !in gone
  {
    if list == [] then []
    else if list[0] in gone then Without(list[1..], gone)
    else [list[0]] + Without(list[1..], gone)
  }

  /** The state in which the subscriptions `gone` are taken out, and no list is left empty. */
  function Detached(s: State, gone: set<Token>): State {
    s.(subscriptions := map t | t in s.subscriptions && t !in gone :: s.subscriptions[t],
       byEvent := map e | e in s.byEvent && Without(s.byEvent[e], gone) != [] :: Without(s.byEvent[e], gone))
  }

  lemma DistinctTail(list: seq<Token>)
    requires list != [] && Distinct(list)
    ensures Distinct(list[1..]) && list[0] !in list[1..]
    ensures forall i :: 1 <= i < |list| ==> list[i] != list[0]
  {
    var rest := list[1..];
    assert forall i, j :: 0 <= i < j < |rest| ==> rest[i] == list[i + 1] && rest[j] == list[j + 1];
  }

  lemma {:induction false} WithoutKeepsDistinct(list: seq<Token>, gone: set<Token>)
    requires Distinct(list)
    ensures Distinct(Without(list, gone))
  {
    if list != [] {
      DistinctTail(list);
      WithoutKeepsDistinct(list[1..], gone);
      assert list[0] !in Without(list[1..], gone);
    }
  }

  lemma {:induction false} WithoutTwice(list: seq<Token>, a: set<Token>, b: set<Token>)
    ensures Without(Without(list, a), b) == Without(list, a + b)
  {
    if list != [] {
      WithoutTwice(list[1..], a, b);
      if list[0] !in a {
        assert ([list[0]] + Without(list[1..], a))[1..] == Without(list[1..], a);
      }
    }
  }

  lemma {:induction false} WithoutOthers(list: seq<Token>, gone: set<Token>)
    requires forall t :: t in list ==> t !in gone
    ensures Without(list, gone) == list
  {
    if list != [] {
      WithoutOthers(list[1..], gone);
    }
  }

  /** Taking out the one place of a token. */
  lemma {:induction false} WithoutOne(list: seq<Token>, i: nat)
    requires i < |list| && Distinct(list)
    ensures Without(list, {list[i]}) == list[..i] + list[i + 1..]
  {
    hide Distinct;
    var rest := list[1..];
    DistinctTail(list);
    if i == 0 {
      WithoutOthers(rest, {list[0]});
    } else {
      WithoutOne(rest, i - 1);
      assert list[..i] == [list[0]] + rest[..i - 1] && list[i + 1..] == rest[i..];
    }
  }

  lemma DetachedTwice(s: State, a: set<Token>, b: set<Token>)
    ensures Detached(Detached(s, a), b) == Detached(s, a + b)
  {
    hide Without;
    var once, twice, both := Detached(s, a), Detached(Detached(s, a), b), Detached(s, a + b);
    forall e | e in s.byEvent
      ensures Without(Without(s.byEvent[e], a), b) == Without(s.byEvent[e], a + b)
      ensures Without(s.byEvent[e], a + b) != [] ==> Without(s.byEvent[e], a) != []
    {
      WithoutTwice(s.byEvent[e], a, b);
      assert Without(s.byEvent[e], a + b) != [] ==> Without(s.byEvent[e], a + b)[0] in Without(s.byEvent[e], a);
    }
    assert twice.byEvent.Keys == both.byEvent.Keys;
    assert twice.byEvent == both.byEvent;
    assert twice.subscriptions == both.subscriptions;
  }

  lemma DetachedNone(s: State)
    requires Exact(s)
    ensures Detached(s, {}) == s
  {
    hide Without, IssuedBy;
    forall e | e in s.byEvent ensures Without(s.byEvent[e], {}) == s.byEvent[e] {
      WithoutOthers(s.byEvent[e], {});
    }
    assert forall e :: e in s.byEvent ==> ListOk(s, e);
    assert Detached(s, {}).byEvent == s.byEvent;
    assert Detached(s, {}).subscriptions == s.subscriptions;
  }

  /** Detaching keeps the index exact. */
  lemma DetachedIsExact(s: State, gone: set<Token>)
    requires Exact(s)
    ensures Exact(Detached(s, gone))
  {
    hide Without, IssuedBy, Distinct;
    var r := Detached(s, gone);
    forall t | t in r.subscriptions ensures LiveOk(r, t) {
      assert LiveOk(s, t);
      assert t in Without(s.byEvent[s.subscriptions[t].event], gone);
    }
    forall e | e in r.byEvent ensures ListOk(r, e) {
      assert ListOk(s, e);
      WithoutKeepsDistinct(s.byEvent[e], gone);
    }
  }

  // ----- What each verb does -----

  function Subscribed(s: State, sub: Subscription): State {
    var issued := TokenOf(s.sequence + 1);
    var list := if sub.event in s.byEvent then s.byEvent[sub.event] else [];
    s.(sequence := s.sequence + 1,
       subscriptions := s.subscriptions[issued := sub],
       byEvent := s.byEvent[sub.event := list + [issued]])
  }

  lemma SubscribedIsExact(s: State, sub: Subscription)
    requires Exact(s)
    ensures Exact(Subscribed(s, sub)) && TokenOf(s.sequence + 1) !in s.subscriptions
    ensures TokenOf(s.sequence + 1) !in s.spent
  {
    hide IssuedBy, TokenOf;
    var r, issued := Subscribed(s, sub), TokenOf(s.sequence + 1);
    NextTokenIsNew(s.sequence);
    assert issued in s.subscriptions ==> LiveOk(s, issued);
    forall t | t in r.subscriptions ensures LiveOk(r, t) {
      if t != issued {
        assert LiveOk(s, t);
        StaysIssued(s.sequence, r.sequence, t);
      }
    }
    forall e | e in r.byEvent ensures ListOk(r, e) {
      if e in s.byEvent {
        assert ListOk(s, e);
      }
    }
    forall t | t in s.spent ensures IssuedBy(r.sequence, t) {
      StaysIssued(s.sequence, r.sequence, t);
    }
  }

  function Spent(s: State, t: Token): State {
    var r := Detached(s, {t});
    r.(spent := r.spent + {t})
  }

  lemma SpentIsExact(s: State, t: Token)
    requires Exact(s) && t in s.subscriptions
    ensures Exact(Spent(s, t))
  {
    hide Without, IssuedBy, Distinct;
    DetachedIsExact(s, {t});
    var d, r := Detached(s, {t}), Spent(s, t);
    assert LiveOk(s, t);
    forall u | u in r.subscriptions ensures LiveOk(r, u) {
      assert LiveOk(d, u);
    }
    forall e | e in r.byEvent ensures ListOk(r, e) {
      assert ListOk(d, e);
    }
  }

  /** Fields the index does not speak of. */
  lemma SameIndexIsExact(s: State, r: State)
    requires Exact(s)
    requires r.byEvent == s.byEvent && r.subscriptions == s.subscriptions && r.spent == s.spent
    requires r.sequence == s.sequence
    ensures Exact(r)
  {
    hide Without, IssuedBy, Distinct;
    forall t | t in r.subscriptions ensures LiveOk(r, t) {
      assert LiveOk(s, t);
    }
    forall e | e in r.byEvent ensures ListOk(r, e) {
      assert ListOk(s, e);
    }
  }

  ghost function OwnedBy(s: State, owner: Owner): set<Token> {
    set t | t in s.subscriptions && s.subscriptions[t].owner == owner
  }

  ghost function DroppedByOff(s: State, id: string, caller: Owner, everyone: bool): set<Token> {
    set t | t in s.subscriptions && s.subscriptions[t].event == id && (everyone || s.subscriptions[t].owner == caller)
  }

  /** Detaching tokens that are not live changes nothing. */
  lemma DetachedOthers(s: State, gone: set<Token>)
    requires Exact(s) && forall t :: t in gone ==> t !in s.subscriptions
    ensures Detached(s, gone) == s
  {
    hide Without, IssuedBy, Distinct;
    forall e | e in s.byEvent ensures Without(s.byEvent[e], gone) == s.byEvent[e] != [] {
      assert ListOk(s, e);
      WithoutOthers(s.byEvent[e], gone);
    }
    assert Detached(s, gone).byEvent == s.byEvent;
    assert Detached(s, gone).subscriptions == s.subscriptions;
  }

  /** Detaching one live token touches its own event's list only. */
  lemma DetachedOne(s: State, t: Token, i: nat)
    requires Exact(s) && t in s.subscriptions
    requires s.subscriptions[t].event in s.byEvent
    requires i < |s.byEvent[s.subscriptions[t].event]| && s.byEvent[s.subscriptions[t].event][i] == t
    ensures var e := s.subscriptions[t].event; var list := s.byEvent[e][..i] + s.byEvent[e][i + 1..];
      Detached(s, {t}) == s.(subscriptions := s.subscriptions - {t},
                             byEvent := if list == [] then s.byEvent - {e} else s.byEvent[e := list])
  {
    hide Without, IssuedBy, Distinct;
    var e := s.subscriptions[t].event;
    assert ListOk(s, e);
    WithoutOne(s.byEvent[e], i);
    forall other | other in s.byEvent && other != e ensures Without(s.byEvent[other], {t}) == s.byEvent[other] != [] {
      assert ListOk(s, other);
      WithoutOthers(s.byEvent[other], {t});
    }
    var list := s.byEvent[e][..i] + s.byEvent[e][i + 1..];
    assert Detached(s, {t}).byEvent == if list == [] then s.byEvent - {e} else s.byEvent[e := list];
    assert Detached(s, {t}).subscriptions == s.subscriptions - {t};
  }

  datatype Change =
    | Subscribe(sub: Subscription)
    | Cancel(key: Token, caller: Owner, mayCancelOthers: bool)
    | CancelOwned(owner: Owner)
    | Off(id: string, caller: Owner, everyone: bool)
    | Spend(token: Token)
    | Claim(prefix: string, claimant: string)
    | Declare(entry: Entry, party: Owner)
    | Seed(entries: seq<Entry>)

  datatype Reply =
    | Issued(token: Token)
    | Cancelled(cancelled: bool, spent: bool)
    | Count(n: nat)
    | Answer(yes: bool)
    | Nothing

  /** What one run of a change on a state comes to; a thrown one writes nothing. */
  datatype Attempt = Changed(state: State, reply: Reply) | Thrown

  ghost function Apply(change: Change, s: State): Attempt {
    match change
    case Subscribe(sub) => Changed(Subscribed(s, sub), Issued(TokenOf(s.sequence + 1)))
    case Cancel(key, caller, mayCancelOthers) =>
      if key !in s.subscriptions then Changed(s, Cancelled(false, key in s.spent))
      else if s.subscriptions[key].owner != caller && !mayCancelOthers then Thrown
      else Changed(Detached(s, {key}), Cancelled(true, false))
    case CancelOwned(owner) => Changed(Detached(s, OwnedBy(s, owner)), Count(|OwnedBy(s, owner)|))
    case Off(id, caller, everyone) =>
      var gone := DroppedByOff(s, id, caller, everyone);
      Changed(Detached(s, gone), Count(|gone|))
    case Spend(t) => if t in s.subscriptions then Changed(Spent(s, t), Answer(true)) else Changed(s, Answer(false))
    case Claim(prefix, caller) =>
      (match FindClaim(s.claims, prefix)
       case Some(held) => Changed(s, Answer(held.owner == caller))
       case None => Changed(s.(claims := s.claims + [NamespaceClaim(prefix, caller)]), Answer(true)))
    case Declare(entry, party) =>
      (match FindDeclared(s.catalogue, entry.id)
       case None => Changed(s.(catalogue := s.catalogue + [Declared(entry, false, party)]), Nothing)
       case Some(i) =>
         if s.catalogue[i].manifest || s.catalogue[i].party != party then Thrown
         else Changed(s.(catalogue := s.catalogue[i := s.catalogue[i].(entry := entry)]), Nothing))
    case Seed(entries) =>
      if s.seeded then Changed(s, Nothing)
      else Changed(s.(seeded := true, catalogue := s.catalogue + FromManifest(entries)), Nothing)
  }

  function FindClaim(claims: seq<NamespaceClaim>, prefix: string): Option<NamespaceClaim> {
    if claims == [] then None
    else if claims[0].prefix == prefix then Some(claims[0])
    else FindClaim(claims[1..], prefix)
  }

  function FindDeclared(catalogue: seq<Declared>, id: string): (r: Option<nat>)
    ensures r.Some? ==> r.value < |catalogue| && catalogue[r.value].entry.id == id
  {
    if catalogue == [] then None
    else if catalogue[0].entry.id == id then Some(0)
    else match FindDeclared(catalogue[1..], id) case None => None case Some(i) => Some(i + 1)
  }

  function FromManifest(entries: seq<Entry>): seq<Declared> {
    seq(|entries|, i requires 0 <= i < |entries| => Declared(entries[i], true, None))
  }

  /** The live tokens a change takes out. */
  ghost function Gone(change: Change, s: State): set<Token> {
    match change
    case Cancel(key, caller, mayCancelOthers) =>
      if key in s.subscriptions && (s.subscriptions[key].owner == caller || mayCancelOthers) then {key} else {}
    case CancelOwned(owner) => OwnedBy(s, owner)
    case Off(id, caller, everyone) => DroppedByOff(s, id, caller, everyone)
    case Spend(t) => if t in s.subscriptions then {t} else {}
    case _ => {}
  }

  /** Every verb keeps the index exact. */
  lemma EveryVerbKeepsExact(change: Change, s: State)
    requires Exact(s) && Apply(change, s).Changed?
    ensures Exact(Apply(change, s).state)
  {
    hide Exact, Detached, Subscribed, Spent, FindClaim, FindDeclared, FromManifest;
    match change
    case Subscribe(sub) => SubscribedIsExact(s, sub);
    case Cancel(key, _, _) => DetachedIsExact(s, {key});
    case CancelOwned(owner) => DetachedIsExact(s, OwnedBy(s, owner));
    case Off(id, caller, everyone) => DetachedIsExact(s, DroppedByOff(s, id, caller, everyone));
    case Spend(t) => if t in s.subscriptions { SpentIsExact(s, t); }
    case _ => SameIndexIsExact(s, Apply(change, s).state);
  }

  /** What a change does to the live subscriptions and to the spent tokens, exactly. */
  lemma WhatChanges(change: Change, s: State)
    requires Exact(s) && Apply(change, s).Changed?
    ensures var r := Apply(change, s).state;
      && r.subscriptions == (if change.Subscribe? then s.subscriptions[TokenOf(s.sequence + 1) := change.sub]
                             else s.subscriptions - Gone(change, s))
      && r.spent == (if change.Spend? then s.spent + Gone(change, s) else s.spent)
      && r.sequence == (if change.Subscribe? then s.sequence + 1 else s.sequence)
  {
    hide Without, Exact, FindClaim, FindDeclared, FromManifest;
    var r := Apply(change, s).state;
    assert change.Spend? ==> r.subscriptions == s.subscriptions - Gone(change, s);
    assert change.Cancel? ==> r.subscriptions == s.subscriptions - Gone(change, s);
    assert change.CancelOwned? ==> r.subscriptions == s.subscriptions - Gone(change, s);
    assert change.Off? ==> r.subscriptions == s.subscriptions - Gone(change, s);
  }

  // ----- The verbs as they run -----

  type Handler = nat

  /** The handlers left with `self` once the tokens `gone` are taken out of `s`. */
  ghost function Kept(handlers: map<Token, Handler>, s: State, gone: set<Token>, self: nat): map<Token, Handler> {
    handlers - set t | t in gone && t in s.subscriptions && s.subscriptions[t].worker == self
  }

  method RemoveAt(list: seq<Token>, index: nat) returns (r: seq<Token>)
    requires index < |list|
    ensures r == list[..index] + list[index + 1..]
  {
    r := list;
    var i := index;
    while i + 1 < |r|
      invariant index <= i < |r| == |list|
      invariant r == list[..index] + list[index + 1..i + 1] + list[i..]
    {
      assert list[index + 1..i + 2] == list[index + 1..i + 1] + [list[i + 1]];
      r := r[i := r[i + 1]];
      i := i + 1;
    }
    r := r[..|r| - 1];
  }

  method IndexIn(list: seq<Token>, value: Token) returns (r: Option<nat>)
    ensures r.Some? ==> r.value < |list| && list[r.value] == value
    ensures r.None? ==> value !in list
  {
    for i := 0 to |list|
      invariant value !in list[..i]
    {
      if list[i] == value {
        return Some(i);
      }
    }
    return None;
  }

  /** One worker's kernel while a change runs: the state it was handed, and the handlers it holds. */
  class Kernel {
    const self: nat
    var catalogue: seq<Declared>
    var byEvent: map<string, seq<Token>>
    var subscriptions: map<Token, Subscription>
    var spent: set<Token>
    var claims: seq<NamespaceClaim>
    var sequence: nat
    var seeded: bool
    var handlers: map<Token, Handler>

    ghost function Now(): State
      reads this
    {
      State(catalogue, byEvent, subscriptions, spent, claims, sequence, seeded)
    }

    constructor (self: nat, state: State, handlers: map<Token, Handler>)
      ensures this.self == self && Now() == state && this.handlers == handlers
    {
      this.self := self;
      catalogue, byEvent, subscriptions := state.catalogue, state.byEvent, state.subscriptions;
      spent, claims, sequence, seeded := state.spent, state.claims, state.sequence, state.seeded;
      this.handlers := handlers;
    }

    method DetachIn(t: Token)
      requires Exact(Now())
      modifies this
      ensures Now() == Detached(old(Now()), {t}) && Exact(Now())
      ensures handlers == Kept(old(handlers), old(Now()), {t}, self)
    {
      hide Without, Detached, LiveOk, ListOk;
      DetachedIsExact(Now(), {t});
      if t !in subscriptions {
        DetachedOthers(Now(), {t});
        return;
      }
      var subscription := subscriptions[t];
      LiveToken(Now(), t);
      if subscription.worker == self {
        handlers := handlers - {t};
      }
      var list := byEvent[subscription.event];
      var index := IndexIn(list, t);
      DetachedOne(Now(), t, index.value);
      subscriptions := subscriptions - {t};
      list := RemoveAt(list, index.value);
      byEvent := byEvent[subscription.event := list];
      if |list| == 0 {
        byEvent := byEvent - {subscription.event};
        assert byEvent == old(byEvent) - {subscription.event};
      }
    }

    method SubscribeIn(sub: Subscription) returns (issued: Token)
      requires Exact(Now())
      modifies this
      ensures Apply(Subscribe(sub), old(Now())) == Changed(Now(), Issued(issued)) && Exact(Now())
      ensures handlers == old(handlers)
    {
      hide Exact;
      SubscribedIsExact(Now(), sub);
      sequence := sequence + 1;
      issued := TokenOf(sequence);
      subscriptions := subscriptions[issued := sub];
      if sub.event !in byEvent {
        byEvent := byEvent[sub.event := []];
      }
      byEvent := byEvent[sub.event := byEvent[sub.event] + [issued]];
    }

    method CancelIn(key: Token, caller: Owner, mayCancelOthers: bool) returns (reply: Option<Reply>)
      requires Exact(Now())
      modifies this
      ensures Exact(Now())
      ensures Apply(Cancel(key, caller, mayCancelOthers), old(Now()))
           == if reply.None? then Thrown else Changed(Now(), reply.value)
      ensures reply.None? ==> Now() == old(Now())
      ensures handlers == Kept(old(handlers), old(Now()), Gone(Cancel(key, caller, mayCancelOthers), old(Now())), self)
    {
      hide Exact, Detached;
      if key in subscriptions {
        if subscriptions[key].owner != caller && !mayCancelOthers {
          return None;
        }
        DetachIn(key);
        return Some(Cancelled(true, false));
      }
      return Some(Cancelled(false, key in spent));
    }

    method SpendIn(t: Token) returns (claimed: bool)
      requires Exact(Now())
      modifies this
      ensures Exact(Now())
      ensures Apply(Spend(t), old(Now())) == Changed(Now(), Answer(claimed))
      ensures handlers == Kept(old(handlers), old(Now()), Gone(Spend(t), old(Now())), self)
    {
      hide Exact, Detached;
      if t !in subscriptions {
        return false;
      }
      SpentIsExact(Now(), t);
      DetachIn(t);
      spent := spent + {t};
      return true;
    }

    /** The keys are taken in any order: what is left does not depend on it. */
    method CancelOwnedIn(owner: Owner) returns (count: nat)
      requires Exact(Now())
      modifies this
      ensures Exact(Now())
      ensures Apply(CancelOwned(owner), old(Now())) == Changed(Now(), Count(count))
      ensures handlers == Kept(old(handlers), old(Now()), OwnedBy(old(Now()), owner), self)
    {
      hide Exact, Detached, Kept, Apply, OwnedBy;
      count := 0;
      var tokens := subscriptions.Keys;
      ghost var was, gone: set<Token> := Now(), {};
      DetachedNone(was);
      KeptNone(handlers, was, self);
      OwnedSplit(was, owner, tokens);
      while tokens != {}
        invariant Exact(Now()) && Now() == Detached(was, gone) && count == |gone|
        invariant tokens <= was.subscriptions.Keys
        invariant gone == OwnedBy(was, owner) - tokens
        invariant handlers == Kept(old(handlers), was, gone, self)
      {
        DetachedSubscriptions(was, gone);
        var t :| t in tokens;
        OwnedStep(was, owner, tokens, t);
        if subscriptions[t].owner == owner {
          DetachAlso(t, was, gone, old(handlers));
          gone := gone + {t};
          count := count + 1;
        }
        tokens := tokens - {t};
      }
      assert gone == OwnedBy(was, owner);
      AppliesCancelOwned(was, owner);
    }

    method OffIn(id: string, caller: Owner, everyone: bool) returns (dropped: nat)
      requires Exact(Now())
      modifies this
      ensures Exact(Now())
      ensures Apply(Off(id, caller, everyone), old(Now())) == Changed(Now(), Count(dropped))
      ensures handlers == Kept(old(handlers), old(Now()), DroppedByOff(old(Now()), id, caller, everyone), self)
    {
      hide Exact, Detached, Without, Kept, Apply, DroppedByOff;
      dropped := 0;
      ghost var was, gone: set<Token> := Now(), {};
      DetachedNone(was);
      KeptNone(handlers, was, self);
      OffDropsListed(was, id, caller, everyone);
      AppliesOff(was, id, caller, everyone);
      if id !in byEvent {
        return;
      }
      var snapshot := byEvent[id];
      ListedAreLive(was, id);
      for i := 0 to |snapshot|
        invariant Exact(Now()) && Now() == Detached(was, gone) && dropped == |gone|
        invariant gone == DroppedOf(snapshot[..i], was, id, caller, everyone)
        invariant handlers == Kept(old(handlers), was, gone, self)
      {
        DetachedSubscriptions(was, gone);
        var t := snapshot[i];
        OffStep(snapshot, i, was, id, caller, everyone);
        if everyone || subscriptions[t].owner == caller {
          DetachAlso(t, was, gone, old(handlers));
          gone := gone + {t};
          dropped := dropped + 1;
        }
      }
      assert snapshot[..|snapshot|] == snapshot;
      DroppedOfAll(snapshot, was, id, caller, everyone);
    }

    /** One more token out of `was`, of which `gone` are out already. */
    method DetachAlso(t: Token, ghost was: State, ghost gone: set<Token>, ghost held: map<Token, Handler>)
      requires Exact(Now()) && Now() == Detached(was, gone) && t !in gone && t in was.subscriptions
      requires handlers == Kept(held, was, gone, self)
      modifies this
      ensures Exact(Now()) && Now() == Detached(was, gone + {t}) && |gone + {t}| == |gone| + 1
      ensures handlers == Kept(held, was, gone + {t}, self)
    {
      hide Exact, Detached, Without;
      DetachedTwice(was, gone, {t});
      DetachedSubscriptions(was, gone);
      DetachIn(t);
    }
  }

  lemma KeptNone(handlers: map<Token, Handler>, s: State, self: nat)
    ensures Kept(handlers, s, {}, self) == handlers
  {
  }

  lemma OwnedSplit(s: State, owner: Owner, tokens: set<Token>)
    requires tokens == s.subscriptions.Keys
    ensures OwnedBy(s, owner) - tokens == {}
  {
  }

  lemma OwnedStep(s: State, owner: Owner, tokens: set<Token>, t: Token)
    requires t in tokens && tokens <= s.subscriptions.Keys
    ensures OwnedBy(s, owner) - (tokens - {t})
         == OwnedBy(s, owner) - tokens + if s.subscriptions[t].owner == owner then {t} else {}
  {
  }

  lemma AppliesCancelOwned(s: State, owner: Owner)
    ensures Apply(CancelOwned(owner), s) == Changed(Detached(s, OwnedBy(s, owner)), Count(|OwnedBy(s, owner)|))
  {
  }

  lemma AppliesOff(s: State, id: string, caller: Owner, everyone: bool)
    ensures Apply(Off(id, caller, everyone), s)
         == Changed(Detached(s, DroppedByOff(s, id, caller, everyone)), Count(|DroppedByOff(s, id, caller, everyone)|))
  {
  }

  /** The tokens of a part of the list that `off` drops. */
  ghost function DroppedOf(part: seq<Token>, s: State, id: string, caller: Owner, everyone: bool): set<Token> {
    set t | t in part && t in DroppedByOff(s, id, caller, everyone)
  }

  lemma OffStep(list: seq<Token>, i: nat, s: State, id: string, caller: Owner, everyone: bool)
    requires i < |list| && Distinct(list)
    requires forall t :: t in list ==> t in s.subscriptions && s.subscriptions[t].event == id
    ensures list[i] !in DroppedOf(list[..i], s, id, caller, everyone)
    ensures DroppedOf(list[..i + 1], s, id, caller, everyone)
         == DroppedOf(list[..i], s, id, caller, everyone)
          + if everyone || s.subscriptions[list[i]].owner == caller then {list[i]} else {}
  {
    assert list[..i + 1] == list[..i] + [list[i]];
  }

  lemma DroppedOfAll(list: seq<Token>, s: State, id: string, caller: Owner, everyone: bool)
    requires forall t :: t in DroppedByOff(s, id, caller, everyone) ==> t in list
    ensures DroppedOf(list, s, id, caller, everyone) == DroppedByOff(s, id, caller, everyone)
  {
  }

  lemma LiveToken(s: State, t: Token)
    requires Exact(s) && t in s.subscriptions
    ensures s.subscriptions[t].event in s.byEvent && t in s.byEvent[s.subscriptions[t].event]
  {
    assert LiveOk(s, t);
  }

  lemma DetachedSubscriptions(s: State, gone: set<Token>)
    ensures Detached(s, gone).subscriptions == s.subscriptions - gone
  {
  }

  /** `off` drops nothing outside its event's list. */
  lemma OffDropsListed(s: State, id: string, caller: Owner, everyone: bool)
    requires Exact(s)
    ensures forall t :: t in DroppedByOff(s, id, caller, everyone) ==> id in s.byEvent && t in s.byEvent[id]
    ensures id !in s.byEvent ==> DroppedByOff(s, id, caller, everyone) == {}
  {
    forall t | t in DroppedByOff(s, id, caller, everyone) ensures id in s.byEvent && t in s.byEvent[id] {
      LiveToken(s, t);
    }
  }

  lemma ListedAreLive(s: State, id: string)
    requires Exact(s) && id in s.byEvent
    ensures Distinct(s.byEvent[id])
    ensures forall t :: t in s.byEvent[id] ==> t in s.subscriptions && s.subscriptions[t].event == id
  {
    assert ListOk(s, id);
  }
}
