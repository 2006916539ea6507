/**
 Runs of several workers that share one bus, after runtimes/js/src/event-bus-kernel.ts: every call
 reads the versioned state, changes its copy and writes it back, which a newer version refuses;
 handlers stay with the worker that subscribed them. Calls are open at any time on any worker, so a
 handler that calls the bus again is one more call.
 */
module BusRuns {
  import opened Prelude
  import opened EventBus

  /** What a call does once its change is written. */
  datatype After = Return | Register(handler: Handler) | Invoke(handler: Handler, owner: Owner)

  /**
   Where a call stands. `dropped` are the tokens whose handlers the call's attempts have deleted so far,
   refused attempts included.
   */
  datatype Call =
    | Reading(change: Change, after: After, dropped: set<Token>)
    | Writing(change: Change, after: After, dropped: set<Token>, version: nat, base: State)
    | Serving(token: Token)
    | Running(token: Token, handler: Handler, owner: Owner)

  datatype Frame = Frame(worker: nat, call: Call)

  datatype Slot = Slot(worker: nat, token: Token)

  /** A subscription as it was made. */
  datatype Issue = Issue(sub: Subscription, handler: Handler)

  /** One run of a handler. */
  datatype HandlerRun = HandlerRun(worker: nat, token: Token, handler: Handler, owner: Owner)

  datatype System = System(
    version: nat,
    state: State,
    handlers: map<Slot, Handler>,
    frames: map<nat, Frame>,
    log: seq<Change>,
    issued: map<Token, Issue>,
    runs: seq<HandlerRun>)

  const START: System := System(0, BLANK, map[], map[], [], map[], [])

  datatype Step =
    | Begin(id: nat, worker: nat, change: Change, handler: Handler)
    | Arrive(id: nat, worker: nat, token: Token)
    | Read(id: nat)
    | Write(id: nat)
    | Look(id: nat, matches: bool)
    | Fire(id: nat)

  ghost function WithFrame(s: System, id: nat, worker: nat, call: Call): System {
    s.(frames := s.frames[id := Frame(worker, call)])
  }

  ghost function Ended(s: System, id: nat): System { s.(frames := s.frames - {id}) }

  /** The handlers left once `worker` deletes those of `tokens`. */
  ghost function Deleted(handlers: map<Slot, Handler>, worker: nat, tokens: set<Token>): map<Slot, Handler> {
    map k | k in handlers && !(k.worker == worker && k.token in tokens) :: handlers[k]
  }

  /** The handlers left once `worker` forgets those no longer live. */
  ghost function Remembered(handlers: map<Slot, Handler>, worker: nat, s: State): map<Slot, Handler> {
    map k | k in handlers && !(k.worker == worker && k.token !in s.subscriptions) :: handlers[k]
  }

  /** The tokens a change takes out whose handlers the worker holds. */
  ghost function Mine(change: Change, s: State, worker: nat): set<Token> {
    set t | t in Gone(change, s) && t in s.subscriptions && s.subscriptions[t].worker == worker
  }

  ghost function NextBegin(s: System, id: nat, worker: nat, change: Change, handler: Handler): System {
    if id in s.frames || change.Spend? || (change.Subscribe? && change.sub.worker != worker) then s
    else WithFrame(s, id, worker, Reading(change, if change.Subscribe? then Register(handler) else Return, {}))
  }

  ghost function NextRead(s: System, id: nat): System {
    if id !in s.frames || !s.frames[id].call.Reading? then s
    else
      var worker, call := s.frames[id].worker, s.frames[id].call;
      if Apply(call.change, s.state).Thrown? then Ended(s, id)
      else
        var mine := Mine(call.change, s.state, worker);
        WithFrame(s, id, worker, Writing(call.change, call.after, call.dropped + mine, s.version, s.state))
          .(handlers := Deleted(s.handlers, worker, mine))
  }

  ghost predicate Writes(s: System, id: nat) { id in s.frames && s.frames[id].call.Writing? }

  ghost function NextWrite(s: System, id: nat): System {
    if !Writes(s, id) then s
    else if s.frames[id].call.version != s.version then Refused(s, id)
    else Committed(s, id)
  }

  /** A stale write: the call reads again. */
  ghost function Refused(s: System, id: nat): System
    requires Writes(s, id)
  {
    var call := s.frames[id].call;
    WithFrame(s, id, s.frames[id].worker, Reading(call.change, call.after, call.dropped))
  }

  ghost predicate Commits(s: System, id: nat) {
    Writes(s, id) && s.frames[id].call.version == s.version
  }

  ghost function NewState(s: System, id: nat): State
    requires Writes(s, id)
  {
    var attempt := Apply(s.frames[id].call.change, s.frames[id].call.base);
    if attempt.Changed? then attempt.state else s.state
  }

  /** An accepted write, and what the call does with the handlers before it gives up its turn. */
  ghost function Committed(s: System, id: nat): System
    requires Writes(s, id)
  {
    var worker, call := s.frames[id].worker, s.frames[id].call;
    var state := NewState(s, id);
    var written := s.(version := s.version + 1, state := state, log := s.log + [call.change]);
    match call.after
    case Return => Ended(written, id)
    case Register(handler) =>
      var t := TokenOf(state.sequence);
      if !call.change.Subscribe? then written
      else
        Ended(written.(
          handlers := Remembered(s.handlers, worker, state)[Slot(worker, t) := handler],
          issued := s.issued[t := Issue(call.change.sub, handler)]), id)
    case Invoke(handler, owner) =>
      if !call.change.Spend? then written
      else
        var t := call.change.token;
        var forgotten := written.(handlers := Deleted(s.handlers, worker, {t}));
        if t in call.base.subscriptions then WithFrame(forgotten, id, worker, Running(t, handler, owner))
        else Ended(forgotten, id)
  }

  /** The first part of `serve`: the handler, the subscription, the match. */
  ghost function NextLook(s: System, id: nat, matches: bool): System {
    if id !in s.frames || !s.frames[id].call.Serving? then s
    else
      var worker, t := s.frames[id].worker, s.frames[id].call.token;
      if Slot(worker, t) !in s.handlers then Ended(s, id)
      else if t !in s.state.subscriptions then Ended(s, id).(handlers := Deleted(s.handlers, worker, {t}))
      else if !matches then Ended(s, id)
      else
        var handler, owner := s.handlers[Slot(worker, t)], s.state.subscriptions[t].owner;
        WithFrame(s, id, worker,
          if s.state.subscriptions[t].once then Reading(Spend(t), Invoke(handler, owner), {})
          else Running(t, handler, owner))
  }

  ghost function NextFire(s: System, id: nat): System {
    if id !in s.frames || !s.frames[id].call.Running? then s
    else
      var call := s.frames[id].call;
      Ended(s, id).(runs := s.runs + [HandlerRun(s.frames[id].worker, call.token, call.handler, call.owner)])
  }

  /** One step of any worker; one that cannot be taken changes nothing. */
  ghost function Next(s: System, step: Step): System {
    match step
    case Begin(id, worker, change, handler) => NextBegin(s, id, worker, change, handler)
    case Arrive(id, worker, token) => if id in s.frames then s else WithFrame(s, id, worker, Serving(token))
    case Read(id) => NextRead(s, id)
    case Write(id) => NextWrite(s, id)
    case Look(id, matches) => NextLook(s, id, matches)
    case Fire(id) => NextFire(s, id)
  }

  /** The system after a run: any steps, in any order. */
  ghost function Run(steps: seq<Step>): System {
    if steps == [] then START else Next(Run(steps[..|steps| - 1]), steps[|steps| - 1])
  }

  // ----- What every step keeps -----

  ghost function Replay(log: seq<Change>): Option<State> {
    if log == [] then Some(BLANK)
    else
      match Replay(log[..|log| - 1])
      case None => None
      case Some(s) =>
        match Apply(log[|log| - 1], s)
        case Thrown => None
        case Changed(r, _) => Some(r)
  }

  ghost predicate Sequential(s: System) {
    Exact(s.state) && s.version == |s.log| && Replay(s.log) == Some(s.state)
  }

  ghost predicate SubscriptionsIssued(state: State, issued: map<Token, Issue>) {
    forall t :: t in state.subscriptions ==> t in issued && issued[t].sub == state.subscriptions[t]
  }

  ghost predicate IssuesOk(s: System) {
    && SubscriptionsIssued(s.state, s.issued)
    && forall t :: t in s.issued ==> IssuedBy(s.state.sequence, t)
  }

  /** Whether the change takes out a live subscription `sub` under `t`. */
  ghost predicate Targets(change: Change, t: Token, sub: Subscription) {
    match change
    case Cancel(key, caller, mayCancelOthers) => key == t && (sub.owner == caller || mayCancelOthers)
    case CancelOwned(owner) => sub.owner == owner
    case Off(id, caller, everyone) => sub.event == id && (everyone || sub.owner == caller)
    case Spend(token) => token == t
    case _ => false
  }

  /** The handler and owner are those `worker` subscribed under `t`. */
  ghost predicate Subscribers(issued: map<Token, Issue>, worker: nat, t: Token, handler: Handler, owner: Owner) {
    && t in issued
    && issued[t].sub.worker == worker
    && issued[t].handler == handler
    && issued[t].sub.owner == owner
  }

  ghost predicate IsOnce(issued: map<Token, Issue>, t: Token) { t in issued && issued[t].sub.once }

  ghost predicate AfterOk(issued: map<Token, Issue>, worker: nat, change: Change, after: After) {
    match change
    case Subscribe(sub) => after.Register? && sub.worker == worker
    case Spend(t) => after.Invoke? && Subscribers(issued, worker, t, after.handler, after.owner) && IsOnce(issued, t)
    case _ => after.Return?
  }

  ghost predicate DroppedOk(issued: map<Token, Issue>, worker: nat, change: Change, dropped: set<Token>) {
    forall t :: t in dropped ==>
      t in issued && issued[t].sub.worker == worker && Targets(change, t, issued[t].sub)
  }

  ghost predicate BaseOk(s: System, worker: nat, call: Call)
    requires call.Writing?
  {
    && call.version <= s.version
    && (call.version == s.version ==> call.base == s.state)
    && Exact(call.base)
    && SubscriptionsIssued(call.base, s.issued)
    && Apply(call.change, call.base).Changed?
    && Mine(call.change, call.base, worker) <= call.dropped
  }

  ghost predicate FrameOk(s: System, f: Frame) {
    match f.call
    case Reading(change, after, dropped) =>
      AfterOk(s.issued, f.worker, change, after) && DroppedOk(s.issued, f.worker, change, dropped)
    case Writing(change, after, dropped, _, _) =>
      && AfterOk(s.issued, f.worker, change, after) && DroppedOk(s.issued, f.worker, change, dropped)
      && BaseOk(s, f.worker, f.call)
    case Serving(_) => true
    case Running(t, handler, owner) =>
      && Subscribers(s.issued, f.worker, t, handler, owner)
      && (IsOnce(s.issued, t) ==> t in s.state.spent)
  }

  ghost predicate FramesOk(s: System) { forall id :: id in s.frames ==> FrameOk(s, s.frames[id]) }

  ghost predicate HandlersOk(s: System) {
    forall k :: k in s.handlers ==>
      k.token in s.issued && s.issued[k.token].sub.worker == k.worker && s.issued[k.token].handler == s.handlers[k]
  }

  ghost predicate RunsToken(f: Frame, t: Token) { f.call.Running? && f.call.token == t }

  /** A once token is run by at most one frame, or has been run at most once, not both. */
  ghost predicate OnceOk(s: System) {
    && (forall a, b, t ::
      (a in s.frames && b in s.frames && RunsToken(s.frames[a], t) && RunsToken(s.frames[b], t) && IsOnce(s.issued, t))
      ==> a == b)
    && (forall a, i ::
      (a in s.frames && 0 <= i < |s.runs| && RunsToken(s.frames[a], s.runs[i].token))
      ==> !IsOnce(s.issued, s.runs[i].token))
    && (forall i, j ::
      (0 <= i < j < |s.runs| && s.runs[i].token == s.runs[j].token)
      ==> !IsOnce(s.issued, s.runs[i].token))
  }

  ghost predicate RunOk(s: System, r: HandlerRun) {
    && Subscribers(s.issued, r.worker, r.token, r.handler, r.owner)
    && (IsOnce(s.issued, r.token) ==> r.token in s.state.spent)
  }

  ghost predicate RunsOk(s: System) { forall i :: 0 <= i < |s.runs| ==> RunOk(s, s.runs[i]) }

  ghost predicate Drops(f: Frame, worker: nat, t: Token) {
    f.worker == worker && (f.call.Reading? || f.call.Writing?) && t in f.call.dropped
  }

  ghost predicate BeingDropped(frames: map<nat, Frame>, worker: nat, t: Token) {
    exists id :: id in frames && Drops(frames[id], worker, t)
  }

  /** A live subscription has its handler, or an open call has deleted it. */
  ghost predicate LiveHandled(s: System, t: Token)
    requires t in s.state.subscriptions
  {
    var worker := s.state.subscriptions[t].worker;
    Slot(worker, t) in s.handlers || BeingDropped(s.frames, worker, t)
  }

  ghost predicate AllHandled(s: System) { forall t :: t in s.state.subscriptions ==> LiveHandled(s, t) }

  ghost predicate Invariant(s: System) {
    Sequential(s) && IssuesOk(s) && FramesOk(s) && HandlersOk(s) && OnceOk(s) && RunsOk(s) && AllHandled(s)
  }

  // ----- Steps that write nothing -----

  /** Later systems: more issued, more spent, a newer version or the same state. */
  ghost predicate Later(s: System, r: System) {
    && (forall t :: t in s.issued ==> t in r.issued && r.issued[t] == s.issued[t])
    && (forall t :: t in s.state.spent ==> t in r.state.spent)
    && s.version <= r.version
    && (s.version == r.version ==> r.state == s.state)
  }

  ghost predicate OnlyFrame(s: System, r: System, id: nat) {
    forall other :: other != id ==>
      (other in r.frames <==> other in s.frames) && (other in s.frames ==> r.frames[other] == s.frames[other])
  }

  lemma FrameStaysOk(s: System, r: System, f: Frame)
    requires FrameOk(s, f) && Later(s, r)
    ensures FrameOk(r, f)
  {
    hide Exact, Apply, Mine, Targets;
  }

  lemma FramesStayOk(s: System, r: System, id: nat)
    requires FramesOk(s) && Later(s, r) && OnlyFrame(s, r, id)
    requires id in r.frames ==> FrameOk(r, r.frames[id])
    ensures FramesOk(r)
  {
    hide FrameOk, Later;
    forall other | other in r.frames ensures FrameOk(r, r.frames[other]) {
      if other != id {
        FrameStaysOk(s, r, s.frames[other]);
      }
    }
  }

  /** No call but `id` moved, and it does not begin to run a once token. */
  lemma OnceStays(s: System, r: System, id: nat)
    requires OnceOk(s) && OnlyFrame(s, r, id) && r.runs == s.runs && FramesOk(s) && RunsOk(s)
    requires forall t :: t in s.issued ==> t in r.issued && r.issued[t] == s.issued[t]
    requires id in r.frames && r.frames[id].call.Running? ==> !IsOnce(r.issued, r.frames[id].call.token)
    ensures OnceOk(r)
  {
    hide AfterOk, DroppedOk, BaseOk;
    forall a | a in r.frames && r.frames[a].call.Running? && IsOnce(r.issued, r.frames[a].call.token)
      ensures a in s.frames && r.frames[a] == s.frames[a] && IsOnce(s.issued, r.frames[a].call.token)
    {
      assert FrameOk(s, s.frames[a]);
    }
    forall i | 0 <= i < |r.runs| && IsOnce(r.issued, r.runs[i].token) ensures IsOnce(s.issued, r.runs[i].token) {
      assert RunOk(s, s.runs[i]);
    }
  }

  lemma RunsStayOk(s: System, r: System)
    requires RunsOk(s) && Later(s, r) && r.runs == s.runs
    ensures RunsOk(r)
  {
    forall i | 0 <= i < |r.runs| ensures RunOk(r, r.runs[i]) {
      assert RunOk(s, s.runs[i]);
    }
  }

  /** A token's handler stays, or the call `id` has it in hand, or the token is no longer live. */
  lemma HandledStays(s: System, r: System, id: nat, t: Token)
    requires t in s.state.subscriptions && LiveHandled(s, t) && OnlyFrame(s, r, id)
    requires t in r.state.subscriptions && r.state.subscriptions[t] == s.state.subscriptions[t]
    requires id in s.frames && Drops(s.frames[id], s.state.subscriptions[t].worker, t) ==>
      id in r.frames && Drops(r.frames[id], s.state.subscriptions[t].worker, t)
    requires var slot := Slot(s.state.subscriptions[t].worker, t);
      slot in s.handlers ==> slot in r.handlers || (id in r.frames && Drops(r.frames[id], slot.worker, t))
    ensures LiveHandled(r, t)
  {
    hide Drops;
    var worker := s.state.subscriptions[t].worker;
    if Slot(worker, t) !in s.handlers {
      var other :| other in s.frames && Drops(s.frames[other], worker, t);
      assert other in r.frames && Drops(r.frames[other], worker, t);
    }
  }

  /** What a step of the call `id` must respect of the handler of a live token. */
  ghost predicate HandlerRespected(s: System, r: System, id: nat, t: Token) {
    t in s.state.subscriptions && t in r.state.subscriptions ==>
      var worker := s.state.subscriptions[t].worker;
      && r.state.subscriptions[t] == s.state.subscriptions[t]
      && (id in s.frames && Drops(s.frames[id], worker, t) ==> id in r.frames && Drops(r.frames[id], worker, t))
      && (Slot(worker, t) in s.handlers ==>
           Slot(worker, t) in r.handlers || (id in r.frames && Drops(r.frames[id], worker, t)))
  }

  lemma AllHandledStays(s: System, r: System, id: nat)
    requires AllHandled(s) && OnlyFrame(s, r, id)
    requires forall t :: t in r.state.subscriptions ==>
      if t in s.state.subscriptions then HandlerRespected(s, r, id, t) else LiveHandled(r, t)
    ensures AllHandled(r)
  {
    hide LiveHandled, OnlyFrame;
    forall t | t in r.state.subscriptions ensures LiveHandled(r, t) {
      if t in s.state.subscriptions {
        HandledStays(s, r, id, t);
      }
    }
  }

  /** A step that moves one call, and may delete handlers, but writes nothing and runs nothing. */
  lemma QuietKeeps(s: System, r: System, id: nat)
    requires Invariant(s) && OnlyFrame(s, r, id)
    requires r == s.(frames := r.frames, handlers := r.handlers)
    requires forall k :: k in r.handlers ==> k in s.handlers && r.handlers[k] == s.handlers[k]
    requires id in r.frames ==> FrameOk(r, r.frames[id])
    requires id in r.frames && r.frames[id].call.Running? ==> !IsOnce(r.issued, r.frames[id].call.token)
    requires forall t :: t in s.state.subscriptions ==> HandlerRespected(s, r, id, t)
    ensures Invariant(r)
  {
    hide OnlyFrame, FrameOk, OnceOk, RunsOk, FramesOk, AllHandled, HandlerRespected, LiveHandled;
    FramesStayOk(s, r, id);
    OnceStays(s, r, id);
    RunsStayOk(s, r);
    AllHandledStays(s, r, id);
  }

  /** The call moves on and deletes no handler. */
  lemma MoveKeeps(s: System, r: System, id: nat)
    requires Invariant(s) && OnlyFrame(s, r, id) && r == s.(frames := r.frames)
    requires id in r.frames ==> FrameOk(r, r.frames[id])
    requires id in r.frames && r.frames[id].call.Running? ==> !IsOnce(r.issued, r.frames[id].call.token)
    requires forall worker, t ::
      (id in s.frames && Drops(s.frames[id], worker, t) && t in s.state.subscriptions)
      ==> id in r.frames && Drops(r.frames[id], worker, t)
    ensures Invariant(r)
  {
    hide Invariant, OnlyFrame, FrameOk;
    QuietKeeps(s, r, id);
  }

  lemma BeginKeeps(s: System, id: nat, worker: nat, change: Change, handler: Handler)
    requires Invariant(s)
    ensures Invariant(NextBegin(s, id, worker, change, handler))
  {
    hide Invariant;
    var r := NextBegin(s, id, worker, change, handler);
    if r != s {
      MoveKeeps(s, r, id);
    }
  }

  lemma ArriveKeeps(s: System, id: nat, worker: nat, token: Token)
    requires Invariant(s) && id !in s.frames
    ensures Invariant(WithFrame(s, id, worker, Serving(token)))
  {
    hide Invariant;
    MoveKeeps(s, WithFrame(s, id, worker, Serving(token)), id);
  }

  /** A live token is taken out exactly when the change targets it. */
  lemma GoneIsTargeted(change: Change, s: State, t: Token)
    requires t in s.subscriptions
    ensures t in Gone(change, s) <==> Targets(change, t, s.subscriptions[t])
  {
  }

  /** What the invariant says of an open call. */
  lemma OpenCall(s: System, id: nat)
    requires Invariant(s) && id in s.frames
    ensures FrameOk(s, s.frames[id]) && SubscriptionsIssued(s.state, s.issued) && Exact(s.state)
  {
    hide Exact, FrameOk;
  }

  /** A call that has deleted the handler of a live token will take that token out. */
  lemma DroppedIsTargeted(s: System, id: nat, t: Token)
    requires Invariant(s) && id in s.frames && (s.frames[id].call.Reading? || s.frames[id].call.Writing?)
    requires t in s.frames[id].call.dropped && t in s.state.subscriptions
    ensures t in Gone(s.frames[id].call.change, s.state)
    ensures Targets(s.frames[id].call.change, t, s.state.subscriptions[t])
    ensures s.state.subscriptions[t].worker == s.frames[id].worker
  {
    hide Invariant, Exact, Gone, Targets, AfterOk, BaseOk;
    OpenCall(s, id);
    GoneIsTargeted(s.frames[id].call.change, s.state, t);
  }

  /** A call whose change throws has deleted no handler in an earlier, refused attempt. */
  lemma ThrownDroppedNothing(s: System, id: nat)
    requires Invariant(s) && id in s.frames && s.frames[id].call.Reading?
    requires Apply(s.frames[id].call.change, s.state).Thrown?
    ensures s.frames[id].call.dropped == {}
  {
    hide Invariant, Exact;
    OpenCall(s, id);
  }

  lemma ReadKeeps(s: System, id: nat)
    requires Invariant(s)
    ensures Invariant(NextRead(s, id))
  {
    hide Invariant, Apply, NextRead;
    if id in s.frames && s.frames[id].call.Reading? {
      if Apply(s.frames[id].call.change, s.state).Thrown? {
        ReadThrows(s, id);
      } else {
        ReadOpens(s, id);
      }
    } else {
      ReadsNothing(s, id);
    }
  }

  lemma ReadsNothing(s: System, id: nat)
    requires !(id in s.frames && s.frames[id].call.Reading?)
    ensures NextRead(s, id) == s
  {
  }

  lemma ReadThrows(s: System, id: nat)
    requires Invariant(s) && id in s.frames && s.frames[id].call.Reading?
    requires Apply(s.frames[id].call.change, s.state).Thrown?
    ensures Invariant(NextRead(s, id))
  {
    hide Invariant, Apply, FrameOk, Mine;
    var r := NextRead(s, id);
    ThrownDroppedNothing(s, id);
    MoveKeeps(s, r, id);
  }

  lemma ReadOpens(s: System, id: nat)
    requires Invariant(s) && id in s.frames && s.frames[id].call.Reading?
    requires Apply(s.frames[id].call.change, s.state).Changed?
    ensures Invariant(NextRead(s, id))
  {
    hide Invariant, Apply, FrameOk, Mine, Exact;
    var r := NextRead(s, id);
    OpensOk(s, id);
    assert forall t :: t in s.state.subscriptions ==> HandlerRespected(s, r, id, t);
    QuietKeeps(s, r, id);
  }

  lemma OpensOk(s: System, id: nat)
    requires Invariant(s) && id in s.frames && s.frames[id].call.Reading?
    requires Apply(s.frames[id].call.change, s.state).Changed?
    ensures FrameOk(NextRead(s, id), NextRead(s, id).frames[id])
  {
    hide Invariant, Apply, Exact, Gone, Targets, AfterOk;
    OpenCall(s, id);
    var worker, change := s.frames[id].worker, s.frames[id].call.change;
    forall t | t in Mine(change, s.state, worker) ensures Targets(change, t, s.state.subscriptions[t]) {
      GoneIsTargeted(change, s.state, t);
    }
  }

  lemma RefusedKeeps(s: System, id: nat)
    requires Invariant(s) && Writes(s, id)
    ensures Invariant(Refused(s, id))
  {
    hide Invariant, Apply, Exact, AfterOk, DroppedOk;
    OpenCall(s, id);
    MoveKeeps(s, Refused(s, id), id);
  }

  lemma LookKeeps(s: System, id: nat, matches: bool)
    requires Invariant(s)
    ensures Invariant(NextLook(s, id, matches))
  {
    hide Invariant, Exact, IssuedBy;
    var r := NextLook(s, id, matches);
    if id in s.frames && s.frames[id].call.Serving? {
      ServedHandler(s, Slot(s.frames[id].worker, s.frames[id].call.token));
      QuietKeeps(s, r, id);
    }
  }

  /** A held handler of a live token is the one subscribed under it. */
  lemma ServedHandler(s: System, k: Slot)
    requires Invariant(s)
    ensures k in s.handlers && k.token in s.state.subscriptions ==>
      && Subscribers(s.issued, k.worker, k.token, s.handlers[k], s.state.subscriptions[k.token].owner)
      && s.issued[k.token].sub == s.state.subscriptions[k.token]
  {
    hide Exact, FrameOk, OnceOk, RunsOk, AllHandled;
  }

  /** A run moves its token from the frame to the runs. */
  lemma FireKeeps(s: System, id: nat)
    requires Invariant(s)
    ensures Invariant(NextFire(s, id))
  {
    hide Exact, FrameOk, OnceOk, RunsOk, FramesOk, AllHandled, Replay;
    var r := NextFire(s, id);
    if id in s.frames && s.frames[id].call.Running? {
      FramesStayOk(s, r, id);
      FireKeepsOnce(s, id);
      FireKeepsRuns(s, id);
      AllHandledStays(s, r, id);
    }
  }

  lemma FireKeepsOnce(s: System, id: nat)
    requires OnceOk(s) && id in s.frames && s.frames[id].call.Running?
    ensures OnceOk(NextFire(s, id))
  {
  }

  lemma FireKeepsRuns(s: System, id: nat)
    requires RunsOk(s) && FramesOk(s) && id in s.frames && s.frames[id].call.Running?
    ensures RunsOk(NextFire(s, id))
  {
    var r := NextFire(s, id);
    assert FrameOk(s, s.frames[id]);
    forall i | 0 <= i < |r.runs| ensures RunOk(r, r.runs[i]) {
      if i < |s.runs| {
        assert RunOk(s, s.runs[i]);
      }
    }
  }

  // ----- Accepted writes -----

  /** An accepted write changes the very state it read. */
  lemma CommitsToState(s: System, id: nat)
    requires Invariant(s) && Commits(s, id)
    ensures var call := s.frames[id].call;
      && call.base == s.state && Apply(call.change, s.state) == Changed(NewState(s, id),
        Apply(call.change, s.state).reply)
      && AfterOk(s.issued, s.frames[id].worker, call.change, call.after) && Exact(s.state)
  {
    hide Invariant, Exact, Apply, AfterOk, DroppedOk;
    OpenCall(s, id);
  }

  /** What an accepted write does to the subscriptions. */
  lemma CommittedState(s: System, id: nat)
    requires Invariant(s) && Commits(s, id)
    ensures var change, r := s.frames[id].call.change, NewState(s, id);
      && Exact(r)
      && r.subscriptions == (if change.Subscribe?
                             then s.state.subscriptions[TokenOf(s.state.sequence + 1) := change.sub]
                             else s.state.subscriptions - Gone(change, s.state))
      && r.spent == (if change.Spend? then s.state.spent + Gone(change, s.state) else s.state.spent)
      && r.sequence == (if change.Subscribe? then s.state.sequence + 1 else s.state.sequence)
  {
    hide Invariant, Exact, Apply, AfterOk, NewState, Gone;
    CommitsToState(s, id);
    EveryVerbKeepsExact(s.frames[id].call.change, s.state);
    WhatChanges(s.frames[id].call.change, s.state);
  }

  lemma CommitKeepsSequential(s: System, id: nat)
    requires Invariant(s) && Commits(s, id)
    ensures Sequential(Committed(s, id))
  {
    hide Exact, Apply, AfterOk, NewState, FramesOk, OnceOk, AllHandled, HandlersOk, RunsOk;
    CommitsToState(s, id);
    CommittedState(s, id);
    assert (s.log + [s.frames[id].call.change])[..|s.log|] == s.log;
  }

  /** A token issued now is new. */
  lemma IssuesNew(s: System)
    requires Invariant(s)
    ensures TokenOf(s.state.sequence + 1) !in s.issued
  {
    hide IssuedBy, TokenOf;
    NextTokenIsNew(s.state.sequence);
  }

  lemma CommitIsLater(s: System, id: nat)
    requires Invariant(s) && Commits(s, id)
    ensures Later(s, Committed(s, id))
    ensures forall t :: t in Committed(s, id).issued && t !in s.issued ==> t == TokenOf(s.state.sequence + 1)
  {
    hide Invariant, Exact, NewState, Gone, TokenOf;
    CommittedState(s, id);
    IssuesNew(s);
  }

  lemma CommitKeepsIssues(s: System, id: nat)
    requires Invariant(s) && Commits(s, id)
    ensures IssuesOk(Committed(s, id))
  {
    hide Exact, NewState, Gone, TokenOf, IssuedBy, Apply, FramesOk, OnceOk, AllHandled, HandlersOk, RunsOk, Replay;
    CommitsToState(s, id);
    CommittedState(s, id);
    var r := Committed(s, id);
    IssuesNew(s);
    NextTokenIsNew(s.state.sequence);
    forall t | t in r.issued ensures IssuedBy(r.state.sequence, t) {
      if t in s.issued {
        StaysIssued(s.state.sequence, r.state.sequence, t);
      }
    }
  }

  /** A token its own change has just spent was live, so nothing had run it before. */
  lemma CommitKeepsFrames(s: System, id: nat)
    requires Invariant(s) && Commits(s, id)
    ensures FramesOk(Committed(s, id)) && OnlyFrame(s, Committed(s, id), id)
  {
    hide Invariant, Exact, NewState, TokenOf, IssuedBy, Apply, FramesOk, Deleted, Remembered;
    CommitsToState(s, id);
    CommittedState(s, id);
    CommitIsLater(s, id);
    OpenCalls(s);
    FramesStayOk(s, Committed(s, id), id);
  }

  lemma OpenCalls(s: System)
    requires Invariant(s)
    ensures FramesOk(s) && RunsOk(s) && OnceOk(s) && AllHandled(s) && HandlersOk(s) && IssuesOk(s)
  {
  }

  lemma CommitKeepsHandlers(s: System, id: nat)
    requires Invariant(s) && Commits(s, id)
    ensures HandlersOk(Committed(s, id))
  {
    hide Invariant, Exact, NewState, TokenOf, IssuedBy, Apply, FramesOk, OnceOk, RunsOk, AllHandled;
    CommitsToState(s, id);
    CommittedState(s, id);
    CommitIsLater(s, id);
    OpenCalls(s);
  }

  lemma CommitKeepsRuns(s: System, id: nat)
    requires Invariant(s) && Commits(s, id)
    ensures RunsOk(Committed(s, id))
  {
    hide Invariant, Exact, NewState, TokenOf, IssuedBy, Apply, FramesOk, OnceOk, RunsOk, AllHandled, Later;
    CommitIsLater(s, id);
    OpenCalls(s);
    RunsStayOk(s, Committed(s, id));
  }

  lemma CommitKeepsOnce(s: System, id: nat)
    requires Invariant(s) && Commits(s, id)
    ensures OnceOk(Committed(s, id))
  {
    hide Invariant, Exact, NewState, TokenOf, IssuedBy, Apply, FramesOk, OnceOk, RunsOk, AllHandled;
    var call, r := s.frames[id].call, Committed(s, id);
    CommitsToState(s, id);
    CommitIsLater(s, id);
    CommitKeepsFrames(s, id);
    OpenCalls(s);
    if call.change.Spend? && call.change.token in s.state.subscriptions {
      ClaimedIsUnrun(s, call.change.token);
      OnceBegins(s, r, id, call.change.token);
    } else {
      OnceStays(s, r, id);
    }
  }

  /** No frame runs a live once token, and none has. */
  lemma ClaimedIsUnrun(s: System, t: Token)
    requires Invariant(s) && t in s.state.subscriptions && IsOnce(s.issued, t)
    ensures forall a :: a in s.frames ==> !RunsToken(s.frames[a], t)
    ensures forall i :: 0 <= i < |s.runs| ==> s.runs[i].token != t
  {
    hide IssuedBy, ListOk, AfterOk, DroppedOk, BaseOk, AllHandled, HandlersOk, OnceOk, Replay, IssuesOk;
    assert LiveOk(s.state, t);
    forall a | a in s.frames ensures !RunsToken(s.frames[a], t) {
      assert FrameOk(s, s.frames[a]);
    }
    forall i | 0 <= i < |s.runs| ensures s.runs[i].token != t {
      assert RunOk(s, s.runs[i]);
    }
  }

  lemma OnceBegins(s: System, r: System, id: nat, t: Token)
    requires OnceOk(s) && OnlyFrame(s, r, id) && r.runs == s.runs && r.issued == s.issued
    requires forall a :: a in s.frames ==> !RunsToken(s.frames[a], t)
    requires forall i :: 0 <= i < |s.runs| ==> s.runs[i].token != t
    requires id in r.frames && RunsToken(r.frames[id], t)
    ensures OnceOk(r)
  {
  }

  lemma CommitKeepsHandled(s: System, id: nat)
    requires Invariant(s) && Commits(s, id)
    ensures AllHandled(Committed(s, id))
  {
    hide Invariant, Exact, NewState, TokenOf, IssuedBy, Apply, FramesOk, OnceOk, RunsOk, AllHandled, Gone, LiveHandled,
      HandlerRespected, Committed, OnlyFrame;
    var r := Committed(s, id);
    CommitKeepsFrames(s, id);
    OpenCalls(s);
    forall t | t in r.state.subscriptions
      ensures if t in s.state.subscriptions then HandlerRespected(s, r, id, t) else LiveHandled(r, t)
    {
      if t in s.state.subscriptions {
        CommitRespects(s, id, t);
      } else {
        CommitHandlesNew(s, id, t);
      }
    }
    AllHandledStays(s, r, id);
  }

  /** A token still live after the write keeps its handler, and the writing call had not deleted it. */
  lemma CommitRespects(s: System, id: nat, t: Token)
    requires Invariant(s) && Commits(s, id) && t in s.state.subscriptions
    ensures HandlerRespected(s, Committed(s, id), id, t)
  {
    hide Invariant, Exact, NewState, TokenOf, IssuedBy, Apply, Targets;
    CommitsToState(s, id);
    CommittedState(s, id);
    SequenceIsNew(s, t);
    if t in s.frames[id].call.dropped {
      DroppedIsTargeted(s, id, t);
    }
  }

  lemma SequenceIsNew(s: System, t: Token)
    requires Invariant(s) && t in s.state.subscriptions
    ensures t != TokenOf(s.state.sequence + 1)
  {
    hide IssuedBy, TokenOf;
    IssuesNew(s);
  }

  /** A new subscription's handler is in place when its call returns. */
  lemma CommitHandlesNew(s: System, id: nat, t: Token)
    requires Invariant(s) && Commits(s, id) && t !in s.state.subscriptions && t in Committed(s, id).state.subscriptions
    ensures LiveHandled(Committed(s, id), t)
  {
    hide Invariant, Exact, NewState, TokenOf, IssuedBy, Apply, Gone, Remembered, Deleted, BeingDropped;
    CommitsToState(s, id);
    CommittedState(s, id);
  }

  lemma CommitKeeps(s: System, id: nat)
    requires Invariant(s) && Commits(s, id)
    ensures Invariant(Committed(s, id))
  {
    hide Sequential, IssuesOk, FramesOk, HandlersOk, OnceOk, RunsOk, AllHandled, Committed, Commits;
    CommitKeepsSequential(s, id);
    CommitKeepsIssues(s, id);
    CommitKeepsFrames(s, id);
    CommitKeepsHandlers(s, id);
    CommitKeepsOnce(s, id);
    CommitKeepsRuns(s, id);
    CommitKeepsHandled(s, id);
  }

  // ----- Whole runs -----

  lemma EveryStepKeeps(s: System, step: Step)
    requires Invariant(s)
    ensures Invariant(Next(s, step))
  {
    hide Invariant, NextBegin, NextRead, NextLook, NextFire, Refused, Committed;
    match step
    case Begin(id, worker, change, handler) => BeginKeeps(s, id, worker, change, handler);
    case Arrive(id, worker, token) => if id !in s.frames { ArriveKeeps(s, id, worker, token); }
    case Read(id) => ReadKeeps(s, id);
    case Write(id) =>
      if Commits(s, id) {
        CommitKeeps(s, id);
      } else if Writes(s, id) {
        RefusedKeeps(s, id);
      }
    case Look(id, matches) => LookKeeps(s, id, matches);
    case Fire(id) => FireKeeps(s, id);
  }

  lemma {:induction false} EveryRunKeeps(steps: seq<Step>)
    ensures Invariant(Run(steps))
  {
    hide Next;
    if steps != [] {
      EveryRunKeeps(steps[..|steps| - 1]);
      EveryStepKeeps(Run(steps[..|steps| - 1]), steps[|steps| - 1]);
    }
  }

  /** Every state is the committed changes applied one after the other, and its index is exact. */
  lemma StatesAreSequential(steps: seq<Step>)
    ensures Replay(Run(steps).log) == Some(Run(steps).state) && Exact(Run(steps).state)
  {
    hide Run, Exact, Replay;
    EveryRunKeeps(steps);
  }

  /** Whatever the workers do, a once handler runs at most once. */
  lemma OnceRunsAtMostOnce(steps: seq<Step>, i: nat, j: nat)
    requires i < |Run(steps).runs| && j < |Run(steps).runs|
    requires Run(steps).runs[i].token == Run(steps).runs[j].token
    requires IsOnce(Run(steps).issued, Run(steps).runs[i].token)
    ensures i == j
  {
    hide Run;
    EveryRunKeeps(steps);
    OpenCalls(Run(steps));
  }

  /** Every run is of the handler, for the owner and on the worker that subscribed under its token. */
  lemma RunsAreTheSubscribers(steps: seq<Step>, i: nat)
    requires i < |Run(steps).runs|
    ensures var r := Run(steps).runs[i]; Subscribers(Run(steps).issued, r.worker, r.token, r.handler, r.owner)
  {
    hide Run;
    EveryRunKeeps(steps);
    OpenCalls(Run(steps));
    assert RunOk(Run(steps), Run(steps).runs[i]);
  }

  /** A live subscription has its own handler with its worker, unless a call still open has deleted it. */
  lemma LiveSubscriptionsKeepTheirHandlers(steps: seq<Step>, t: Token)
    requires t in Run(steps).state.subscriptions
    ensures var s := Run(steps); var slot := Slot(s.state.subscriptions[t].worker, t);
      if slot in s.handlers then t in s.issued && s.handlers[slot] == s.issued[t].handler
      else BeingDropped(s.frames, slot.worker, t)
  {
    hide Run, BeingDropped;
    EveryRunKeeps(steps);
    OpenCalls(Run(steps));
    assert LiveHandled(Run(steps), t);
  }

  /** When a call ends, or goes on to run its handler, no token it deleted a handler of is live. */
  lemma DroppedAreGone(s: System, step: Step, id: nat, t: Token)
    requires Invariant(s) && id in s.frames && Drops(s.frames[id], s.frames[id].worker, t)
    requires id !in Next(s, step).frames || !Drops(Next(s, step).frames[id], s.frames[id].worker, t)
    ensures t !in Next(s, step).state.subscriptions
  {
    hide Invariant, Exact, Apply, Committed, NewState, Targets, BeingDropped;
    if t in Next(s, step).state.subscriptions {
      EndsByReadOrWrite(s, step, id, t);
      if step.Read? {
        ThrownDroppedNothing(s, id);
      } else {
        WrittenIsGone(s, id, t);
      }
    }
  }

  lemma EndsByReadOrWrite(s: System, step: Step, id: nat, t: Token)
    requires id in s.frames && Drops(s.frames[id], s.frames[id].worker, t)
    requires id !in Next(s, step).frames || !Drops(Next(s, step).frames[id], s.frames[id].worker, t)
    ensures || (step == Read(id) && s.frames[id].call.Reading? && Apply(s.frames[id].call.change, s.state).Thrown?
                && Next(s, step).state == s.state)
            || (step == Write(id) && Commits(s, id) && Next(s, step) == Committed(s, id))
  {
    hide Apply, Committed, Mine, Deleted;
    if step.Write? && Writes(s, step.id) {
      CommitMovesOneCall(s, step.id);
    }
  }

  lemma CommitMovesOneCall(s: System, id: nat)
    requires Writes(s, id)
    ensures OnlyFrame(s, Committed(s, id), id)
  {
    hide NewState, Deleted, Remembered, TokenOf;
  }

  lemma WrittenIsGone(s: System, id: nat, t: Token)
    requires Invariant(s) && Commits(s, id) && t in s.frames[id].call.dropped
    ensures t !in Committed(s, id).state.subscriptions
  {
    hide Invariant, Exact, Apply, NewState, Gone, TokenOf, Targets, Deleted, Remembered;
    CommittedState(s, id);
    CommitsToState(s, id);
    DroppedWasIssued(s, id, t);
    if t in s.state.subscriptions {
      DroppedIsTargeted(s, id, t);
      GoneByNoSubscribe(s.frames[id].call.change, s.state, t);
    }
  }

  lemma GoneByNoSubscribe(change: Change, s: State, t: Token)
    requires t in Gone(change, s)
    ensures !change.Subscribe?
  {
  }

  lemma DroppedWasIssued(s: System, id: nat, t: Token)
    requires Invariant(s) && Commits(s, id) && t in s.frames[id].call.dropped
    ensures t != TokenOf(s.state.sequence + 1)
  {
    hide Invariant, Exact, Apply, TokenOf;
    OpenCall(s, id);
    IssuesNew(s);
  }

  // ----- What the committed changes say -----

  /** The `k`-th committed change took `t`, live until then, to be run. */
  ghost predicate ClaimsAt(log: seq<Change>, k: nat, t: Token) {
    k < |log| && log[k] == Spend(t) && Replay(log[..k]).Some? && t in Replay(log[..k]).value.subscriptions
  }

  /** The token the `k`-th committed change issued. */
  ghost predicate IssuesAt(log: seq<Change>, k: nat, t: Token) {
    k < |log| && log[k].Subscribe? && Replay(log[..k]).Some? && t == TokenOf(Replay(log[..k]).value.sequence + 1)
  }

  lemma {:induction false} ReplayedIsExact(log: seq<Change>)
    requires Replay(log).Some?
    ensures Exact(Replay(log).value)
  {
    hide Apply;
    if log == [] {
      assert Exact(BLANK);
    } else {
      ReplayedIsExact(log[..|log| - 1]);
      EveryVerbKeepsExact(log[|log| - 1], Replay(log[..|log| - 1]).value);
    }
  }

  /** Spent tokens stay spent and the sequence never falls, from one prefix of the log to a longer one. */
  lemma {:induction false} ReplayGrows(log: seq<Change>, k: nat)
    requires k <= |log| && Replay(log).Some?
    ensures Replay(log[..k]).Some?
    ensures Replay(log[..k]).value.spent <= Replay(log).value.spent
    ensures Replay(log[..k]).value.sequence <= Replay(log).value.sequence
    decreases |log|
  {
    hide Apply, Exact, Gone;
    if k == |log| {
      assert log[..k] == log;
    } else {
      var front := log[..|log| - 1];
      ReplayGrows(front, k);
      assert front[..k] == log[..k];
      ReplayedIsExact(front);
      WhatChanges(log[|log| - 1], Replay(front).value);
    }
  }

  /** One committed change, replayed. */
  lemma ReplayStep(log: seq<Change>, k: nat)
    requires k < |log| && Replay(log).Some?
    ensures Replay(log[..k]).Some? && Replay(log[..k + 1]).Some?
    ensures Apply(log[k], Replay(log[..k]).value).Changed?
    ensures Replay(log[..k + 1]).value == Apply(log[k], Replay(log[..k]).value).state
    ensures Exact(Replay(log[..k]).value)
  {
    hide Apply, Exact;
    ReplayGrows(log, k);
    ReplayGrows(log, k + 1);
    assert log[..k + 1][..k] == log[..k];
    ReplayedIsExact(log[..k]);
  }

  /** A token is claimed by one committed change at most. */
  lemma ClaimedOnce(log: seq<Change>, j: nat, k: nat, t: Token)
    requires Replay(log).Some? && j < k && ClaimsAt(log, j, t)
    ensures !ClaimsAt(log, k, t)
  {
    hide Apply, Exact, Replay;
    if k < |log| {
      ReplayStep(log, j);
      WhatChanges(log[j], Replay(log[..j]).value);
      ReplayGrows(log, k);
      ReplayGrows(log[..k], j + 1);
      assert log[..k][..j + 1] == log[..j + 1];
      ReplayedIsExact(log[..k]);
      SpentIsNotLive(Replay(log[..k]).value, t);
    }
  }

  lemma SpentIsNotLive(s: State, t: Token)
    requires Exact(s) && t in s.spent
    ensures t !in s.subscriptions
  {
    assert t in s.subscriptions ==> LiveOk(s, t);
  }

  /** A spent token was claimed by a committed change. */
  lemma {:induction false} SpentWasClaimed(log: seq<Change>, t: Token) returns (k: nat)
    requires Replay(log).Some? && t in Replay(log).value.spent
    ensures ClaimsAt(log, k, t)
  {
    hide Apply, Exact;
    var front := log[..|log| - 1];
    ReplayedIsExact(front);
    WhatChanges(log[|log| - 1], Replay(front).value);
    if t in Replay(front).value.spent {
      k := SpentWasClaimed(front, t);
      assert front[..k] == log[..k];
    } else {
      k := |log| - 1;
    }
  }

  /** Every run of a once handler follows one committed removal of its token, and no other run follows it. */
  lemma OnceRunsFollowOneClaim(steps: seq<Step>, i: nat) returns (k: nat)
    requires i < |Run(steps).runs| && IsOnce(Run(steps).issued, Run(steps).runs[i].token)
    ensures ClaimsAt(Run(steps).log, k, Run(steps).runs[i].token)
    ensures forall j: nat :: j != k ==> !ClaimsAt(Run(steps).log, j, Run(steps).runs[i].token)
  {
    hide Run, Replay, ClaimsAt, Exact, IsOnce, Subscribers;
    var s := Run(steps);
    EveryRunKeeps(steps);
    OpenCalls(s);
    assert RunOk(s, s.runs[i]);
    StatesAreSequential(steps);
    var t := s.runs[i].token;
    k := SpentWasClaimed(s.log, t);
    forall j: nat | j != k ensures !ClaimsAt(s.log, j, t) {
      if ClaimsAt(s.log, j, t) {
        if j < k {
          ClaimedOnce(s.log, j, k, t);
        } else {
          ClaimedOnce(s.log, k, j, t);
        }
      }
    }
  }

  /** No token is issued by two committed changes. */
  lemma NoTokenIssuedTwice(steps: seq<Step>, j: nat, k: nat, t: Token)
    requires IssuesAt(Run(steps).log, j, t) && IssuesAt(Run(steps).log, k, t)
    ensures j == k
  {
    hide Run, Replay, Apply, Exact, TokenOf;
    StatesAreSequential(steps);
    var log := Run(steps).log;
    if j < k {
      IssuesRise(log, j, k);
    } else if k < j {
      IssuesRise(log, k, j);
    }
    TokensDiffer(Replay(log[..j]).value.sequence + 1, Replay(log[..k]).value.sequence + 1);
  }

  lemma IssuesRise(log: seq<Change>, j: nat, k: nat)
    requires j < k < |log| && Replay(log).Some? && log[j].Subscribe?
    ensures Replay(log[..j]).Some? && Replay(log[..k]).Some?
    ensures Replay(log[..j]).value.sequence < Replay(log[..k]).value.sequence
  {
    hide Replay, Apply, Exact, TokenOf;
    ReplayStep(log, j);
    WhatChanges(log[j], Replay(log[..j]).value);
    ReplayGrows(log, k);
    ReplayGrows(log[..k], j + 1);
    assert log[..k][..j + 1] == log[..j + 1];
  }
}
