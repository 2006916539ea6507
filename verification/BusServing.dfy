/**
 Who is served in a run of several workers (`serve` of runtimes/js/src/event-bus-kernel.ts): a live
 subscription runs its handler whenever its worker is asked, and no claimed one is lost.
 */
module BusServing {
  import opened Prelude
  import opened EventBus
  import opened BusRuns

  // ----- A live subscription is served -----

  lemma RunStep(steps: seq<Step>, step: Step)
    ensures Run(steps + [step]) == Next(Run(steps), step)
  {
    hide Next;
    assert (steps + [step])[..|steps|] == steps;
  }

  lemma RunTwo(steps: seq<Step>, a: Step, b: Step)
    ensures Run(steps + [a, b]) == Next(Next(Run(steps), a), b)
  {
    hide Next, Run;
    RunStep(steps, a);
    RunStep(steps + [a], b);
    assert steps + [a, b] == steps + [a] + [b];
  }

  /** The run a worker's handler makes, for the owner it was subscribed for. */
  ghost function RunOf(issued: map<Token, Issue>, worker: nat, t: Token): HandlerRun
    requires t in issued
  {
    HandlerRun(worker, t, issued[t].handler, issued[t].sub.owner)
  }

  /** `worker` holds a handler for the live token `t`. */
  ghost predicate Held(s: System, worker: nat, t: Token) {
    Slot(worker, t) in s.handlers && t in s.state.subscriptions
  }

  lemma HeldIsIssued(s: System, worker: nat, t: Token)
    requires Invariant(s) && Held(s, worker, t)
    ensures t in s.issued && s.issued[t].sub == s.state.subscriptions[t]
    ensures s.handlers[Slot(worker, t)] == s.issued[t].handler
  {
    hide Invariant;
    ServedHandler(s, Slot(worker, t));
  }

  /** What looking comes to: the handler is to run, is to be claimed first, or the call ends. */
  lemma LookDecides(s: System, id: nat, worker: nat, t: Token, matches: bool)
    requires Invariant(s) && id in s.frames && s.frames[id] == Frame(worker, Serving(t))
    ensures var r := NextLook(s, id, matches);
      && r == s.(frames := r.frames, handlers := r.handlers)
      && if Held(s, worker, t) && matches
         then && t in s.issued && r.handlers == s.handlers
              && r.frames == s.frames[id := Frame(worker,
                   if s.issued[t].sub.once
                   then Reading(Spend(t), Invoke(s.issued[t].handler, s.issued[t].sub.owner), {})
                   else Running(t, s.issued[t].handler, s.issued[t].sub.owner))]
         else r.frames == s.frames - {id}
  {
    hide Invariant, Deleted;
    if Held(s, worker, t) {
      HeldIsIssued(s, worker, t);
    }
  }

  /** A persistent handler runs whenever its worker is asked and the match holds, and nothing else changes. */
  lemma PersistentHandlerRuns(steps: seq<Step>, id: nat, worker: nat, t: Token)
    requires var s := Run(steps); id !in s.frames && Held(s, worker, t) && !s.state.subscriptions[t].once
    ensures var s := Run(steps);
      && t in s.issued
      && Run(steps + [Arrive(id, worker, t), Look(id, true), Fire(id)])
         == s.(runs := s.runs + [RunOf(s.issued, worker, t)])
  {
    hide Run, Invariant, NextLook;
    var s := Run(steps);
    EveryRunKeeps(steps);
    HeldIsIssued(s, worker, t);
    var arrived := Next(s, Arrive(id, worker, t));
    EveryStepKeeps(s, Arrive(id, worker, t));
    LookDecides(arrived, id, worker, t, true);
    RunTwo(steps, Arrive(id, worker, t), Look(id, true));
    RunStep(steps + [Arrive(id, worker, t), Look(id, true)], Fire(id));
    assert steps + [Arrive(id, worker, t), Look(id, true), Fire(id)]
        == steps + [Arrive(id, worker, t), Look(id, true)] + [Fire(id)];
    assert NextLook(arrived, id, true).frames - {id} == s.frames;
  }

  /** A claim of a live once token that nobody overtakes: the token is spent and its handler is to run. */
  lemma ClaimCommits(s: System, id: nat, worker: nat, t: Token, handler: Handler, owner: Owner)
    requires Invariant(s) && t in s.state.subscriptions
    requires id in s.frames && s.frames[id] == Frame(worker, Reading(Spend(t), Invoke(handler, owner), {}))
    ensures var r := NextWrite(NextRead(s, id), id);
      && r.state == Spent(s.state, t) && r.runs == s.runs && r.issued == s.issued
      && r.frames == s.frames[id := Frame(worker, Running(t, handler, owner))]
      && Slot(worker, t) !in r.handlers
  {
    hide Invariant, Detached;
  }

  /** A once handler runs when its worker is asked and the match holds; its token is spent. */
  lemma OnceHandlerRuns(steps: seq<Step>, id: nat, worker: nat, t: Token)
    requires var s := Run(steps); id !in s.frames && Held(s, worker, t) && s.state.subscriptions[t].once
    ensures var s, r := Run(steps), Run(steps + [Arrive(id, worker, t), Look(id, true), Read(id), Write(id), Fire(id)]);
      && t in s.issued && r.runs == s.runs + [RunOf(s.issued, worker, t)]
      && r.frames == s.frames && r.issued == s.issued && Slot(worker, t) !in r.handlers
      && t in r.state.spent && t !in r.state.subscriptions
  {
    hide Run, Invariant, NextLook, NextRead, NextWrite;
    var s := Run(steps);
    EveryRunKeeps(steps);
    HeldIsIssued(s, worker, t);
    var arrived := Next(s, Arrive(id, worker, t));
    EveryStepKeeps(s, Arrive(id, worker, t));
    LookDecides(arrived, id, worker, t, true);
    var looked := NextLook(arrived, id, true);
    EveryStepKeeps(arrived, Look(id, true));
    ClaimCommits(looked, id, worker, t, s.issued[t].handler, s.issued[t].sub.owner);
    var ran := steps + [Arrive(id, worker, t), Look(id, true)];
    RunTwo(steps, Arrive(id, worker, t), Look(id, true));
    RunTwo(ran, Read(id), Write(id));
    RunStep(ran + [Read(id), Write(id)], Fire(id));
    assert steps + [Arrive(id, worker, t), Look(id, true), Read(id), Write(id), Fire(id)]
        == ran + [Read(id), Write(id)] + [Fire(id)];
    var running := Frame(worker, Running(t, s.issued[t].handler, s.issued[t].sub.owner));
    assert looked.frames[id := running] - {id} == s.frames;
  }

  /** Without a handler, a live token or a match the call ends at once, and nothing runs. */
  lemma NothingRuns(steps: seq<Step>, id: nat, worker: nat, t: Token, matches: bool)
    requires id !in Run(steps).frames && !(Held(Run(steps), worker, t) && matches)
    ensures var s, r := Run(steps), Run(steps + [Arrive(id, worker, t), Look(id, matches)]);
      r == s.(handlers := r.handlers)
  {
    hide Run, Invariant, NextLook;
    var s := Run(steps);
    EveryRunKeeps(steps);
    var arrived := Next(s, Arrive(id, worker, t));
    EveryStepKeeps(s, Arrive(id, worker, t));
    LookDecides(arrived, id, worker, t, matches);
    RunTwo(steps, Arrive(id, worker, t), Look(id, matches));
    assert NextLook(arrived, id, matches).frames == s.frames;
  }

  /** Every live subscription no open call is taking out is served by its own worker. */
  lemma LiveIsServed(steps: seq<Step>, id: nat, t: Token)
    requires id !in Run(steps).frames && t in Run(steps).state.subscriptions
    requires !BeingDropped(Run(steps).frames, Run(steps).state.subscriptions[t].worker, t)
    ensures var s := Run(steps); var w := s.state.subscriptions[t].worker;
      && t in s.issued && s.issued[t].sub == s.state.subscriptions[t]
      && Run(steps + if s.state.subscriptions[t].once
                     then [Arrive(id, w, t), Look(id, true), Read(id), Write(id), Fire(id)]
                     else [Arrive(id, w, t), Look(id, true), Fire(id)]).runs
         == s.runs + [RunOf(s.issued, w, t)]
  {
    hide Run, BeingDropped, Invariant;
    var s := Run(steps);
    var w := s.state.subscriptions[t].worker;
    LiveSubscriptionsKeepTheirHandlers(steps, t);
    EveryRunKeeps(steps);
    HeldIsIssued(s, w, t);
    if s.state.subscriptions[t].once {
      OnceHandlerRuns(steps, id, w, t);
    } else {
      PersistentHandlerRuns(steps, id, w, t);
    }
  }

  // ----- Served among other calls -----

  ghost predicate OthersOnly(steps: seq<Step>, id: nat) { forall i :: 0 <= i < |steps| ==> steps[i].id != id }

  ghost predicate SameCall(s: System, r: System, id: nat) {
    (id in r.frames <==> id in s.frames) && (id in s.frames ==> r.frames[id] == s.frames[id])
  }

  lemma OtherStepKeepsCall(s: System, step: Step, id: nat)
    requires step.id != id
    ensures SameCall(s, Next(s, step), id)
  {
    hide Apply, Committed, Mine, Deleted;
    if step.Write? && Writes(s, step.id) {
      CommitMovesOneCall(s, step.id);
    }
  }

  lemma {:induction false} OthersKeepCall(steps: seq<Step>, others: seq<Step>, id: nat)
    requires OthersOnly(others, id)
    ensures SameCall(Run(steps), Run(steps + others), id)
    decreases |others|
  {
    hide Next, Run;
    if others == [] {
      assert steps + others == steps;
    } else {
      var front, last := others[..|others| - 1], others[|others| - 1];
      OthersKeepCall(steps, front, id);
      assert steps + others == steps + front + [last];
      RunStep(steps + front, last);
      OtherStepKeepsCall(Run(steps + front), last, id);
    }
  }

  /**
   Whatever other calls do meanwhile, a call that finds its persistent token live and its handler held
   runs that handler, once, even if the token is taken out before it does.
   */
  lemma ServedAmongOthers(
    steps: seq<Step>, before: seq<Step>, after: seq<Step>, id: nat, worker: nat, t: Token)
    requires id !in Run(steps).frames && OthersOnly(before, id) && OthersOnly(after, id)
    requires var s := Run(steps + [Arrive(id, worker, t)] + before);
      Held(s, worker, t) && !s.state.subscriptions[t].once
    ensures var s := Run(steps + [Arrive(id, worker, t)] + before);
      var all := steps + [Arrive(id, worker, t)] + before + [Look(id, true)] + after;
      t in s.issued && Run(all + [Fire(id)]).runs == Run(all).runs + [RunOf(s.issued, worker, t)]
  {
    hide Run, Invariant, NextLook;
    var asked := steps + [Arrive(id, worker, t)];
    RunStep(steps, Arrive(id, worker, t));
    OthersKeepCall(asked, before, id);
    var s := Run(asked + before);
    EveryRunKeeps(asked + before);
    HeldIsIssued(s, worker, t);
    LookDecides(s, id, worker, t, true);
    RunStep(asked + before, Look(id, true));
    OthersKeepCall(asked + before + [Look(id, true)], after, id);
    RunStep(asked + before + [Look(id, true)] + after, Fire(id));
  }

  // ----- Nothing claimed is lost -----

  ghost predicate RunningNow(s: System, t: Token) { exists id :: id in s.frames && RunsToken(s.frames[id], t) }

  ghost predicate HasRun(s: System, t: Token) { exists i :: 0 <= i < |s.runs| && s.runs[i].token == t }

  ghost predicate SpentServed(s: System) { forall t :: t in s.state.spent ==> RunningNow(s, t) || HasRun(s, t) }

  /** A call that runs a token keeps at it until the run is made. */
  lemma RunningStays(s: System, step: Step, id: nat, t: Token)
    requires id in s.frames && RunsToken(s.frames[id], t)
    ensures RunningNow(Next(s, step), t) || HasRun(Next(s, step), t)
  {
    hide Apply, Committed, Mine, Deleted;
    if step.id != id {
      OtherStepKeepsCall(s, step, id);
      assert RunsToken(Next(s, step).frames[id], t);
    } else if step.Fire? {
      assert Next(s, step).runs[|s.runs|].token == t;
    } else {
      assert Next(s, step) == s;
    }
  }

  lemma RunsGrow(s: System, step: Step)
    ensures s.runs <= Next(s, step).runs
  {
    hide Apply, Mine, Deleted, Remembered, NewState;
  }

  /** Only a committed claim of a live token spends one, and it leaves the token running. */
  lemma NewlySpentRuns(s: System, step: Step, t: Token)
    requires Invariant(s) && t in Next(s, step).state.spent && t !in s.state.spent
    ensures RunningNow(Next(s, step), t)
  {
    hide Invariant, Exact, Apply, NewState, Deleted, Remembered, Mine, Committed;
    if step.Write? && Commits(s, step.id) {
      CommittedSpends(s, step.id, t);
    }
  }

  lemma CommittedSpends(s: System, id: nat, t: Token)
    requires Invariant(s) && Commits(s, id) && t in Committed(s, id).state.spent && t !in s.state.spent
    ensures RunningNow(Committed(s, id), t)
  {
    hide Invariant, Exact, Apply, NewState, Deleted, Remembered, TokenOf;
    CommitsToState(s, id);
    CommittedState(s, id);
    var r := Committed(s, id);
    assert id in r.frames && RunsToken(r.frames[id], t);
  }

  lemma StepKeepsServed(s: System, step: Step)
    requires Invariant(s) && SpentServed(s)
    ensures SpentServed(Next(s, step))
  {
    hide Invariant, Next;
    var r := Next(s, step);
    RunsGrow(s, step);
    forall t | t in r.state.spent ensures RunningNow(r, t) || HasRun(r, t) {
      if t !in s.state.spent {
        NewlySpentRuns(s, step, t);
      } else if RunningNow(s, t) {
        var id :| id in s.frames && RunsToken(s.frames[id], t);
        RunningStays(s, step, id, t);
      } else {
        var i :| 0 <= i < |s.runs| && s.runs[i].token == t;
        assert r.runs[i].token == t;
      }
    }
  }

  /** Every spent token has been run or is being run: with `OnceRunsAtMostOnce`, a claim is one run. */
  lemma {:induction false} SpentIsServed(steps: seq<Step>)
    ensures SpentServed(Run(steps))
  {
    hide Next;
    if steps == [] {
      assert SpentServed(START);
    } else {
      var front := steps[..|steps| - 1];
      SpentIsServed(front);
      EveryRunKeeps(front);
      StepKeepsServed(Run(front), steps[|steps| - 1]);
    }
  }
}
