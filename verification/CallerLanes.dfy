/**
 Which mod is running, after `CallerContext` of runtimes/js/src/caller-context.ts and the steps of
 runtimes/js/src/sandbox.ts that enter a lane: an async call runs in a lane of its own, entered when
 it starts and again each time it resumes, and emptied when it settles.
 */
module CallerLanes {
  import opened Prelude

  /** The mod code runs for; none for code the host ran on behalf of no mod. */
  type Mod = Option<string>

  datatype Frame = Frame(id: nat, mod: Mod)

  type Lane = nat

  const ROOT: Lane := 0

  // ----- The context -----

  datatype Lanes = Lanes(frames: map<Lane, seq<Frame>>, active: Lane)

  function FramesOf(s: Lanes, lane: Lane): seq<Frame> {
    if lane in s.frames then s.frames[lane] else []
  }

  function Current(s: Lanes): Mod {
    var frames := FramesOf(s, s.active);
    if frames == [] then None else frames[|frames| - 1].mod
  }

  function Entered(s: Lanes, frame: Frame): Lanes {
    s.(frames := s.frames[s.active := FramesOf(s, s.active) + [frame]])
  }

  function Left(s: Lanes): Lanes {
    var frames := FramesOf(s, s.active);
    if frames == [] then s else s.(frames := s.frames[s.active := frames[..|frames| - 1]])
  }

  /** A frame taken out of the lane it was pushed on, if it is still there. */
  function Removed(frames: seq<Frame>, frame: Frame): seq<Frame> {
    if frames == [] then []
    else if frames[|frames| - 1] == frame then frames[..|frames| - 1]
    else Removed(frames[..|frames| - 1], frame) + [frames[|frames| - 1]]
  }

  /** The frames of the active lane above `depth` dropped. */
  function UnwoundTo(s: Lanes, depth: nat): Lanes {
    var frames := FramesOf(s, s.active);
    if |frames| > depth then s.(frames := s.frames[s.active := frames[..depth]]) else s
  }

  class CallerContext {
    var frames: map<Lane, seq<Frame>>
    var active: Lane

    ghost function Now(): Lanes
      reads this
    {
      Lanes(frames, active)
    }

    constructor ()
      ensures Now() == Lanes(map[ROOT := []], ROOT)
    {
      frames, active := map[ROOT := []], ROOT;
    }

    method CurrentMod() returns (mod: Mod)
      ensures mod == Current(Now())
    {
      var open := if active in frames then frames[active] else [];
      mod := if |open| == 0 then None else open[|open| - 1].mod;
    }

    method Enter(frame: Frame)
      modifies this`frames
      ensures Now() == Entered(old(Now()), frame)
    {
      frames := frames[active := (if active in frames then frames[active] else []) + [frame]];
    }

    method Leave()
      modifies this`frames
      ensures Now() == Left(old(Now()))
    {
      if active in frames && frames[active] != [] {
        frames := frames[active := frames[active][..|frames[active]| - 1]];
      }
    }

    /** The end of `run`: takes its own frame out of the lane it ran in, wherever it stands. */
    method Drop(lane: Lane, frame: Frame)
      requires lane in frames
      modifies this`frames
      ensures Now() == old(Now()).(frames := old(frames)[lane := Removed(old(frames)[lane], frame)])
    {
      var open := frames[lane];
      var i := |open|;
      RemovedBefore(open, |open|, frame);
      while i > 0 && open[i - 1] != frame
        invariant 0 <= i <= |open| && frames == old(frames)
        invariant Removed(open, frame) == Removed(open[..i], frame) + open[i..]
      {
        RemovedBefore(open, i, frame);
        i := i - 1;
      }
      if i > 0 {
        assert open[..i][..i - 1] == open[..i - 1];
        frames := frames[lane := open[..i - 1] + open[i..]];
      } else {
        assert open[0..] == open && Removed(open, frame) == open;
        Unchanged(frames, lane);
      }
    }

    /** The start of `within`; what it returns is what the end puts back. */
    method Switch(lane: Lane) returns (previous: Lane)
      modifies this`active
      ensures previous == old(active) && Now() == old(Now()).(active := lane)
    {
      previous := active;
      active := lane;
    }

    /** Drops every frame of the active lane above `depth`. */
    method UnwindTo(depth: nat)
      modifies this`frames
      ensures Now() == UnwoundTo(old(Now()), depth)
    {
      if active in frames && |frames[active]| > depth {
        frames := frames[active := frames[active][..depth]];
      }
    }
  }

  lemma Unchanged(frames: map<Lane, seq<Frame>>, lane: Lane)
    requires lane in frames
    ensures frames[lane := frames[lane]] == frames
  {
    var same := frames[lane := frames[lane]];
    assert same.Keys == frames.Keys;
    assert forall k :: k in frames ==> same[k] == frames[k];
  }

  lemma RemovedBefore(open: seq<Frame>, i: nat, frame: Frame)
    requires i <= |open|
    ensures i > 0 && open[i - 1] != frame ==>
      Removed(open[..i], frame) + open[i..] == Removed(open[..i - 1], frame) + open[i - 1..]
    ensures i == |open| ==> Removed(open, frame) == Removed(open[..i], frame) + open[i..]
  {
    if i > 0 {
      assert open[..i][..i - 1] == open[..i - 1];
      assert open[i - 1..] == [open[i - 1]] + open[i..];
    }
    assert i == |open| ==> open[..i] == open && open[i..] == [];
  }

  // ----- Runs of many calls -----

  /**
   A host call that is open: it entered a lane, it dispatched to a mod on the active lane, or it guards
   against a script that has to be stopped, remembering how deep the active lane was.
   */
  datatype Entry =
    | Within(lane: Lane, previous: Lane, starts: bool)
    | Dispatch(lane: Lane, frame: Frame, byIdentity: bool, cleared: bool)
    | Guard(lane: Lane, depth: nat)

  datatype Call = Call(frame: Frame, settled: bool)

  /** `open` are the host calls now open, innermost last; `calls` the async calls, by lane. */
  datatype System = System(lanes: Lanes, open: seq<Entry>, calls: map<Lane, Call>, next: nat)

  const START: System := System(Lanes(map[ROOT := []], ROOT), [], map[], 1)

  datatype Step =
    | BeginCall(mod: Mod)
    | Resume(lane: Lane)
    | BeginDispatch(mod: Mod, byIdentity: bool)
    | BeginGuard
    | Return
    | Stop
    | Settle(lane: Lane)
    | LateUnwind(depth: nat)

  function Front<T>(s: seq<T>): seq<T>
    requires s != []
  {
    s[..|s| - 1]
  }

  function Last<T>(s: seq<T>): T
    requires s != []
  {
    s[|s| - 1]
  }

  ghost function Cleared(e: Entry, lane: Lane): Entry {
    if e.Dispatch? && e.lane == lane then e.(cleared := true) else e
  }

  ghost function AllCleared(open: seq<Entry>, lane: Lane): seq<Entry> {
    seq(|open|, i requires 0 <= i < |open| => Cleared(open[i], lane))
  }

  /** The innermost open call returns. */
  ghost function Returned(s: System): System
    requires s.open != []
  {
    var r := s.(open := Front(s.open));
    match Last(s.open)
    case Within(_, previous, _) => r.(lanes := s.lanes.(active := previous))
    case Guard(_, depth) => r.(lanes := UnwoundTo(s.lanes, depth))
    case Dispatch(lane, frame, byIdentity, _) =>
      if byIdentity then
        r.(lanes := s.lanes.(frames := s.lanes.frames[lane := Removed(FramesOf(s.lanes, lane), frame)]))
      else r.(lanes := Left(s.lanes))
  }

  /** A stopped script is caught by a guard, or by the start of an async call. */
  predicate Catches(e: Entry) { e.Guard? || (e.Within? && e.starts) }

  predicate Caught(open: seq<Entry>) { exists i :: 0 <= i < |open| && Catches(open[i]) }

  /** A dispatch the sandbox makes is cut off with the script, before it can leave. */
  predicate CutOff(e: Entry) { e.Dispatch? && !e.byIdentity }

  /** A stop unwinds the host's own calls up to the innermost that catches it, and cuts the sandbox's off. */
  ghost function Stopped(s: System): System
    decreases |s.open|
  {
    if s.open == [] then s
    else if Catches(Last(s.open)) then Returned(s)
    else if CutOff(Last(s.open)) then Stopped(s.(open := Front(s.open)))
    else Stopped(Returned(s))
  }

  /** One step of the host; one that cannot be taken changes nothing. */
  ghost function Next(s: System, step: Step): System {
    match step
    case BeginCall(mod) =>
      var lane, frame := s.next, Frame(s.next, mod);
      System(Lanes(s.lanes.frames[lane := [frame]], lane), s.open + [Within(lane, s.lanes.active, true)],
        s.calls[lane := Call(frame, false)], s.next + 1)
    case Resume(lane) =>
      if lane != ROOT && lane !in s.calls then s
      else s.(lanes := s.lanes.(active := lane), open := s.open + [Within(lane, s.lanes.active, false)])
    case BeginDispatch(mod, byIdentity) =>
      var frame := Frame(s.next, mod);
      s.(lanes := Entered(s.lanes, frame), open := s.open + [Dispatch(s.lanes.active, frame, byIdentity, false)],
         next := s.next + 1)
    case BeginGuard => s.(open := s.open + [Guard(s.lanes.active, |FramesOf(s.lanes, s.lanes.active)|)])
    case Return => if s.open == [] then s else Returned(s)
    case Stop => if Caught(s.open) then Stopped(s) else s
    case Settle(lane) =>
      if lane !in s.calls then s
      else
        System(s.lanes.(frames := s.lanes.frames[lane := []]), AllCleared(s.open, lane),
          s.calls[lane := s.calls[lane].(settled := true)], s.next)
    case LateUnwind(depth) => if s.open != [] then s else s.(lanes := UnwoundTo(s.lanes, depth))
  }

  ghost function Run(steps: seq<Step>): System {
    if steps == [] then START else Next(Run(Front(steps)), Last(steps))
  }

  // ----- Which lane is active -----

  /** The lane the open entries say is active. */
  ghost function ActiveOf(open: seq<Entry>): Lane {
    if open == [] then ROOT else if Last(open).Within? then Last(open).lane else ActiveOf(Front(open))
  }

  /** Each entry remembers the lane that was active before it, or that it was made on. */
  ghost predicate Nested(open: seq<Entry>, calls: map<Lane, Call>) {
    forall i :: 0 <= i < |open| ==>
      && (if open[i].Within? then open[i].previous else open[i].lane) == ActiveOf(open[..i])
      && (open[i].lane == ROOT || open[i].lane in calls)
  }

  ghost predicate ActiveOk(s: System) { s.lanes.active == ActiveOf(s.open) && Nested(s.open, s.calls) }

  lemma Pushed(open: seq<Entry>, e: Entry)
    ensures Front(open + [e]) == open && Last(open + [e]) == e
    ensures ActiveOf(open + [e]) == if e.Within? then e.lane else ActiveOf(open)
  {
    assert Front(open + [e]) == open;
  }

  lemma PushNests(open: seq<Entry>, calls: map<Lane, Call>, e: Entry, more: map<Lane, Call>)
    requires Nested(open, calls) && calls.Keys <= more.Keys && (e.lane == ROOT || e.lane in more)
    requires (if e.Within? then e.previous else e.lane) == ActiveOf(open)
    ensures Nested(open + [e], more)
  {
    hide ActiveOf;
    var longer := open + [e];
    assert forall i :: 0 <= i < |open| ==> longer[..i] == open[..i];
    assert longer[..|open|] == open;
  }

  lemma PrefixNests(open: seq<Entry>, calls: map<Lane, Call>)
    requires open != [] && Nested(open, calls)
    ensures Nested(Front(open), calls)
    ensures ActiveOf(Front(open)) == if Last(open).Within? then Last(open).previous else Last(open).lane
    ensures !Last(open).Within? ==> ActiveOf(open) == ActiveOf(Front(open))
  {
    assert forall i :: 0 <= i < |open| - 1 ==> Front(open)[..i] == open[..i];
    assert open[..|open| - 1] == Front(open);
  }

  lemma ReturnStaysActive(s: System)
    requires ActiveOk(s) && s.open != []
    ensures ActiveOk(Returned(s)) && Returned(s).open == Front(s.open) && Returned(s).calls == s.calls
    ensures ActiveOk(s.(open := Front(s.open))) <== !Last(s.open).Within?
  {
    hide ActiveOf, Nested, Removed;
    PrefixNests(s.open, s.calls);
  }

  lemma {:induction false} StopStaysActive(s: System)
    requires ActiveOk(s)
    ensures ActiveOk(Stopped(s)) && Stopped(s).calls == s.calls
    decreases |s.open|
  {
    hide ActiveOk, Returned;
    if s.open != [] {
      ReturnStaysActive(s);
      if CutOff(Last(s.open)) {
        StopStaysActive(s.(open := Front(s.open)));
      } else if !Catches(Last(s.open)) {
        StopStaysActive(Returned(s));
      }
    }
  }

  lemma {:induction false} ActiveKnown(open: seq<Entry>, calls: map<Lane, Call>)
    requires Nested(open, calls)
    ensures ActiveOf(open) == ROOT || ActiveOf(open) in calls
    decreases |open|
  {
    hide Nested;
    if open != [] {
      PrefixNests(open, calls);
      ActiveKnown(Front(open), calls);
      LastKnown(open, calls);
    }
  }

  lemma LastKnown(open: seq<Entry>, calls: map<Lane, Call>)
    requires open != [] && Nested(open, calls)
    ensures Last(open).lane == ROOT || Last(open).lane in calls
  {
  }

  lemma {:induction false} ClearingKeepsActive(open: seq<Entry>, lane: Lane)
    ensures ActiveOf(AllCleared(open, lane)) == ActiveOf(open)
    decreases |open|
  {
    if open != [] {
      assert Front(AllCleared(open, lane)) == AllCleared(Front(open), lane);
      ClearingKeepsActive(Front(open), lane);
    }
  }

  lemma ClearingNests(open: seq<Entry>, calls: map<Lane, Call>, lane: Lane, after: map<Lane, Call>)
    requires Nested(open, calls) && calls.Keys <= after.Keys
    ensures Nested(AllCleared(open, lane), after)
  {
    hide ActiveOf;
    var cleared := AllCleared(open, lane);
    forall i | 0 <= i < |open| ensures ActiveOf(cleared[..i]) == ActiveOf(open[..i]) {
      assert cleared[..i] == AllCleared(open[..i], lane);
      ClearingKeepsActive(open[..i], lane);
    }
  }

  /** Every step keeps the active lane what the open entries say it is. */
  lemma EveryStepNests(s: System, step: Step)
    requires ActiveOk(s)
    ensures ActiveOk(Next(s, step))
  {
    hide Nested, ActiveOf, Returned, Stopped, AllCleared, Caught;
    ActiveKnown(s.open, s.calls);
    match step
    case BeginCall(mod) =>
      var e, calls := Within(s.next, s.lanes.active, true), Next(s, step).calls;
      Pushed(s.open, e);
      PushNests(s.open, s.calls, e, calls);
    case Resume(lane) =>
      Pushed(s.open, Within(lane, s.lanes.active, false));
      if lane == ROOT || lane in s.calls {
        PushNests(s.open, s.calls, Within(lane, s.lanes.active, false), s.calls);
      }
    case BeginDispatch(mod, byIdentity) =>
      var e := Dispatch(s.lanes.active, Frame(s.next, mod), byIdentity, false);
      Pushed(s.open, e);
      PushNests(s.open, s.calls, e, s.calls);
    case BeginGuard =>
      var e := Guard(s.lanes.active, |FramesOf(s.lanes, s.lanes.active)|);
      Pushed(s.open, e);
      PushNests(s.open, s.calls, e, s.calls);
    case Return => if s.open != [] { ReturnStaysActive(s); }
    case Stop => StopStaysActive(s);
    case Settle(lane) =>
      if lane in s.calls {
        ClearingKeepsActive(s.open, lane);
        ClearingNests(s.open, s.calls, lane, Next(s, step).calls);
      }
    case LateUnwind(depth) =>
  }

  lemma {:induction false} EveryRunNests(steps: seq<Step>)
    ensures ActiveOk(Run(steps))
    decreases |steps|
  {
    hide Next;
    if steps != [] {
      EveryRunNests(Front(steps));
      EveryStepNests(Run(Front(steps)), Last(steps));
    }
  }

  /** However calls interleave and stop, the active lane depends on the open entries alone. */
  lemma EntriesRestoreTheLane(a: seq<Step>, b: seq<Step>)
    requires Run(a).open == Run(b).open
    ensures Run(a).lanes.active == Run(b).lanes.active
  {
    hide Run, ActiveOf, Nested;
    EveryRunNests(a);
    EveryRunNests(b);
  }

  /** Ending an entry puts back the lane that was active when it began. */
  lemma ReturnRestoresTheLane(steps: seq<Step>)
    requires Run(steps).open != []
    ensures var s := Run(steps); Returned(s).lanes.active == ActiveOf(Front(s.open))
  {
    hide Run, ActiveOf, Nested, Returned;
    EveryRunNests(steps);
    ReturnStaysActive(Run(steps));
  }

  // ----- What lies on a lane -----

  /** The frames dispatches have open on a lane. */
  ghost function Dispatched(open: seq<Entry>, lane: Lane): seq<Frame> {
    if open == [] then []
    else
      var front, e := Dispatched(Front(open), lane), Last(open);
      if e.Dispatch? && e.lane == lane && !e.cleared then front + [e.frame] else front
  }

  /** The frame of the call a lane belongs to, until it settles. */
  ghost function Base(calls: map<Lane, Call>, lane: Lane): seq<Frame> {
    if lane in calls && !calls[lane].settled then [calls[lane].frame] else []
  }

  /** What should lie on a lane: its call's frame, then those of the open dispatches. */
  ghost function Owed(open: seq<Entry>, calls: map<Lane, Call>, lane: Lane): seq<Frame> {
    Base(calls, lane) + Dispatched(open, lane)
  }

  /** Every lane holds exactly what it should. */
  ghost predicate LanesExact(s: System) {
    forall lane :: FramesOf(s.lanes, lane) == Owed(s.open, s.calls, lane)
  }

  /** A cleared dispatch has nothing below it on its lane; a guard's depth is at least what lies below it. */
  ghost predicate EntryOk(e: Entry, below: seq<Entry>, calls: map<Lane, Call>, next: nat) {
    match e
    case Within(_, _, _) => true
    case Dispatch(lane, frame, _, cleared) =>
      && frame.id < next
      && (cleared ==> Owed(below, calls, lane) == [])
      && (forall i :: 0 <= i < |below| && below[i].Dispatch? ==> below[i].frame.id < frame.id)
      && (forall other :: other in calls ==> calls[other].frame.id != frame.id)
    case Guard(lane, depth) => |Owed(below, calls, lane)| <= depth
  }

  ghost predicate StackOk(open: seq<Entry>, calls: map<Lane, Call>, next: nat) {
    forall i :: 0 <= i < |open| ==> EntryOk(open[i], open[..i], calls, next)
  }

  ghost predicate CallsOk(calls: map<Lane, Call>, next: nat) {
    ROOT < next && ROOT !in calls && forall lane :: lane in calls ==> lane < next && calls[lane].frame.id < next
  }

  ghost predicate Invariant(s: System) {
    ActiveOk(s) && StackOk(s.open, s.calls, s.next) && CallsOk(s.calls, s.next) && LanesExact(s)
  }

  lemma DispatchedPush(open: seq<Entry>, e: Entry)
    ensures forall lane ::
      Dispatched(open + [e], lane)
      == Dispatched(open, lane) + if e.Dispatch? && e.lane == lane && !e.cleared then [e.frame] else []
  {
    Pushed(open, e);
  }

  lemma StackPush(open: seq<Entry>, calls: map<Lane, Call>, next: nat, e: Entry)
    requires StackOk(open, calls, next) && EntryOk(e, open, calls, next)
    ensures StackOk(open + [e], calls, next)
  {
    hide EntryOk;
    var longer := open + [e];
    assert forall i :: 0 <= i < |open| ==> longer[..i] == open[..i];
    assert longer[..|open|] == open;
  }

  lemma StackFront(open: seq<Entry>, calls: map<Lane, Call>, next: nat)
    requires StackOk(open, calls, next) && open != []
    ensures StackOk(Front(open), calls, next) && EntryOk(Last(open), Front(open), calls, next)
  {
    hide EntryOk;
    assert forall i :: 0 <= i < |open| - 1 ==> Front(open)[..i] == open[..i];
    assert open[..|open| - 1] == Front(open);
  }

  /** More calls, or a higher count, unsettle no entry on the lanes there are. */
  lemma StackStays(open: seq<Entry>, calls: map<Lane, Call>, next: nat, more: map<Lane, Call>, later: nat)
    requires StackOk(open, calls, next) && next <= later && Nested(open, calls)
    requires forall lane :: lane in calls ==> lane in more && more[lane] == calls[lane]
    requires forall lane :: lane in more && lane !in calls ==> lane != ROOT && more[lane].frame.id >= next
    ensures StackOk(open, more, later)
  {
    hide Dispatched, ActiveOf;
    forall i | 0 <= i < |open| ensures EntryOk(open[i], open[..i], more, later) {
      assert EntryOk(open[i], open[..i], calls, next);
      assert Base(more, open[i].lane) == Base(calls, open[i].lane);
    }
  }

  // ----- Steps -----

  /** No entry lies on a lane that is not made yet. */
  lemma {:induction false} NothingOnNewLane(open: seq<Entry>, calls: map<Lane, Call>, lane: Lane)
    requires Nested(open, calls) && lane != ROOT && lane !in calls
    ensures Dispatched(open, lane) == []
    decreases |open|
  {
    hide Nested;
    if open != [] {
      PrefixNests(open, calls);
      LastKnown(open, calls);
      NothingOnNewLane(Front(open), calls, lane);
    }
  }

  lemma BeginCallKeeps(s: System, mod: Mod)
    requires Invariant(s)
    ensures Invariant(Next(s, BeginCall(mod)))
  {
    hide ActiveOk, Nested, StackOk, Dispatched, ActiveOf;
    var r, e := Next(s, BeginCall(mod)), Within(s.next, s.lanes.active, true);
    EveryStepNests(s, BeginCall(mod));
    NestedOf(s);
    StackStays(s.open, s.calls, s.next, r.calls, r.next);
    StackPush(s.open, r.calls, r.next, e);
    DispatchedPush(s.open, e);
    NothingOnNewLane(s.open, s.calls, s.next);
    forall lane ensures FramesOf(r.lanes, lane) == Owed(r.open, r.calls, lane) {
      assert FramesOf(s.lanes, lane) == Owed(s.open, s.calls, lane);
    }
  }

  lemma NestedOf(s: System)
    requires ActiveOk(s)
    ensures Nested(s.open, s.calls) && s.lanes.active == ActiveOf(s.open)
  {
  }

  lemma ResumeKeeps(s: System, lane: Lane)
    requires Invariant(s)
    ensures Invariant(Next(s, Resume(lane)))
  {
    hide ActiveOk, StackOk, Dispatched, Base;
    EveryStepNests(s, Resume(lane));
    StackPush(s.open, s.calls, s.next, Within(lane, s.lanes.active, false));
    DispatchedPush(s.open, Within(lane, s.lanes.active, false));
    var r := Next(s, Resume(lane));
    forall on ensures FramesOf(r.lanes, on) == Owed(r.open, r.calls, on) {
      assert FramesOf(s.lanes, on) == Owed(s.open, s.calls, on);
    }
  }

  lemma GuardKeeps(s: System)
    requires Invariant(s)
    ensures Invariant(Next(s, BeginGuard))
  {
    hide ActiveOk, StackOk, Dispatched, Base;
    var e := Guard(s.lanes.active, |FramesOf(s.lanes, s.lanes.active)|);
    EveryStepNests(s, BeginGuard);
    StackPush(s.open, s.calls, s.next, e);
    DispatchedPush(s.open, e);
  }

  lemma DispatchKeeps(s: System, mod: Mod, byIdentity: bool)
    requires Invariant(s)
    ensures Invariant(Next(s, BeginDispatch(mod, byIdentity)))
  {
    hide ActiveOk, Nested, StackOk, Dispatched, Base, ActiveOf;
    var r := Next(s, BeginDispatch(mod, byIdentity));
    var e := Dispatch(s.lanes.active, Frame(s.next, mod), byIdentity, false);
    EveryStepNests(s, BeginDispatch(mod, byIdentity));
    NestedOf(s);
    IdsBelow(s.open, s.calls, s.next);
    StackStays(s.open, s.calls, s.next, s.calls, r.next);
    StackPush(s.open, s.calls, r.next, e);
    DispatchedPush(s.open, e);
    forall lane ensures FramesOf(r.lanes, lane) == Owed(r.open, r.calls, lane) {
      assert FramesOf(s.lanes, lane) == Owed(s.open, s.calls, lane);
    }
  }

  lemma IdsBelow(open: seq<Entry>, calls: map<Lane, Call>, next: nat)
    requires StackOk(open, calls, next)
    ensures forall i :: 0 <= i < |open| && open[i].Dispatch? ==> open[i].frame.id < next
  {
    hide Owed;
    forall i | 0 <= i < |open| && open[i].Dispatch? ensures open[i].frame.id < next {
      assert EntryOk(open[i], open[..i], calls, next);
    }
  }

  lemma {:induction false} ClearedLane(open: seq<Entry>, lane: Lane, other: Lane)
    ensures Dispatched(AllCleared(open, lane), other) == if other == lane then [] else Dispatched(open, other)
    decreases |open|
  {
    if open != [] {
      assert Front(AllCleared(open, lane)) == AllCleared(Front(open), lane);
      ClearedLane(Front(open), lane, other);
    }
  }

  lemma SettleKeeps(s: System, lane: Lane)
    requires Invariant(s) && lane in s.calls
    ensures Invariant(Next(s, Settle(lane)))
  {
    hide ActiveOk, Dispatched, EntryOk, AllCleared;
    var r := Next(s, Settle(lane));
    EveryStepNests(s, Settle(lane));
    ClearedStack(s.open, s.calls, s.next, lane, r.calls);
    forall other ensures FramesOf(r.lanes, other) == Owed(r.open, r.calls, other) {
      ClearedLane(s.open, lane, other);
      assert FramesOf(s.lanes, other) == Owed(s.open, s.calls, other);
    }
  }

  lemma ClearedStack(open: seq<Entry>, calls: map<Lane, Call>, next: nat, lane: Lane, after: map<Lane, Call>)
    requires StackOk(open, calls, next) && lane in calls && after == calls[lane := calls[lane].(settled := true)]
    ensures StackOk(AllCleared(open, lane), after, next)
  {
    hide Dispatched;
    var cleared := AllCleared(open, lane);
    forall i | 0 <= i < |open| ensures EntryOk(cleared[i], cleared[..i], after, next) {
      assert EntryOk(open[i], open[..i], calls, next);
      assert cleared[..i] == AllCleared(open[..i], lane);
      ClearedLane(open[..i], lane, open[i].lane);
    }
  }

  // ----- Returning and stopping -----

  lemma {:induction false} RemovedMiddle(a: seq<Frame>, f: Frame, b: seq<Frame>)
    requires f !in b
    ensures Removed(a + [f] + b, f) == a + b
    decreases |b|
  {
    var all := a + [f] + b;
    if b == [] {
      assert all[..|all| - 1] == a && a + b == a;
    } else {
      assert all[..|all| - 1] == a + [f] + b[..|b| - 1];
      RemovedMiddle(a, f, b[..|b| - 1]);
      assert a + b == a + b[..|b| - 1] + [b[|b| - 1]];
    }
  }

  lemma {:induction false} RemovedNone(a: seq<Frame>, f: Frame)
    requires f !in a
    ensures Removed(a, f) == a
    decreases |a|
  {
    if a != [] {
      RemovedNone(a[..|a| - 1], f);
    }
  }

  /** No frame below a dispatch is its own. */
  lemma {:induction false} NotBelow(open: seq<Entry>, calls: map<Lane, Call>, next: nat, lane: Lane, f: Frame)
    requires forall i :: 0 <= i < |open| && open[i].Dispatch? ==> open[i].frame.id < f.id
    requires forall other :: other in calls ==> calls[other].frame.id != f.id
    ensures f !in Owed(open, calls, lane)
    decreases |open|
  {
    if open != [] {
      NotBelow(Front(open), calls, next, lane, f);
    }
  }

  /** Frames cut off so far, by lane. */
  type Extra = map<Lane, seq<Frame>>

  ghost function ExtraOn(extra: Extra, lane: Lane): seq<Frame> { if lane in extra then extra[lane] else [] }

  /** Halfway through a stop: what should lie on each lane, and the frames cut off on top of it. */
  ghost predicate Unwinding(s: System, extra: Extra) {
    && ActiveOk(s) && StackOk(s.open, s.calls, s.next)
    && (forall lane :: FramesOf(s.lanes, lane) == Owed(s.open, s.calls, lane) + ExtraOn(extra, lane))
    && (forall lane :: Later(ExtraOn(extra, lane), s.open))
  }

  /** The frames are all of later dispatches than the open ones. */
  ghost predicate Later(frames: seq<Frame>, open: seq<Entry>) {
    forall i, k :: 0 <= i < |open| && open[i].Dispatch? && 0 <= k < |frames| ==> open[i].frame.id < frames[k].id
  }

  lemma LaterThanFewer(frames: seq<Frame>, open: seq<Entry>)
    requires Later(frames, open) && open != []
    ensures Later(frames, Front(open))
    ensures Last(open).Dispatch? ==> Last(open).frame !in frames
  {
  }

  lemma OneLater(frames: seq<Frame>, open: seq<Entry>, calls: map<Lane, Call>, next: nat)
    requires Later(frames, open) && open != [] && Last(open).Dispatch? && EntryOk(Last(open), Front(open), calls, next)
    ensures Later([Last(open).frame] + frames, Front(open))
  {
    hide Owed;
    var all := [Last(open).frame] + frames;
    forall i, k | 0 <= i < |Front(open)| && Front(open)[i].Dispatch? && 0 <= k < |all|
      ensures Front(open)[i].frame.id < all[k].id
    {
      assert k > 0 ==> all[k] == frames[k - 1];
      assert Front(open)[i] == open[i];
    }
  }

  /** A host call between the script and what catches it takes its own frame away and no other. */
  lemma HostReturnUnwinds(s: System, extra: Extra)
    requires Unwinding(s, extra) && s.open != [] && !Last(s.open).Guard? && !CutOff(Last(s.open))
    ensures Unwinding(Returned(s), extra)
  {
    hide ActiveOk, StackOk, Dispatched, Base, Removed, Later;
    var front, e, r := Front(s.open), Last(s.open), Returned(s);
    ReturnStaysActive(s);
    StackFront(s.open, s.calls, s.next);
    assert s.open == front + [e];
    forall lane ensures Later(ExtraOn(extra, lane), front) && (e.Dispatch? ==> e.frame !in ExtraOn(extra, lane)) {
      LaterThanFewer(ExtraOn(extra, lane), s.open);
    }
    DispatchedPush(front, e);
    if e.Dispatch? {
      var kept, more := Owed(front, s.calls, e.lane), ExtraOn(extra, e.lane);
      NotBelow(front, s.calls, s.next, e.lane, e.frame);
      if e.cleared {
        assert FramesOf(s.lanes, e.lane) == kept + more;
        RemovedNone(kept + more, e.frame);
      } else {
        assert FramesOf(s.lanes, e.lane) == kept + [e.frame] + more;
        RemovedMiddle(kept, e.frame, more);
      }
    }
    forall lane ensures FramesOf(r.lanes, lane) == Owed(r.open, r.calls, lane) + ExtraOn(extra, lane) {
      assert FramesOf(s.lanes, lane) == Owed(s.open, s.calls, lane) + ExtraOn(extra, lane);
    }
  }

  /** The entry that catches a stop. */
  ghost function Catcher(open: seq<Entry>): (i: nat)
    requires Caught(open)
    ensures i < |open| && Catches(open[i])
  {
    if Catches(Last(open)) then |open| - 1 else Catcher(Front(open))
  }

  /** The frames a stop leaves on a lane, above what the catching entry keeps. */
  ghost function Abandoned(open: seq<Entry>, lane: Lane): seq<Frame> {
    if open == [] || Catches(Last(open)) then []
    else
      var front, e := Abandoned(Front(open), lane), Last(open);
      if CutOff(e) && e.lane == lane && !e.cleared then front + [e.frame] else front
  }

  /** What the catching entry makes of a lane that holds `kept` and, above it, `stale`. */
  ghost function Settled(e: Entry, lane: Lane, kept: seq<Frame>, stale: seq<Frame>): seq<Frame> {
    if e.Guard? && e.lane == lane && |kept + stale| > e.depth then (kept + stale)[..e.depth] else kept + stale
  }

  lemma CatchReturns(s: System, extra: Extra, lane: Lane)
    requires Unwinding(s, extra) && s.open != [] && Catches(Last(s.open))
    ensures FramesOf(Returned(s).lanes, lane)
      == Settled(Last(s.open), lane, Owed(Front(s.open), s.calls, lane), ExtraOn(extra, lane))
  {
    hide StackOk, Dispatched, Base, Nested, ActiveOf, Later;
    var front, e := Front(s.open), Last(s.open);
    assert s.open == front + [e];
    DispatchedPush(front, e);
    NestedOf(s);
    PrefixNests(s.open, s.calls);
    assert FramesOf(s.lanes, lane) == Owed(s.open, s.calls, lane) + ExtraOn(extra, lane);
    assert FramesOf(s.lanes, s.lanes.active) == Owed(s.open, s.calls, s.lanes.active) + ExtraOn(extra, s.lanes.active);
  }

  ghost function CutInto(extra: Extra, e: Entry): Extra
    requires CutOff(e)
  {
    if e.cleared then extra else extra[e.lane := [e.frame] + ExtraOn(extra, e.lane)]
  }

  /** A dispatch cut off leaves its frame where it is. */
  lemma CutOffUnwinds(s: System, extra: Extra)
    requires Unwinding(s, extra) && s.open != [] && CutOff(Last(s.open))
    ensures Unwinding(s.(open := Front(s.open)), CutInto(extra, Last(s.open)))
  {
    hide ActiveOk, StackOk, Owed, Later;
    var front, e, more := Front(s.open), Last(s.open), CutInto(extra, Last(s.open));
    var r := s.(open := front);
    ReturnStaysActive(s);
    StackFront(s.open, s.calls, s.next);
    forall lane
      ensures FramesOf(r.lanes, lane) == Owed(r.open, r.calls, lane) + ExtraOn(more, lane)
      ensures Later(ExtraOn(more, lane), front)
    {
      CutOffLeaves(s.open, s.calls, extra, lane);
      LaterThanFewer(ExtraOn(extra, lane), s.open);
      OneLater(ExtraOn(extra, lane), s.open, s.calls, s.next);
      assert FramesOf(s.lanes, lane) == Owed(s.open, s.calls, lane) + ExtraOn(extra, lane);
    }
  }

  lemma CutOffLeaves(open: seq<Entry>, calls: map<Lane, Call>, extra: Extra, lane: Lane)
    requires open != [] && CutOff(Last(open))
    ensures Owed(open, calls, lane) + ExtraOn(extra, lane)
      == Owed(Front(open), calls, lane) + ExtraOn(CutInto(extra, Last(open)), lane)
  {
    hide Base, Dispatched;
    assert open == Front(open) + [Last(open)];
    DispatchedPush(Front(open), Last(open));
  }

  /** What a stop leaves: the entries below the catching one, and on each lane what that one makes of it. */
  lemma {:induction false} StopUnwinds(s: System, extra: Extra, lane: Lane)
    requires Unwinding(s, extra) && Caught(s.open)
    ensures var c := Catcher(s.open); var r := Stopped(s);
      && r.open == s.open[..c] && r.calls == s.calls && r.next == s.next && ActiveOk(r)
      && StackOk(r.open, r.calls, r.next)
      && FramesOf(r.lanes, lane) == Settled(s.open[c], lane, Owed(s.open[..c], s.calls, lane),
           Abandoned(s.open, lane) + ExtraOn(extra, lane))
    decreases |s.open|
  {
    hide Unwinding, ActiveOk, StackOk, Owed, Settled, Nested;
    UnwindingStack(s, extra);
    var front, e := Front(s.open), Last(s.open);
    StackFront(s.open, s.calls, s.next);
    StopStaysActive(s);
    if Catches(e) {
      CatchReturns(s, extra, lane);
      ReturnStaysActive(s);
      assert [] + ExtraOn(extra, lane) == ExtraOn(extra, lane);
    } else {
      StillCaught(s.open);
      assert front[..Catcher(front)] == s.open[..Catcher(front)];
      if CutOff(e) {
        CutOffUnwinds(s, extra);
        StopUnwinds(s.(open := front), CutInto(extra, e), lane);
        assert Abandoned(front, lane) + [e.frame] + ExtraOn(extra, lane)
          == Abandoned(front, lane) + ([e.frame] + ExtraOn(extra, lane));
      } else {
        HostReturnUnwinds(s, extra);
        ReturnStaysActive(s);
        StopUnwinds(Returned(s), extra, lane);
      }
    }
  }

  lemma UnwindingStack(s: System, extra: Extra)
    requires Unwinding(s, extra)
    ensures ActiveOk(s) && StackOk(s.open, s.calls, s.next)
  {
  }

  lemma StillCaught(open: seq<Entry>)
    requires Caught(open) && !Catches(Last(open))
    ensures Caught(Front(open))
  {
    var i :| 0 <= i < |open| && Catches(open[i]);
    assert Catches(Front(open)[i]);
  }

  /**
   A stop that leaves nothing behind: whatever it cuts off lies on the lane of the guard that catches it,
   and that lane is, below the guard, as deep as the guard remembers.
   */
  ghost predicate StopIsClean(s: System) {
    Caught(s.open) ==>
      var c := Catcher(s.open);
      forall lane :: Abandoned(s.open, lane) == [] || Unwound(s.open[c], lane, Owed(s.open[..c], s.calls, lane))
  }

  ghost predicate Unwound(e: Entry, lane: Lane, kept: seq<Frame>) { e.Guard? && e.lane == lane && e.depth == |kept| }

  lemma SettledIsKept(e: Entry, lane: Lane, kept: seq<Frame>, stale: seq<Frame>)
    requires e.Guard? && e.lane == lane ==> |kept| <= e.depth
    ensures Settled(e, lane, kept, stale) == kept <==> stale == [] || Unwound(e, lane, kept)
  {
    if stale == [] {
      assert kept + stale == kept;
    } else if e.Guard? && e.lane == lane && e.depth == |kept| {
      assert (kept + stale)[..e.depth] == kept;
    }
  }

  lemma ExactIsUnwinding(s: System)
    requires Invariant(s)
    ensures Unwinding(s, map[])
  {
    hide ActiveOk, StackOk, Owed;
    assert forall lane :: ExtraOn(map[], lane) == [];
    forall lane ensures FramesOf(s.lanes, lane) == Owed(s.open, s.calls, lane) + ExtraOn(map[], lane) {
      assert Owed(s.open, s.calls, lane) + [] == Owed(s.open, s.calls, lane);
    }
  }

  /** What a stop leaves on each lane of an exact system. */
  lemma StopLeaves(s: System, lane: Lane)
    requires Invariant(s) && Caught(s.open)
    ensures var c := Catcher(s.open); var r := Stopped(s);
      && r.open == s.open[..c] && r.calls == s.calls && r.next == s.next && ActiveOk(r)
      && StackOk(r.open, r.calls, r.next)
      && FramesOf(r.lanes, lane) == Settled(s.open[c], lane, Owed(s.open[..c], s.calls, lane), Abandoned(s.open, lane))
      && (s.open[c].Guard? && s.open[c].lane == lane ==> |Owed(s.open[..c], s.calls, lane)| <= s.open[c].depth)
  {
    hide ActiveOk, LanesExact, Owed, Settled, Unwinding, Stopped;
    ExactIsUnwinding(s);
    StopUnwinds(s, map[], lane);
    assert Abandoned(s.open, lane) + [] == Abandoned(s.open, lane);
    assert EntryOk(s.open[Catcher(s.open)], s.open[..Catcher(s.open)], s.calls, s.next);
  }

  /** After a stop every lane is exact if, and only if, the stop was clean. */
  lemma StopIsExactWhenClean(s: System)
    requires Invariant(s)
    ensures LanesExact(Next(s, Stop)) <==> StopIsClean(s)
    ensures StopIsClean(s) ==> Invariant(Next(s, Stop))
  {
    hide ActiveOk, StackOk, Owed, Settled, Unwound, Stopped, Abandoned;
    if Caught(s.open) {
      var c, r := Catcher(s.open), Stopped(s);
      forall lane
        ensures FramesOf(r.lanes, lane) == Owed(r.open, r.calls, lane) <==>
          Abandoned(s.open, lane) == [] || Unwound(s.open[c], lane, Owed(s.open[..c], s.calls, lane))
      {
        StopLeaves(s, lane);
        SettledIsKept(s.open[c], lane, Owed(s.open[..c], s.calls, lane), Abandoned(s.open, lane));
      }
      StopLeaves(s, ROOT);
    }
  }

  /** After a stop that is not, code resumed on a lane the guard is not on sees the mod that was cut off last. */
  lemma UncleanStopShowsAnother(s: System, lane: Lane)
    requires Invariant(s) && Caught(s.open) && lane in s.calls && Abandoned(s.open, lane) != []
    requires !(s.open[Catcher(s.open)].Guard? && s.open[Catcher(s.open)].lane == lane)
    ensures Current(Next(Next(s, Stop), Resume(lane)).lanes) == Last(Abandoned(s.open, lane)).mod
  {
    hide Invariant, Owed, Stopped, Abandoned, Catcher;
    StopLeaves(s, lane);
  }

  lemma UnwoundIsExact(s: System)
    requires Unwinding(s, map[]) && CallsOk(s.calls, s.next)
    ensures Invariant(s)
  {
    hide ActiveOk, StackOk, Owed;
    forall lane ensures FramesOf(s.lanes, lane) == Owed(s.open, s.calls, lane) {
      assert Owed(s.open, s.calls, lane) + ExtraOn(map[], lane) == Owed(s.open, s.calls, lane);
    }
  }

  lemma ReturnKeeps(s: System)
    requires Invariant(s) && s.open != []
    ensures Invariant(Returned(s))
  {
    hide Unwinding, Returned, Owed, ActiveOk, StackOk, LanesExact;
    ExactIsUnwinding(s);
    if CutOff(Last(s.open)) {
      LeaveKeeps(s);
    } else if Last(s.open).Guard? {
      GuardReturns(s);
    } else {
      HostReturnUnwinds(s, map[]);
      ReturnedStands(s);
      UnwoundIsExact(Returned(s));
    }
  }

  lemma ReturnedStands(s: System)
    requires s.open != []
    ensures Returned(s).calls == s.calls && Returned(s).next == s.next && Returned(s).open == Front(s.open)
  {
    hide Removed;
  }

  /** The frame a dispatch's `leave` pops is its own, or its lane is empty already. */
  lemma LeaveKeeps(s: System)
    requires Invariant(s) && s.open != [] && CutOff(Last(s.open))
    ensures Invariant(Returned(s))
  {
    hide ActiveOk, StackOk, Owed, Returned, LanesExact;
    ReturnStaysActive(s);
    ReturnedStands(s);
    StackFront(s.open, s.calls, s.next);
    forall lane ensures FramesOf(Returned(s).lanes, lane) == Owed(Front(s.open), s.calls, lane) {
      LeaveLeaves(s, lane);
    }
    ExactLanes(Returned(s));
  }

  lemma LeaveLeaves(s: System, lane: Lane)
    requires Invariant(s) && s.open != [] && CutOff(Last(s.open))
    ensures FramesOf(Returned(s).lanes, lane) == Owed(Front(s.open), s.calls, lane)
  {
    hide StackOk, Dispatched, Base, Nested, ActiveOf;
    var front, e := Front(s.open), Last(s.open);
    StackFront(s.open, s.calls, s.next);
    PrefixNests(s.open, s.calls);
    assert s.open == front + [e];
    DispatchedPush(front, e);
    assert s.lanes.active == e.lane;
    assert FramesOf(s.lanes, e.lane) == Owed(s.open, s.calls, e.lane);
    assert FramesOf(s.lanes, lane) == Owed(s.open, s.calls, lane);
    PoppedIsOwn(Base(s.calls, e.lane), Dispatched(front, e.lane), e.frame);
  }

  lemma PoppedIsOwn(base: seq<Frame>, below: seq<Frame>, f: Frame)
    ensures base + (below + [f]) != [] && Front(base + (below + [f])) == base + below
  {
  }

  /** A guard that stops nothing unwinds nothing. */
  lemma GuardReturns(s: System)
    requires Invariant(s) && s.open != [] && Last(s.open).Guard?
    ensures Invariant(Returned(s))
  {
    hide ActiveOk, LanesExact, Dispatched, Base, Settled, Unwinding, StackOk, Unwound;
    var front, r := Front(s.open), Returned(s);
    ReturnStaysActive(s);
    StackFront(s.open, s.calls, s.next);
    ExactIsUnwinding(s);
    forall lane ensures FramesOf(r.lanes, lane) == Owed(r.open, r.calls, lane) {
      CatchReturns(s, map[], lane);
      SettledIsKept(Last(s.open), lane, Owed(front, s.calls, lane), []);
    }
    ExactLanes(r);
  }

  lemma ExactLanes(s: System)
    requires forall lane :: FramesOf(s.lanes, lane) == Owed(s.open, s.calls, lane)
    ensures LanesExact(s)
  {
  }

  /** A late unwind finds no host call open, and nothing on the root lane. */
  lemma LateUnwindKeeps(s: System, depth: nat)
    requires Invariant(s)
    ensures Invariant(Next(s, LateUnwind(depth)))
  {
    if s.open == [] {
      assert FramesOf(s.lanes, ROOT) == Owed(s.open, s.calls, ROOT);
    }
  }

  /** Every step but a stop that is not clean keeps every lane exact. */
  lemma EveryStepKeeps(s: System, step: Step)
    requires Invariant(s) && (step.Stop? ==> StopIsClean(s))
    ensures Invariant(Next(s, step))
  {
    hide Invariant, Returned, StopIsClean;
    match step
    case BeginCall(mod) => BeginCallKeeps(s, mod);
    case Resume(lane) => ResumeKeeps(s, lane);
    case BeginDispatch(mod, byIdentity) => DispatchKeeps(s, mod, byIdentity);
    case BeginGuard => GuardKeeps(s);
    case Return => if s.open != [] { ReturnKeeps(s); }
    case Stop => StopIsExactWhenClean(s);
    case Settle(lane) => if lane in s.calls { SettleKeeps(s, lane); }
    case LateUnwind(depth) => LateUnwindKeeps(s, depth);
  }

  // ----- Whole runs -----

  /** Every stop of the run was clean. */
  ghost predicate Clean(steps: seq<Step>) {
    if steps == [] then true
    else Clean(Front(steps)) && (Last(steps).Stop? ==> StopIsClean(Run(Front(steps))))
  }

  lemma {:induction false} CleanRunKeeps(steps: seq<Step>)
    requires Clean(steps)
    ensures Invariant(Run(steps))
    decreases |steps|
  {
    hide Next, StopIsClean;
    if steps == [] {
      StartIsExact();
    } else {
      CleanRunKeeps(Front(steps));
      EveryStepKeeps(Run(Front(steps)), Last(steps));
    }
  }

  lemma StartIsExact()
    ensures Invariant(START)
  {
  }

  /** All along the run every lane held exactly what it should. */
  ghost predicate AlwaysExact(steps: seq<Step>) {
    LanesExact(Run(steps)) && (steps != [] ==> AlwaysExact(Front(steps)))
  }

  /** In every interleaving, lanes stay exact if, and only if, every stop is clean. */
  lemma {:induction false} ExactWhenStopsAreClean(steps: seq<Step>)
    ensures AlwaysExact(steps) <==> Clean(steps)
    decreases |steps|
  {
    hide Next, StopIsClean, LanesExact, ActiveOk, StackOk;
    if Clean(steps) {
      CleanRunKeeps(steps);
    }
    if steps != [] {
      ExactWhenStopsAreClean(Front(steps));
      if Clean(Front(steps)) {
        CleanRunKeeps(Front(steps));
        if Last(steps).Stop? {
          StopIsExactWhenClean(Run(Front(steps)));
        }
      }
    }
  }

  /** Code in a lane sees the innermost mod dispatched to there, or else the lane's own call. */
  lemma CodeSees(steps: seq<Step>)
    requires Clean(steps)
    ensures var s := Run(steps); var frames := Owed(s.open, s.calls, s.lanes.active);
      Current(s.lanes) == if frames == [] then None else Last(frames).mod
  {
    hide Run, Clean, ActiveOk, StackOk, Owed;
    CleanRunKeeps(steps);
  }

  /** Code resumed in a call's lane sees that call's mod until the call settles, and no mod afterwards. */
  lemma ResumedCodeSeesItsCall(steps: seq<Step>, lane: Lane)
    requires Clean(steps) && lane in Run(steps).calls && Dispatched(Run(steps).open, lane) == []
    ensures var s := Next(Run(steps), Resume(lane)); var call := s.calls[lane];
      s.lanes.active == lane && Current(s.lanes) == if call.settled then None else call.frame.mod
  {
    hide Run, Clean, ActiveOk, StackOk, Dispatched;
    CleanRunKeeps(steps);
    assert FramesOf(Run(steps).lanes, lane) == Owed(Run(steps).open, Run(steps).calls, lane);
  }

  /** A lane's call is the one that made it, whatever happens since: its mod never changes. */
  lemma CallKeepsItsMod(steps: seq<Step>, step: Step, lane: Lane)
    requires lane in Run(steps).calls && lane < Run(steps).next
    ensures var s := Run(steps); var r := Next(s, step);
      && lane in r.calls && r.calls[lane].frame == s.calls[lane].frame
      && (s.calls[lane].settled ==> r.calls[lane].settled)
  {
    hide Run, ActiveOf, Nested, Removed, Stopped;
    EveryRunNests(steps);
    StopStaysActive(Run(steps));
    if Run(steps).open != [] {
      ReturnedStands(Run(steps));
    }
  }

  // ----- A drain that is stopped -----

  lemma RunStep(steps: seq<Step>, step: Step)
    ensures Run(steps + [step]) == Next(Run(steps), step)
  {
    assert Front(steps + [step]) == steps;
  }

  /** A call, its guarded resumption, and in it a handler of another mod. */
  ghost function Drain(a: Mod, b: Mod): seq<Step> {
    [BeginCall(a)] + [Return] + [BeginGuard] + [Resume(1)] + [BeginDispatch(b, false)]
  }

  ghost function DrainOpen(b: Mod): seq<Entry> {
    [Guard(ROOT, 0), Within(1, ROOT, false), Dispatch(1, Frame(2, b), false, false)]
  }

  ghost function DrainLanes(a: Mod, b: Mod): map<Lane, seq<Frame>> { map[ROOT := [], 1 := [Frame(1, a), Frame(2, b)]] }

  lemma DrainBegins(a: Mod, b: Mod)
    ensures Run(Drain(a, b))
      == System(Lanes(DrainLanes(a, b), 1), DrainOpen(b), map[1 := Call(Frame(1, a), false)], 3)
  {
    hide Run, Next;
    var calls := map[1 := Call(Frame(1, a), false)];
    var one: map<Lane, seq<Frame>> := map[ROOT := [], 1 := [Frame(1, a)]];
    RunBegins();
    assert [] + [BeginCall(a)] == [BeginCall(a)];
    RunStep([], BeginCall(a));
    RunStep([BeginCall(a)], Return);
    CallStarts(a);
    RunStep([BeginCall(a)] + [Return], BeginGuard);
    RunStep([BeginCall(a)] + [Return] + [BeginGuard], Resume(1));
    RunStep([BeginCall(a)] + [Return] + [BeginGuard] + [Resume(1)], BeginDispatch(b, false));
    DrainResumes(System(Lanes(one, ROOT), [], calls, 2), a, b);
  }

  lemma CallStarts(a: Mod)
    ensures Next(Next(START, BeginCall(a)), Return)
      == System(Lanes(map[ROOT := [], 1 := [Frame(1, a)]], ROOT), [], map[1 := Call(Frame(1, a), false)], 2)
  {
    var s := Next(START, BeginCall(a));
    assert s.open == [Within(1, ROOT, true)] && Front(s.open) == [];
  }

  lemma DrainResumes(s: System, a: Mod, b: Mod)
    requires s == System(Lanes(map[ROOT := [], 1 := [Frame(1, a)]], ROOT), [], map[1 := Call(Frame(1, a), false)], 2)
    ensures Next(Next(Next(s, BeginGuard), Resume(1)), BeginDispatch(b, false))
      == s.(lanes := Lanes(DrainLanes(a, b), 1), open := DrainOpen(b), next := 3)
  {
    var guarded := Next(s, BeginGuard);
    assert guarded.open == [Guard(ROOT, 0)];
    var resumed := Next(guarded, Resume(1));
    assert resumed.open == [Guard(ROOT, 0), Within(1, ROOT, false)];
    assert [Frame(1, a)] + [Frame(2, b)] == [Frame(1, a), Frame(2, b)];
    assert Next(resumed, BeginDispatch(b, false)).lanes.frames == DrainLanes(a, b);
    assert Next(resumed, BeginDispatch(b, false)).open == DrainOpen(b);
  }

  lemma RunBegins()
    ensures Run([]) == START
  {
  }

  /**
   The guard of a drain remembers the depth of the lane that was active before it. So the handler, if it is
   stopped, leaves its frame on the call's lane, and the call's own code, resumed once more, shows the
   other mod.
   */
  lemma StoppedDrainShowsAnother(a: Mod, b: Mod)
    ensures Clean(Drain(a, b)) && !Clean(Drain(a, b) + [Stop])
    ensures var s := Run(Drain(a, b) + [Stop]);
      && s.calls == map[1 := Call(Frame(1, a), false)] && s.open == []
      && Current(Next(s, Resume(1)).lanes) == b
  {
    hide Run, Invariant, Next, StopIsClean;
    DrainBegins(a, b);
    DrainIsClean(a, b);
    RunStep(Drain(a, b), Stop);
    CleanRunKeeps(Drain(a, b));
    DrainCaught(b);
    UncleanStopShowsAnother(Run(Drain(a, b)), 1);
    StopLeavesNothingOpen(Run(Drain(a, b)));
    DrainIsUnclean(Run(Drain(a, b)), b);
    assert Front(Drain(a, b) + [Stop]) == Drain(a, b);
  }

  lemma StopLeavesNothingOpen(s: System)
    requires Invariant(s) && Caught(s.open) && Catcher(s.open) == 0
    ensures Next(s, Stop).open == [] && Next(s, Stop).calls == s.calls
  {
    hide Invariant, Stopped;
    StopLeaves(s, ROOT);
  }

  lemma DrainIsUnclean(s: System, b: Mod)
    requires s.open == DrainOpen(b)
    ensures !StopIsClean(s)
  {
    hide Owed;
    DrainCaught(b);
  }

  lemma DrainCaught(b: Mod)
    ensures Caught(DrainOpen(b)) && Catcher(DrainOpen(b)) == 0 && Abandoned(DrainOpen(b), 1) == [Frame(2, b)]
  {
    var open := DrainOpen(b);
    assert Catches(open[0]);
    assert Front(open) == [open[0], open[1]] && Front(Front(open)) == [open[0]];
    assert Abandoned(Front(open), 1) == [];
  }

  lemma DrainIsClean(a: Mod, b: Mod)
    ensures Clean(Drain(a, b))
  {
    hide Run, StopIsClean;
    NoStopIsClean(Drain(a, b));
  }

  lemma {:induction false} NoStopIsClean(steps: seq<Step>)
    requires forall i :: 0 <= i < |steps| ==> !steps[i].Stop?
    ensures Clean(steps)
    decreases |steps|
  {
    hide Run, StopIsClean;
    if steps != [] {
      NoStopIsClean(Front(steps));
    }
  }
}
