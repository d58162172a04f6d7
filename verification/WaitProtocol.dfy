/** Sleeping for a frame, at the granularity of the driver's locks.

    A waiter holds only the list lock; interrupts, stop, clean-up, timeout and start hold the
    channel lock throughout and take the list lock for some of their steps. Each action below is one
    step between which the other threads may run; `holder` is the program point of the thread that
    holds the channel lock. */
module WaitProtocol {
  import opened ChannelModel

  datatype Cause = Pending | ByFrame | ByStop
  datatype Waiter = Waiter(frame: nat, cause: Cause, epoch: nat)
  datatype Outcome = Found | TimedOut

  datatype Holder =
    | Nobody
    | Counting(left: nat)   // interrupt: frames still to be taken from the hot list
    | Ending                // interrupt: waiters woken, no frames left, state not yet STOPPING
    | Halting               // stop: `transfer_todo` cleared, state not yet STOPPING
    | Completing            // clean-up or timeout: state STOPPED, waiters not yet completed
    | Launching             // start: state STARTING, lists not yet cleaned
    | Launched              // start: lists cleaned, hardware not yet running

  /** `epoch` counts the starts that reset the frame counter; `results` are finished waits. */
  datatype State = State(phase: Phase, good: nat, todo: int, epoch: nat, holder: Holder,
                         listed: map<nat, Waiter>, results: map<nat, Outcome>)

  datatype FrameKind = Real | Dummy | Spurious

  datatype Action =
    | Register(id: nat, frame: nat)  // men_wait_dmaimg, first critical section
    | Leave(id: nat)                 // men_wait_dmaimg, second one: completed, timed out or killed
    | IrqBegin(frames: nat) | IrqFrame(kind: FrameKind) | IrqWake | IrqEnd
    | StopBegin | StopEnd
    | CleanBegin | Expire | CompleteAll
    | StartBegin(requested: int) | StartClean | StartEnd(ok: bool)

  predicate Enabled(s: State, a: Action) {
    match a
    case Register(id, _) => id !in s.listed && id !in s.results
    case Leave(id) => id in s.listed
    case IrqBegin(_) => s.holder == Nobody
    case IrqFrame(_) => s.holder.Counting? && s.holder.left > 0
    case IrqWake => s.holder == Counting(0)
    case IrqEnd => s.holder == Ending
    case StopBegin => s.holder == Nobody && s.phase == Started
    case StopEnd => s.holder == Halting
    case CleanBegin => s.holder == Nobody && s.phase == Stopping
    case Expire => s.holder == Nobody
    case CompleteAll => s.holder == Completing
    case StartBegin(_) => s.holder == Nobody && s.phase != Started && s.phase != Stopping
    case StartClean => s.holder == Launching
    case StartEnd(_) => s.holder == Launched
  }

  /** `complete` on a waiter; completing twice changes nothing that can be observed. */
  function Completed(w: Waiter, c: Cause): Waiter {
    if w.cause == Pending then w.(cause := c) else w
  }

  function Wake(s: State): map<nat, Waiter> {
    map id | id in s.listed :: if s.listed[id].frame <= s.good then Completed(s.listed[id], ByFrame) else s.listed[id]
  }

  function WakeAll(s: State): map<nat, Waiter> {
    map id | id in s.listed :: Completed(s.listed[id], ByStop)
  }

  function Apply(s: State, a: Action): State
    requires Enabled(s, a)
  {
    match a
    case Register(id, frame) =>
      if s.good >= frame then s.(results := s.results[id := Found])
      else if s.phase != Started then s.(results := s.results[id := TimedOut])
      else s.(listed := s.listed[id := Waiter(frame, Pending, s.epoch)])
    case Leave(id) =>
      s.(listed := s.listed - {id},
         results := s.results[id := if s.good < s.listed[id].frame then TimedOut else Found])
    case IrqBegin(n) => s.(holder := Counting(n))
    case IrqFrame(kind) =>
      var t := s.(holder := Counting(s.holder.left - 1));
      (match kind
       case Real => t.(good := s.good + 1, todo := s.todo - 1)
       case Dummy => t.(todo := s.todo - 1)
       case Spurious => t)
    case IrqWake => s.(listed := Wake(s), holder := if s.todo > 0 then Nobody else Ending)
    case IrqEnd => s.(phase := Stopping, holder := Nobody)
    case StopBegin => if s.todo > 0 then s.(todo := 0, holder := Halting) else s
    case StopEnd => s.(phase := Stopping, holder := Nobody)
    case CleanBegin => s.(phase := Stopped, todo := 0, holder := Completing)
    case Expire => s.(phase := Stopped, holder := Completing)
    case CompleteAll => s.(listed := WakeAll(s), holder := Nobody)
    case StartBegin(n) => s.(phase := Starting, todo := n, holder := Launching)
    case StartClean => s.(good := 0, epoch := s.epoch + 1, holder := Launched)
    case StartEnd(ok) =>
      if ok then s.(phase := Started, holder := Nobody)
      else s.(phase := Stopped, todo := 0, holder := Completing)
  }

  // ---------------------------------------------------------------- invariant

  ghost predicate AllWantMore(s: State) {
    forall id :: id in s.listed && s.listed[id].cause == Pending ==> s.listed[id].frame > s.good
  }

  ghost predicate NonePending(s: State) {
    forall id :: id in s.listed ==> s.listed[id].cause != Pending
  }

  ghost predicate Inv(s: State) {
    && (!s.holder.Counting? ==> AllWantMore(s))
    && (s.phase == Stopped && s.holder != Completing ==> NonePending(s))
    && (s.holder == Completing ==> s.phase == Stopped)
    && (s.holder in {Launching, Launched} ==> s.phase == Starting)
    && (s.phase == Starting ==> NonePending(s))
    && (forall id :: id in s.listed ==> s.listed[id].epoch <= s.epoch)
    && (forall id :: id in s.listed && s.listed[id].cause == ByFrame && s.listed[id].epoch == s.epoch ==>
          s.listed[id].frame <= s.good)
  }

  lemma InvKept(s: State, a: Action)
    requires Inv(s) && Enabled(s, a)
    ensures Inv(Apply(s, a))
  {
  }

  function Fresh(): State { State(Starting, 0, 0, 0, Nobody, map[], map[]) }

  ghost predicate Behaviour(trace: seq<State>, acts: seq<Action>) {
    && |trace| == |acts| + 1 && trace[0] == Fresh()
    && forall k {:trigger acts[k]} :: 0 <= k < |acts| ==>
         Enabled(trace[k], acts[k]) && trace[k + 1] == Apply(trace[k], acts[k])
  }

  lemma {:induction false} AlwaysInv(trace: seq<State>, acts: seq<Action>, k: nat)
    requires Behaviour(trace, acts) && k < |trace|
    ensures Inv(trace[k])
  {
    if k > 0 {
      AlwaysInv(trace, acts, k - 1);
      assert Enabled(trace[k - 1], acts[k - 1]);
      InvKept(trace[k - 1], acts[k - 1]);
    }
  }

  /** No lost wake-up, first half: whenever no interrupt is being handled, every waiter still asleep
      wants a frame beyond `goodcnt`. */
  lemma NoLostFrame(trace: seq<State>, acts: seq<Action>, k: nat, id: nat)
    requires Behaviour(trace, acts) && k < |trace| && !trace[k].holder.Counting?
    requires id in trace[k].listed && trace[k].listed[id].cause == Pending
    ensures trace[k].listed[id].frame > trace[k].good
  {
    AlwaysInv(trace, acts, k);
  }

  /** Second half: once the clean-up section of a stopped channel has run, nobody is left asleep,
      and nobody can fall asleep until the next start. */
  lemma NoneLeftBehind(trace: seq<State>, acts: seq<Action>, k: nat)
    requires Behaviour(trace, acts) && k < |trace|
    requires trace[k].phase == Stopped && trace[k].holder != Completing
    ensures NonePending(trace[k])
    ensures forall id, frame :: Enabled(trace[k], Register(id, frame)) ==>
              id !in Apply(trace[k], Register(id, frame)).listed
  {
    AlwaysInv(trace, acts, k);
  }

  /** A waiter that an interrupt woke finds its frame, if and only if the channel was not restarted meanwhile or the
      new acquisition has got that far already. */
  lemma WokenFindsFrame(trace: seq<State>, acts: seq<Action>, k: nat, id: nat)
    requires Behaviour(trace, acts) && k < |acts| && acts[k] == Leave(id) && id in trace[k].listed
    requires trace[k].listed[id].cause == ByFrame
    ensures id in trace[k + 1].results
    ensures trace[k + 1].results[id] == Found <==>
            trace[k].listed[id].epoch == trace[k].epoch || trace[k].listed[id].frame <= trace[k].good
  {
    AlwaysInv(trace, acts, k);
    assert Enabled(trace[k], acts[k]);
  }

  /** A wait for a frame that is there already finds it, one in an acquisition that does not run times out, and any
      other is listed, asleep. No other wait is affected. */
  lemma RegisterOutcome(trace: seq<State>, acts: seq<Action>, k: nat, id: nat, frame: nat)
    requires Behaviour(trace, acts) && k < |acts| && acts[k] == Register(id, frame)
    ensures var s, t := trace[k], trace[k + 1];
            && (frame <= s.good ==> id in t.results && t.results[id] == Found && t.listed == s.listed)
            && (frame > s.good && s.phase != Started ==>
                 id in t.results && t.results[id] == TimedOut && t.listed == s.listed)
            && (frame > s.good && s.phase == Started ==>
                 id in t.listed && t.listed[id].frame == frame && t.listed[id].cause == Pending && id !in t.results)
            && forall other :: other != id ==>
                 && (other in t.listed <==> other in s.listed)
                 && (other in s.listed ==> t.listed[other] == s.listed[other])
                 && (other in t.results <==> other in s.results)
  {
    assert Enabled(trace[k], acts[k]);
  }

  /** Whatever ended the wait, it finds its frame if and only if that is there when the waiter looks; then it is off the
      list. */
  lemma LeaveOutcome(trace: seq<State>, acts: seq<Action>, k: nat, id: nat)
    requires Behaviour(trace, acts) && k < |acts| && acts[k] == Leave(id)
    ensures id in trace[k].listed && id !in trace[k + 1].listed && id in trace[k + 1].results
    ensures trace[k + 1].results[id] == Found <==> trace[k].listed[id].frame <= trace[k].good
    ensures forall other :: other != id && other in trace[k].listed ==>
              other in trace[k + 1].listed && trace[k + 1].listed[other] == trace[k].listed[other]
  {
    assert Enabled(trace[k], acts[k]);
  }

  /** An interrupt that leaves no frames to do, and a stop, end in STOPPING; a clean-up and a timeout in STOPPED, with
      every waiter that was asleep completed. */
  lemma EndingSteps(s: State)
    ensures Enabled(s, IrqWake) && s.todo <= 0 ==>
            Enabled(Apply(s, IrqWake), IrqEnd) && Apply(Apply(s, IrqWake), IrqEnd).phase == Stopping
    ensures Enabled(s, StopBegin) && s.todo > 0 ==>
            Enabled(Apply(s, StopBegin), StopEnd) && Apply(Apply(s, StopBegin), StopEnd).phase == Stopping
    ensures Enabled(s, CleanBegin) ==> Ended(Apply(s, CleanBegin))
    ensures Enabled(s, Expire) ==> Ended(Apply(s, Expire))
  {
  }

  ghost predicate Ended(s: State) {
    s.phase == Stopped && Enabled(s, CompleteAll) && Apply(s, CompleteAll).phase == Stopped &&
        NonePending(Apply(s, CompleteAll))
  }

  // ---------------------------------------------------------------- a restart in between

  /** One waiter for frame 1, one frame, clean-up, and a second start before the waiter runs again. */
  function RestartActions(): seq<Action> {
    [StartBegin(1), StartClean, StartEnd(true), Register(0, 1), IrqBegin(1), IrqFrame(Real), IrqWake, IrqEnd,
     CleanBegin, CompleteAll, StartBegin(1), StartClean, Leave(0)]
  }

  function Asleep(): map<nat, Waiter> { map[0 := Waiter(1, Pending, 1)] }

  function Awake(): map<nat, Waiter> { map[0 := Waiter(1, ByFrame, 1)] }

  function RestartTrace(): seq<State> {
    [Fresh(),
     State(Starting, 0, 1, 0, Launching, map[], map[]),
     State(Starting, 0, 1, 1, Launched, map[], map[]),
     State(Started, 0, 1, 1, Nobody, map[], map[]),
     State(Started, 0, 1, 1, Nobody, Asleep(), map[]),
     State(Started, 0, 1, 1, Counting(1), Asleep(), map[]),
     State(Started, 1, 0, 1, Counting(0), Asleep(), map[]),
     State(Started, 1, 0, 1, Ending, Awake(), map[]),
     State(Stopping, 1, 0, 1, Nobody, Awake(), map[]),
     State(Stopped, 1, 0, 1, Completing, Awake(), map[]),
     State(Stopped, 1, 0, 1, Nobody, Awake(), map[]),
     State(Starting, 1, 1, 1, Launching, Awake(), map[]),
     State(Starting, 0, 1, 2, Launched, Awake(), map[]),
     State(Starting, 0, 1, 2, Launched, map[], map[0 := TimedOut])]
  }

  predicate Follows(s: State, a: Action, t: State) { Enabled(s, a) && t == Apply(s, a) }

  lemma RestartFirst(k: nat)
    requires k < 7
    ensures Follows(RestartTrace()[k], RestartActions()[k], RestartTrace()[k + 1])
  {
    if k == 6 { assert Wake(RestartTrace()[6]) == Awake(); }
  }

  lemma RestartSecond(k: nat)
    requires 7 <= k < 13
    ensures Follows(RestartTrace()[k], RestartActions()[k], RestartTrace()[k + 1])
  {
    if k == 9 { assert WakeAll(RestartTrace()[9]) == Awake(); }
    if k == 12 { assert Awake() - {0} == map[]; }
  }

  /** With a restart in between the woken waiter may be told that it timed out. */
  lemma RestartHidesFrame() returns (trace: seq<State>, acts: seq<Action>, k: nat)
    ensures Behaviour(trace, acts) && k < |acts| && acts[k] == Leave(0) && 0 in trace[k].listed
    ensures trace[k].listed[0].cause == ByFrame && 0 in trace[k + 1].results && trace[k + 1].results[0] == TimedOut
  {
    trace, acts, k := RestartTrace(), RestartActions(), 12;
    forall i {:trigger acts[i]} | 0 <= i < |acts|
      ensures Enabled(trace[i], acts[i]) && trace[i + 1] == Apply(trace[i], acts[i])
    {
      if i < 7 { RestartFirst(i); } else { RestartSecond(i); }
      assert Follows(trace[i], acts[i], trace[i + 1]);
    }
  }
}
