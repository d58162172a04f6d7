/** Whole runs of one DMA channel: any interleaving of the critical sections. */
module ChannelRuns {
  import opened Arith
  import opened Lists
  import opened ChannelModel
  import opened ChannelInvariant

  /** One critical section. A frame interrupt is one `Frame` per completed frame and one `Tail`;
      the driver drops the list lock between them, so user requests may come in between. */
  datatype Op =
    | Begin(slots: Slots, startbuf: nat, mode: Mode, frames: int, hardwareOk: bool)
    | Frame | Tail(newFrames: nat) | Stray(lostFrames: nat)
    | Next | Last | Unlock(i: nat) | UnlockAll | Queue(i: nat) | Free(i: nat) | Create(i: nat)
    | Halt | CleanUp | Expire | Release

  /** What the driver checks, and what it demands of its callers without checking: `Queue` only for
      buffers in the free list, `Free` only within the table and for buffers not queued since the last stop. */
  predicate Enabled(c: Channel, op: Op) {
    match op
    case Begin(slots, startbuf, _, frames, _) =>
      c.phase != Started && c.phase != Stopping && Present(slots, startbuf) && frames != 0
    case Stray(n) => !c.active || n == 1
    case Halt => true
    case Expire => true
    case Release => true
    case CleanUp => c.phase == Stopping
    case Queue(i) => c.active && Named(c.slots, i, FreeList)
    case Free(i) => c.active && i != |c.slots| && !Marked(c, i)
    case Unlock(i) => c.active && i < |c.slots|
    case _ => c.active
  }

  /** `men_unblock_buffer` on one slot; the guard holds wherever the invariant does. */
  ghost function UnlockSlot(c: Channel, i: nat): Channel {
    if Usable(c) && i < |c.slots| && (Named(c.slots, i, GrabbedList) ==> i in c.grabbed) then Unblock(c, i) else c
  }

  /** `men_ioctl_unlock_buffer` with index -1, the first `k` slots. */
  ghost function UnlockUpTo(c: Channel, k: nat): Channel {
    if k == 0 then c else UnlockSlot(UnlockUpTo(c, k - 1), k - 1)
  }

  predicate Held(c: Channel, j: int) { Named(c.slots, j, GrabbedList) || Named(c.slots, j, NoList) }

  lemma UnlockSlotKeeps(c: Channel, i: nat, d: Channel)
    requires Inv(c) && i < |c.slots| && d == UnlockSlot(c, i)
    ensures Inv(d) && |d.slots| == |c.slots| && d == Unblock(c, i)
    ensures forall j :: Held(d, j) ==> j != i && Held(c, j)
  {
    UnblockKeeps(c, i);
    UnblockNames(c, i);
  }

  lemma {:induction false} UnlockKeeps(c: Channel, k: nat, d: Channel)
    requires Inv(c) && k <= |c.slots| && d == UnlockUpTo(c, k)
    ensures Inv(d) && |d.slots| == |c.slots| && forall j :: Held(d, j) ==> j >= k
  {
    if k > 0 {
      var b := UnlockUpTo(c, k - 1);
      UnlockKeeps(c, k - 1, b);
      UnlockSlotKeeps(b, k - 1, d);
    }
  }

  lemma SomeMember(s: seq<int>) returns (x: int)
    requires s != []
    ensures x in s
  {
    x := s[0];
  }

  lemma NoneHeld(c: Channel)
    requires Inv(c) && forall j :: !Held(c, j)
    ensures c.grabbedCount == 0 && c.lockedCount == 0
  {
    forall j ensures j !in Locked(c.slots) && j !in c.grabbed {
      assert !Held(c, j);
    }
    assert Locked(c.slots) == {};
    if c.grabbed != [] {
      var j := SomeMember(c.grabbed);
      assert false;
    }
  }

  /** After unlock-all nothing is grabbed or locked: the driver's two BUG_ONs cannot fire. */
  lemma UnlockAllClears(c: Channel, d: Channel)
    requires Inv(c) && d == UnlockUpTo(c, |c.slots|)
    ensures Inv(d) && d.grabbedCount == 0 && d.lockedCount == 0
  {
    UnlockKeeps(c, |c.slots|, d);
    NoneHeld(d);
  }

  ghost function Apply(c: Channel, op: Op): Channel
    requires Inv(c) && Enabled(c, op)
  {
    InvUsable(c);
    match op
    case Begin(slots, startbuf, mode, frames, hardwareOk) => Start(c, slots, startbuf, mode, frames, hardwareOk)
    case Frame => FrameDone(c)
    case Tail(n) => InterruptTail(c, n)
    case Stray(n) => Strayed(c, n)
    case Next => NextBlocked(c)
    case Last => LastBlocked(c)
    case Unlock(i) => Unblock(c, i)
    case UnlockAll => UnlockUpTo(c, |c.slots|)
    case Queue(i) => QueueBuffer(c, i)
    case Free(i) => FreeBuffer(c, i)
    case Create(i) => CreateBuffer(c, i)
    case Halt => Stop(c)
    case CleanUp => CleanSync(c)
    case Expire => Timeout(c)
    case Release => ReleaseHead(c)
  }

  lemma ApplyKeeps(c: Channel, op: Op)
    requires Inv(c) && Enabled(c, op)
    ensures Inv(Apply(c, op))
  {
    match op
    case Begin(slots, startbuf, mode, frames, hardwareOk) => StartKeeps(c, slots, startbuf, mode, frames, hardwareOk);
    case Frame => FrameDoneKeeps(c);
    case Tail(n) => InterruptTailKeeps(c, n);
    case Stray(_) =>
    case Next => NextBlockedKeeps(c);
    case Last => LastBlockedKeeps(c);
    case Unlock(i) => UnblockKeeps(c, i);
    case UnlockAll => UnlockAllClears(c, Apply(c, op));
    case Queue(i) => QueueBufferKeeps(c, i);
    case Free(i) => FreeBufferKeeps(c, i);
    case Create(i) => CreateBufferKeeps(c, i);
    case Halt =>
    case CleanUp => CleanSyncKeeps(c);
    case Expire =>
    case Release =>
  }

  /** A channel as `men_create_dmachan` leaves it. */
  function Fresh(fifo: nat): Channel {
    Channel(Continuous, Starting, false, fifo, [], [], [], [], [], 0, 0, 0, 0, 0, 0, 0, 0, 0,
            History(0, [], [], [], false, false))
  }

  /** Outside the invariant the lists could not be walked safely, so nothing is assumed there. */
  ghost predicate Step(c: Channel, op: Op, d: Channel) {
    Inv(c) ==> Enabled(c, op) && d == Apply(c, op)
  }

  ghost predicate Behaviour(trace: seq<Channel>, ops: seq<Op>) {
    && |trace| == |ops| + 1
    && trace[0].fifo >= 1 && trace[0] == Fresh(trace[0].fifo)
    && forall k {:trigger ops[k]} :: 0 <= k < |ops| ==> Step(trace[k], ops[k], trace[k + 1])
  }

  /** The invariant holds in every state of every run. */
  lemma {:induction false} AlwaysInv(trace: seq<Channel>, ops: seq<Op>, k: nat)
    requires Behaviour(trace, ops) && k < |trace|
    ensures Inv(trace[k])
  {
    if k == 0 {
      assert Locked(trace[0].slots) == {};
    } else {
      AlwaysInv(trace, ops, k - 1);
      assert Step(trace[k - 1], ops[k - 1], trace[k]);
      ApplyKeeps(trace[k - 1], ops[k - 1]);
    }
  }

  // ---------------------------------------------------------------- partition and conservation

  function Elements(s: seq<int>): set<int> { set x | x in s }

  lemma ElementsCount(s: seq<int>)
    requires NoDup(s)
    ensures |Elements(s)| == |s|
  {
    if s != [] {
      var t := s[..|s| - 1];
      ElementsCount(t);
      assert s == t + [s[|s| - 1]];
      assert Elements(s) == Elements(t) + {s[|s| - 1]};
    }
  }

  function Registered(slots: Slots): set<int> { set i | 0 <= i < |slots| && slots[i].Some? }

  function DummyHot(c: Channel): nat { if DUMMY in c.hot then 1 else 0 }

  lemma DisjointCount(a: seq<int>, b: seq<int>, c: seq<int>, hot: seq<int>, e: set<int>)
    requires NoDup(a) && NoDup(b) && NoDup(c) && NoDup(hot)
    requires Elements(a) !! Elements(b) !! Elements(c) !! (Elements(hot) - {DUMMY}) !! e
    ensures |Elements(a) + Elements(b) + Elements(c) + (Elements(hot) - {DUMMY}) + e| + (if DUMMY in hot then 1 else 0)
            == |a| + |b| + |c| + |hot| + |e|
  {
    ElementsCount(a); ElementsCount(b); ElementsCount(c); ElementsCount(hot);
    var d := Elements(hot) - {DUMMY};
    assert Elements(hot) == d + (if DUMMY in hot then {DUMMY} else {});
    var x := Elements(a) + Elements(b);
    assert |x + Elements(c) + d + e| == |x + Elements(c) + d| + |e|;
    assert |x + Elements(c) + d| == |x + Elements(c)| + |d|;
  }

  lemma PartitionSets(c: Channel)
    requires ListsMatch(c)
    ensures var hot := Elements(c.hot) - {DUMMY};
            && Registered(c.slots) == Elements(c.free) + Elements(c.ready) + Elements(c.grabbed) + hot + Locked(c.slots)
            && Elements(c.free) !! Elements(c.ready) !! Elements(c.grabbed) !! hot !! Locked(c.slots)
  {
    forall i | Present(c.slots, i)
      ensures i in c.free || i in c.ready || i in c.grabbed || i in c.hot || i in Locked(c.slots) {
      assert Named(c.slots, i, c.slots[i].value.list);
    }
  }

  /** Free, ready, grabbed, hot (without the dummy) and locked buffers partition the registered
      ones, and the five counters add up to their number. */
  lemma Partition(c: Channel)
    requires Inv(c)
    ensures var hot := Elements(c.hot) - {DUMMY};
            && Registered(c.slots) == Elements(c.free) + Elements(c.ready) + Elements(c.grabbed) + hot + Locked(c.slots)
            && Elements(c.free) !! Elements(c.ready) !! Elements(c.grabbed) !! hot !! Locked(c.slots)
    ensures |Registered(c.slots)| + DummyHot(c) ==
            c.freeCount + c.readyCount + c.grabbedCount + c.hotCount + c.lockedCount
  {
    PartitionSets(c);
    DisjointCount(c.free, c.ready, c.grabbed, c.hot, Locked(c.slots));
  }

  // ---------------------------------------------------------------- frames

  /** Until it is stopped, an acquisition of N frames hands at most N buffers to the hardware, at
      most `fifo` are outstanding, they complete in the order they were handed over, and every
      frame is counted once, as good or as caught by the dummy. */
  lemma FramesConserved(trace: seq<Channel>, ops: seq<Op>, k: nat)
    requires Behaviour(trace, ops) && k < |trace|
    ensures |trace[k].hot| <= trace[k].fifo
    ensures trace[k].hist.running ==>
      var c := trace[k];
      && c.hist.landed <= c.hist.queued
      && |c.hist.queued| <= Max(c.hist.requested, 0)
      && |c.hist.queued| - |c.hist.landed| == c.hotCount
      && c.hist.requested - c.todo == c.latest == |c.hist.landed| == c.good + Dummies(c.hist.landed)
  {
    AlwaysInv(trace, ops, k);
  }

  /** The mode and what was recorded at the start. */
  predicate SameOrder(c: Channel, d: Channel) {
    d.hist.order == c.hist.order && d.hist.requested == c.hist.requested && d.mode == c.mode
  }

  lemma QueueMaxOrder(c: Channel)
    requires Usable(c)
    ensures SameOrder(c, QueueMax(c))
  {
  }

  lemma UnblockOrder(c: Channel, i: nat)
    requires i < |c.slots| && Usable(c) && (Named(c.slots, i, GrabbedList) ==> i in c.grabbed)
    ensures SameOrder(c, Unblock(c, i))
  {
  }

  lemma FrameOrder(c: Channel)
    requires HotSafe(c)
    ensures SameOrder(c, FrameDone(c))
  {
  }

  lemma QueueOrder(c: Channel, i: nat)
    requires Named(c.slots, i, FreeList) && i in c.free && Usable(c)
    ensures SameOrder(c, QueueBuffer(c, i))
  {
  }

  lemma FreeOrder(c: Channel, i: nat)
    ensures SameOrder(c, FreeBuffer(c, i))
  {
  }

  lemma {:induction false} UnlockOrder(c: Channel, k: nat)
    ensures SameOrder(c, UnlockUpTo(c, k))
  {
    if k > 0 {
      UnlockOrder(c, k - 1);
      UnlockSlotOrder(UnlockUpTo(c, k - 1), k - 1);
    }
  }

  lemma UnlockSlotOrder(c: Channel, i: nat)
    ensures SameOrder(c, UnlockSlot(c, i))
  {
  }

  /** The order and the number of frames recorded at the start stay as they are until the next start. */
  lemma OrderKept(c: Channel, op: Op, d: Channel)
    requires Inv(c) && Enabled(c, op) && !op.Begin? && d == Apply(c, op)
    ensures SameOrder(c, d)
  {
    InvUsable(c);
    match op
    case Frame => FrameOrder(c);
    case Tail(n) => QueueMaxOrder(c);
    case Unlock(i) => UnblockOrder(c, i);
    case UnlockAll => UnlockOrder(c, |c.slots|);
    case Queue(i) => QueueOrder(c, i);
    case Free(i) => FreeOrder(c, i);
    case _ =>
  }

  lemma {:induction false} OrderKeptAlong(trace: seq<Channel>, ops: seq<Op>, a: nat, b: nat)
    requires Behaviour(trace, ops) && a <= b < |trace|
    requires forall k :: a <= k < b ==> !ops[k].Begin?
    ensures SameOrder(trace[a], trace[b])
  {
    if a < b {
      OrderKeptAlong(trace, ops, a, b - 1);
      AlwaysInv(trace, ops, b - 1);
      assert Step(trace[b - 1], ops[b - 1], trace[b]);
      OrderKept(trace[b - 1], ops[b - 1], trace[b]);
    }
  }

  lemma {:induction false} FullPicks(slots: Slots, mode: Mode, startbuf: nat, k: nat)
    requires |slots| > 0 && mode != Selective && k <= |slots|
    requires forall i :: 0 <= i < |slots| ==> slots[i].Some?
    ensures ReadyPicks(slots, mode, startbuf, k) == seq(k, j requires 0 <= j < k => Visit(startbuf, |slots|, j))
  {
    if k > 0 { FullPicks(slots, mode, startbuf, k - 1); }
  }

  lemma WheelPosition(c: Channel, n: nat, s: nat, k: nat)
    requires Rotates(c) && c.hist.running && c.hist.fixed && c.mode in {Continuous, Pulse}
    requires n > 0 && c.hist.order == seq(n, j requires 0 <= j < n => Visit(s, n, j))
    requires k < |c.hist.landed|
    ensures c.hist.landed[k] == (s + k) % n
  {
    var all := c.hist.landed + c.hot + c.ready;
    assert all[k] == c.hist.landed[k] && all[k] == c.hist.order[k % n];
    ModAddLeft(k, s, n);
  }

  /** Free-running acquisition with every slot registered: the k-th frame (counted from zero) goes
      to buffer (startbuf + k) mod n, in every state until the acquisition is stopped or a buffer
      is unregistered. */
  lemma RoundRobin(trace: seq<Channel>, ops: seq<Op>, a: nat, b: nat, k: nat)
    requires Behaviour(trace, ops) && a < b < |trace|
    requires ops[a].Begin? && ops[a].mode in {Continuous, Pulse}
    requires forall i :: 0 <= i < |ops[a].slots| ==> ops[a].slots[i].Some?
    requires forall j :: a < j < b ==> !ops[j].Begin?
    requires trace[b].hist.running && trace[b].hist.fixed && k < |trace[b].hist.landed|
    ensures |ops[a].slots| > 0 && trace[b].hist.landed[k] == (ops[a].startbuf + k) % |ops[a].slots|
  {
    AlwaysInv(trace, ops, a);
    assert Step(trace[a], ops[a], trace[a + 1]);
    OrderKeptAlong(trace, ops, a + 1, b);
    FullPicks(ops[a].slots, ops[a].mode, ops[a].startbuf, |ops[a].slots|);
    AlwaysInv(trace, ops, b);
    WheelPosition(trace[b], |ops[a].slots|, ops[a].startbuf, k);
  }

  /** An acquisition of N frames, from its start on: until it is stopped, what it has still to do and what it has done
      make N, and at most N buffers have been handed to the hardware. */
  lemma AtMostRequested(trace: seq<Channel>, ops: seq<Op>, a: nat, b: nat)
    requires Behaviour(trace, ops) && a < b < |trace| && ops[a].Begin? && forall j :: a < j < b ==> !ops[j].Begin?
    requires trace[b].hist.running
    ensures trace[b].todo + trace[b].latest == Requested(ops[a].frames)
    ensures |trace[b].hist.queued| <= Max(Requested(ops[a].frames), 0)
  {
    AlwaysInv(trace, ops, a);
    assert Step(trace[a], ops[a], trace[a + 1]);
    var op := ops[a];
    StartRequests(trace[a], op.slots, op.startbuf, op.mode, op.frames, op.hardwareOk, trace[a + 1]);
    OrderKeptAlong(trace, ops, a + 1, b);
    FramesConserved(trace, ops, b);
  }

  lemma StartRequests(c: Channel, slots: Slots, startbuf: nat, mode: Mode, frames: int, hardwareOk: bool, d: Channel)
    requires c.fifo >= 1 && |slots| > 0 && c.phase != Started && c.phase != Stopping
    requires d == Start(c, slots, startbuf, mode, frames, hardwareOk)
    ensures d.hist.requested == Requested(frames)
  {
  }

  /** The end of a frame interrupt in a started acquisition: it is being stopped exactly if all frames asked for are
      there; and if it goes on after new frames, the hardware has as much as it can take. */
  lemma TailEnds(trace: seq<Channel>, ops: seq<Op>, k: nat)
    requires Behaviour(trace, ops) && k < |ops| && ops[k].Tail? && trace[k].hist.running && trace[k].phase == Started
    ensures trace[k + 1].phase == if trace[k].latest >= trace[k].hist.requested then Stopping else Started
    ensures trace[k].latest < trace[k].hist.requested && ops[k].newFrames > 0 ==> Full(trace[k + 1])
    ensures trace[k].latest < trace[k].hist.requested && ops[k].newFrames > 0 && trace[k].mode == Handshake ==>
            trace[k + 1].hot != []
  {
    AlwaysInv(trace, ops, k);
    assert Step(trace[k], ops[k], trace[k + 1]);
    TailMeans(trace[k], ops[k].newFrames, trace[k + 1]);
  }

  lemma TailMeans(c: Channel, newFrames: nat, d: Channel)
    requires Inv(c) && Usable(c) && d == InterruptTail(c, newFrames) && c.hist.running && c.phase == Started
    ensures d.phase == if c.latest >= c.hist.requested then Stopping else Started
    ensures c.latest < c.hist.requested && newFrames > 0 ==> Full(d) && (c.mode == Handshake ==> d.hot != [])
  {
    if c.todo > 0 && newFrames > 0 {
      QueueMaxFeeds(c, d);
      QueueMaxKeeps(c);
    }
  }

  /** Stop, clean-up and timeout along a run. */
  lemma RunEnds(trace: seq<Channel>, ops: seq<Op>, k: nat)
    requires Behaviour(trace, ops) && k < |ops|
    ensures ops[k].Halt? && trace[k].phase == Started && trace[k].todo > 0 ==>
            trace[k + 1].phase == Stopping && trace[k + 1].todo == 0
    ensures ops[k].CleanUp? ==> trace[k].phase == Stopping && trace[k + 1].phase == Stopped && trace[k + 1].todo == 0
    ensures ops[k].Expire? ==> trace[k + 1].phase == Stopped
  {
    AlwaysInv(trace, ops, k);
    assert Step(trace[k], ops[k], trace[k + 1]);
  }

  /** In blocking mode "next image" hands out the oldest unread frame. */
  lemma NextIsOldest(trace: seq<Channel>, ops: seq<Op>, k: nat)
    requires Behaviour(trace, ops) && k < |trace| && trace[k].grabbed != []
    ensures var c := trace[k];
            && (forall j :: 0 < j < |c.grabbed| ==> FrameOf(c, c.grabbed[0]) < FrameOf(c, c.grabbed[j]))
            && ListsPresent(c) && CountsMatch(c) && NextBlocked(c).grabbed == c.grabbed[1..]
            && Named(NextBlocked(c).slots, c.grabbed[0], NoList)
  {
    AlwaysInv(trace, ops, k);
    NextBlockedKeeps(trace[k]);
    assert trace[k].grabbed[0] in trace[k].grabbed;
  }

  /** "Act image" hands out the newest frame and gives every older one back, oldest first. */
  lemma LastIsNewest(trace: seq<Channel>, ops: seq<Op>, k: nat)
    requires Behaviour(trace, ops) && k < |trace| && trace[k].grabbed != []
    ensures var c := trace[k]; var m := |c.grabbed| - 1;
            && (forall j :: 0 <= j < m ==> FrameOf(c, c.grabbed[j]) < FrameOf(c, c.grabbed[m]))
            && ListsPresent(c) && CountsMatch(c) && LastBlocked(c).ready == c.ready + c.grabbed[..m]
            && Named(LastBlocked(c).slots, c.grabbed[m], NoList)
            && (forall j :: 0 <= j < m ==> Named(LastBlocked(c).slots, c.grabbed[j], ReadyList))
  {
    AlwaysInv(trace, ops, k);
    var c := trace[k];
    var older, newest := c.grabbed[..|c.grabbed| - 1], c.grabbed[|c.grabbed| - 1];
    assert c.grabbed == older + [newest];
    LastBlockedNames(c, older, newest);
    forall j | 0 <= j < |older| ensures Named(LastBlocked(c).slots, c.grabbed[j], ReadyList) {
      assert older[j] in older;
    }
  }

  /** A channel with one free buffer, started in selective mode and timed out. */
  function TimedOut(): Channel {
    Fresh(1).(mode := Selective, phase := Stopped, active := true, todo := 1,
              slots := [Some(Buffer(FreeList, 0))], free := [0], freeCount := 1,
              hist := History(1, [], [], [], false, true))
  }

  lemma PreparedValue()
    ensures Prepared(Fresh(1), [Some(Buffer(FreeList, 0))], 0, Selective, 1) ==
            TimedOut().(phase := Starting, hist := History(1, [], [], [], true, true))
  {
    var slots: Slots := [Some(Buffer(FreeList, 0))];
    assert Visit(0, 1, 0) == 0;
    assert ReadyPicks(slots, Selective, 0, 1) == ReadyPicks(slots, Selective, 0, 0) + [] == [];
    assert FreePicks(slots, Selective, 0, 1) == FreePicks(slots, Selective, 0, 0) + [0] == [0];
    assert AllCleaned(slots, Selective) == slots;
  }

  lemma TimedOutReached()
    ensures Timeout(Start(Fresh(1), [Some(Buffer(FreeList, 0))], 0, Selective, 1, true)) == TimedOut()
  {
    PreparedValue();
    var slots: Slots := [Some(Buffer(FreeList, 0))];
    var d := Prepared(Fresh(1), slots, 0, Selective, 1);
    assert TakeReady(d, 0).slots == slots;
    assert TakeReady(d, 0) == d;
  }

  lemma TimedOutInv()
    ensures Inv(TimedOut())
  {
    var s := TimedOut();
    assert Locked(s.slots) == {};
    assert forall i, name :: Named(s.slots, i, name) <==> i == 0 && name == FreeList;
  }

  /** Without the caller's discipline the counters break: a buffer queued after the stop and then
      unregistered takes the READY counter below zero (it wraps in the driver's unsigned field). */
  lemma FreeAfterQueueUnderflows()
    ensures Inv(TimedOut()) && Usable(TimedOut()) && Named(TimedOut().slots, 0, FreeList) && 0 in TimedOut().free
    ensures FreeBuffer(QueueBuffer(TimedOut(), 0), 0).readyCount == -1
  {
    TimedOutInv();
    var s := TimedOut();
    assert s.slots[0] == Some(Buffer(FreeList, 0));
  }
}
