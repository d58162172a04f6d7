/** What every critical section of the DMA channel keeps. */
module ChannelInvariant {
  import opened Arith
  import opened Lists
  import opened ChannelModel

  // ---------------------------------------------------------------- the invariant

  /** Between stop and the next start `men_queue_buffer` only renames a free buffer to READY. */
  predicate MayBeMarked(c: Channel) {
    c.phase == Stopping || c.phase == Stopped
  }

  /** Every registered buffer is in exactly the list its `listname` says (NO_LIST: in none). */
  ghost predicate ListsMatch(c: Channel) {
    && NoDup(c.free) && NoDup(c.ready) && NoDup(c.grabbed) && NoDup(c.hot)
    && (forall i :: i in c.grabbed <==> Named(c.slots, i, GrabbedList))
    && (forall i :: i in c.hot && i != DUMMY ==> Named(c.slots, i, HotList))
    && (forall i :: Named(c.slots, i, HotList) ==> i in c.hot)
    && (forall i :: i in c.ready <==> Named(c.slots, i, ReadyList) && i !in c.free)
    && (forall i :: Named(c.slots, i, FreeList) ==> i in c.free)
    && (forall i :: i in c.free ==> Named(c.slots, i, FreeList) || (Named(c.slots, i, ReadyList) && MayBeMarked(c)))
    && (DUMMY in c.hot ==> c.hot[0] == DUMMY)
  }

  function Locked(slots: Slots): set<int> {
    set i | 0 <= i < |slots| && Named(slots, i, NoList)
  }

  function FrameOf(c: Channel, i: int): nat {
    if Present(c.slots, i) then c.slots[i].value.frame else 0
  }

  /** Frame numbers increase along the grabbed list. */
  ghost predicate FramesIncrease(c: Channel) {
    && (forall j, k :: 0 <= j < k < |c.grabbed| ==> FrameOf(c, c.grabbed[j]) < FrameOf(c, c.grabbed[k]))
    && (forall j :: 0 <= j < |c.grabbed| ==> FrameOf(c, c.grabbed[j]) <= c.latest)
  }

  function Dummies(s: seq<int>): nat {
    if s == [] then 0 else Dummies(s[..|s| - 1]) + (if s[|s| - 1] == DUMMY then 1 else 0)
  }

  /** Accounting of frames and buffers until the acquisition is stopped. */
  ghost predicate Accounted(c: Channel) {
    c.hist.running ==>
      && c.active && c.phase != Stopped
      && c.hist.queued == c.hist.landed + c.hot
      && |c.hist.landed| == c.latest
      && c.hist.requested - c.todo == c.latest
      && c.latest == c.good + Dummies(c.hist.landed)
      && |c.hot| <= Max(c.todo, 0)
      && (c.latest > 0 ==> c.todo >= 0)
  }

  /** The sequence of frames, outstanding buffers and ready buffers repeats the initial order. */
  ghost predicate Rotates(c: Channel) {
    c.hist.running && c.hist.fixed && c.mode in {Continuous, Pulse} ==>
      var all := c.hist.landed + c.hot + c.ready;
      && c.grabbed == [] && c.lockedCount == 0 && DUMMY !in c.hist.order
      && |c.hot| + |c.ready| == |c.hist.order| > 0
      && forall k :: 0 <= k < |all| ==> all[k] == c.hist.order[k % |c.hist.order|]
  }

  ghost predicate Inv(c: Channel) {
    && c.fifo >= 1
    && CountsMatch(c) && |c.hot| <= c.fifo
    && c.lockedCount == |Locked(c.slots)|
    && ListsMatch(c)
    && FramesIncrease(c)
    && Accounted(c)
    && Rotates(c)
  }

  lemma InvUsable(c: Channel)
    requires Inv(c)
    ensures Usable(c) && HotSafe(c)
  {
    UsableHotSafe(c);
  }

  // ---------------------------------------------------------------- helpers

  lemma LockedUnchanged(a: Slots, b: Slots)
    requires forall i :: Named(a, i, NoList) <==> Named(b, i, NoList)
    ensures Locked(a) == Locked(b)
  {
    forall i ensures i in Locked(a) <==> i in Locked(b) {
      assert Named(a, i, NoList) <==> Named(b, i, NoList);
    }
  }

  lemma LockedAdd(a: Slots, b: Slots, x: int)
    requires !Named(a, x, NoList) && Named(b, x, NoList)
    requires forall i :: i != x ==> (Named(a, i, NoList) <==> Named(b, i, NoList))
    ensures |Locked(b)| == |Locked(a)| + 1
  {
    assert Locked(b) == Locked(a) + {x} by {
      forall i ensures i in Locked(b) <==> i in Locked(a) + {x} {
        assert i != x ==> (Named(a, i, NoList) <==> Named(b, i, NoList));
      }
    }
  }

  // ---------------------------------------------------------------- feeding the hardware

  lemma HeatNames(slots: Slots, moved: seq<int>)
    requires forall i :: i in moved ==> Named(slots, i, ReadyList)
    ensures forall i, name {:trigger Named(HeatAll(slots, moved), i, name)} ::
              Named(HeatAll(slots, moved), i, name) <==> if i in moved then name == HotList else Named(slots, i, name)
  {
  }

  lemma TakeReadyLists(c: Channel, k: nat, d: Channel)
    requires ListsMatch(c) && k <= |c.ready| && d == TakeReady(c, k)
    ensures ListsMatch(d) && Locked(d.slots) == Locked(c.slots)
  {
    var moved := c.ready[..k];
    assert c.ready == moved + d.ready;
    forall i ensures i in c.ready <==> i in moved || i in d.ready {
    }
    assert NoDup(d.ready) && NoDup(moved);
    forall i | i in moved ensures i !in d.ready && Named(c.slots, i, ReadyList) {
    }
    HeatNames(c.slots, moved);
    assert forall i :: Named(c.slots, i, NoList) <==> Named(d.slots, i, NoList);
    LockedUnchanged(c.slots, d.slots);
    forall i | i in moved ensures i !in c.hot { assert i in c.ready; }
    AppendNoDup(c.hot, moved);
  }

  lemma TakeReadyFrames(c: Channel, k: nat, d: Channel)
    requires ListsMatch(c) && FramesIncrease(c) && k <= |c.ready| && d == TakeReady(c, k)
    ensures FramesIncrease(d)
  {
    forall i | i in c.grabbed ensures FrameOf(c, i) == FrameOf(d, i) {
      assert i in c.ready[..k] ==> i in c.ready;
    }
    FramesFrame(c, d);
  }

  lemma TakeReadyAccounts(c: Channel, k: nat, d: Channel)
    requires k <= |c.ready| && d == TakeReady(c, k)
    ensures Accounted(c) && (k == 0 || |c.hot| + k <= c.todo) ==> Accounted(d)
    ensures Rotates(c) ==> Rotates(d)
  {
    var moved := c.ready[..k];
    assert c.ready == moved + d.ready;
    assert d.hist.landed + d.hot == c.hist.landed + c.hot + moved;
    assert d.hist.landed + d.hot + d.ready == c.hist.landed + c.hot + c.ready;
  }

  lemma TakeReadyKeeps(c: Channel, k: nat)
    requires Inv(c)
    requires k <= |c.ready| && |c.hot| + k <= c.fifo
    requires k == 0 || |c.hot| + k <= c.todo
    ensures Inv(TakeReady(c, k))
  {
    var d := TakeReady(c, k);
    TakeReadyLists(c, k, d);
    TakeReadyFrames(c, k, d);
    TakeReadyAccounts(c, k, d);
  }

  lemma QueueMaxKeeps(c: Channel)
    requires Inv(c)
    ensures Usable(c) && Inv(QueueMax(c))
    // In blocking mode the engine is never left without a buffer while frames are due.
    ensures c.mode == Handshake && c.active && c.todo > 0 ==> QueueMax(c).hot != []
  {
    if c.todo > c.hotCount {
      if c.mode == Handshake && c.readyCount == 0 {
        var d := QueueMax(c);
        if c.hotCount == 0 && c.active {
          assert c.hist.landed + d.hot == c.hist.landed + c.hot + [DUMMY];
        }
      } else {
        TakeReadyKeeps(c, BuffersToQueue(c));
      }
    }
  }

  lemma InterruptTailKeeps(c: Channel, newFrames: nat)
    requires Inv(c)
    ensures Usable(c) && Inv(InterruptTail(c, newFrames))
  {
    if c.todo > 0 && newFrames > 0 { QueueMaxKeeps(c); }
  }

  /** No more can be handed to the hardware: nothing is ready, all frames are under way, or the queue is full. */
  ghost predicate Full(c: Channel) { c.ready == [] || |c.hot| >= c.todo || |c.hot| == c.fifo }

  lemma TakeReadyOrder(c: Channel, k: nat, d: Channel)
    requires k <= |c.ready| && d == TakeReady(c, k)
    ensures d.hot + d.ready == c.hot + c.ready && c.hot <= d.hot && |d.hot| == |c.hot| + k
    ensures d.hist.queued == c.hist.queued + d.hot[|c.hot|..]
  {
    var moved := c.ready[..k];
    assert d.hot == c.hot + moved && c.ready == moved + d.ready;
    assert d.hot[|c.hot|..] == moved;
  }

  /** The hardware gets as many ready buffers as it can take, the oldest first; the dummy only if it has nothing at
      all in blocking mode. */
  lemma QueueMaxFeeds(c: Channel, d: Channel)
    requires Usable(c) && d == QueueMax(c)
    ensures Full(d)
    ensures if c.mode == Handshake && c.ready == [] && c.hot == [] && c.active && c.todo > 0
            then d.hot == [DUMMY] && d.ready == [] && d.hist.queued == c.hist.queued + [DUMMY]
            else
              && d.hot + d.ready == c.hot + c.ready && c.hot <= d.hot
              && d.hist.queued == c.hist.queued + d.hot[|c.hot|..]
    ensures |c.hot| >= c.todo ==> d == c
    ensures forall i :: Present(c.slots, i) ==>
              Present(d.slots, i) &&
              d.slots[i].value == if i in d.hot[|c.hot|..] then Buffer(HotList, 0) else c.slots[i].value
  {
    if c.todo > c.hotCount && !(c.mode == Handshake && c.readyCount == 0) {
      TakeReadyOrder(c, BuffersToQueue(c), d);
    }
  }

  // ---------------------------------------------------------------- frame interrupt

  lemma DummiesAppend(s: seq<int>, b: int)
    ensures Dummies(s + [b]) == Dummies(s) + (if b == DUMMY then 1 else 0)
  {
    assert (s + [b])[..|s|] == s;
  }

  /** Taking the head of the hardware queue and appending it to the ready list turns the wheel. */
  lemma RotateStep(c: Channel, d: Channel)
    requires Rotates(c) && c.hist.running && c.hist.fixed && c.mode in {Continuous, Pulse}
    requires c.hot != [] && d.hist == c.hist.(landed := c.hist.landed + [c.hot[0]])
    requires d.mode == c.mode && d.grabbed == c.grabbed && d.hot == c.hot[1..]
    requires d.ready == c.ready + [c.hot[0]] && d.lockedCount == c.lockedCount
    ensures Rotates(d)
  {
    var all := c.hist.landed + c.hot + c.ready;
    var n, l := |c.hist.order|, |c.hist.landed|;
    var b := c.hot[0];
    assert d.hist.landed + d.hot + d.ready == all + [b];
    assert all[l] == b;
    assert |all| == l + n;
    ModAddSelf(l, n);
  }

  lemma FrameDoneKeeps(c: Channel)
    requires Inv(c)
    ensures Usable(c) && HotSafe(c) && Inv(FrameDone(c))
  {
    UsableHotSafe(c);
    if c.active && c.hotCount != 0 {
      if c.hot[0] == DUMMY { DummyDoneKeeps(c, FrameDone(c)); } else { RealDoneKeeps(c, FrameDone(c)); }
    }
  }

  lemma DummyDoneKeeps(c: Channel, d: Channel)
    requires Inv(c) && c.active && c.hotCount != 0 && c.hot[0] == DUMMY && HotSafe(c) && d == FrameDone(c)
    ensures Inv(d)
  {
    FrameDoneAccounted(c, d);
    FrameDoneDummy(c);
  }

  lemma RealDoneKeeps(c: Channel, d: Channel)
    requires Inv(c) && c.active && c.hotCount != 0 && c.hot[0] != DUMMY && HotSafe(c) && d == FrameDone(c)
    ensures Inv(d)
  {
    FrameDoneAccounted(c, d);
    FrameDoneReal(c);
    FrameDoneRotates(c, d);
  }

  lemma FrameDoneRotates(c: Channel, d: Channel)
    requires Rotates(c) && CountsMatch(c) && HotSafe(c) && c.active && c.hotCount != 0 && c.hot[0] != DUMMY &&
             d == FrameDone(c)
    ensures Rotates(d)
  {
    if c.mode in {Continuous, Pulse} && c.hist.running && c.hist.fixed { RotateStep(c, d); }
  }

  lemma FrameDoneAccounted(c: Channel, d: Channel)
    requires Accounted(c) && HotSafe(c) && CountsMatch(c) && c.active && c.hot != [] && d == FrameDone(c)
    ensures Accounted(d)
  {
    if c.hist.running {
      assert c.hot == [c.hot[0]] + d.hot;
      assert d.hist.landed == c.hist.landed + [c.hot[0]];
      assert c.hist.landed + c.hot == d.hist.landed + d.hot;
      DummiesAppend(c.hist.landed, c.hot[0]);
    }
  }

  /** In the free-running modes the dummy never reaches the hardware queue. */
  lemma FrameDoneDummy(c: Channel)
    requires Inv(c) && c.active && c.hotCount != 0 && c.hot[0] == DUMMY
    ensures HotSafe(c) && Rotates(FrameDone(c)) && ListsMatch(FrameDone(c))
  {
    var d := FrameDone(c);
    assert c.hot == [DUMMY] + d.hot;
    assert forall i :: i in c.hot <==> i == DUMMY || i in d.hot;
    var all := c.hist.landed + c.hot + c.ready;
    assert all[|c.hist.landed|] == DUMMY;
  }

  lemma FrameDoneReal(c: Channel)
    requires CountsMatch(c) && ListsMatch(c) && FramesIncrease(c) && c.active && c.hotCount != 0 && c.hot[0] != DUMMY
    ensures HotSafe(c) && ListsMatch(FrameDone(c)) && FramesIncrease(FrameDone(c))
    ensures Locked(FrameDone(c).slots) == Locked(c.slots)
  {
    var b := c.hot[0];
    assert b in c.hot;
    var d := FrameDone(c);
    assert c.hot == [b] + d.hot;
    assert b !in d.hot;
    assert forall i :: i in c.hot <==> i == b || i in d.hot;
    assert Named(d.slots, b, Destination(c.mode));
    assert forall i, name :: i != b ==> (Named(c.slots, i, name) <==> Named(d.slots, i, name));
    assert forall i :: i != b ==> FrameOf(c, i) == FrameOf(d, i);
    LockedUnchanged(c.slots, d.slots);
    assert b !in c.free && b !in c.ready && b !in c.grabbed;
    AppendNoDup(match c.mode case Handshake => c.grabbed case Selective => c.free case _ => c.ready, [b]);
  }

  /** What a completed frame does. Without a head, or without a buffer in the hardware, it is lost; so it is in the
      dummy buffer. Any other goes to the end of the list that the mode selects, with its number. */
  lemma FrameLands(c: Channel, d: Channel)
    requires Inv(c) && HotSafe(c) && d == FrameDone(c)
    ensures !c.active ==> d == c.(lost := c.lost + 1, todo := 0)
    ensures c.active && c.hot == [] ==> d == c.(lost := c.lost + 1)
    ensures c.active && c.hot != [] ==> d.hot == c.hot[1..] && d.todo == c.todo - 1 && d.latest == c.latest + 1
    ensures c.active && c.hot != [] && c.hot[0] == DUMMY ==> SameLists(c, d) && d.lost == c.lost + 1 && d.good == c.good
    ensures c.active && c.hot != [] && c.hot[0] != DUMMY ==> Landed(c, d, c.hot[0])
  {
  }

  ghost predicate SameLists(c: Channel, d: Channel) {
    d.free == c.free && d.ready == c.ready && d.grabbed == c.grabbed && d.slots == c.slots
  }

  ghost predicate Landed(c: Channel, d: Channel, b: int) {
    && d.good == c.good + 1 && d.lost == c.lost && Present(d.slots, b) && d.slots[b].value.frame == d.latest
    && (c.mode == Handshake ==>
          d.grabbed == c.grabbed + [b] && d.free == c.free && d.ready == c.ready && Named(d.slots, b, GrabbedList))
    && (c.mode == Selective ==>
          d.free == c.free + [b] && d.grabbed == c.grabbed && d.ready == c.ready && Named(d.slots, b, FreeList))
    && (c.mode in {Continuous, Pulse} ==>
          d.ready == c.ready + [b] && d.grabbed == c.grabbed && d.free == c.free && Named(d.slots, b, ReadyList))
  }

  // ---------------------------------------------------------------- user requests

  lemma NextBlockedKeeps(c: Channel)
    requires Inv(c)
    ensures Usable(c) && Inv(NextBlocked(c))
  {
    if c.grabbedCount != 0 {
      NextBlockedLists(c, c.grabbed[0], NextBlocked(c));
      NextBlockedFrames(c, c.grabbed[0], NextBlocked(c));
    }
  }

  lemma NextBlockedLists(c: Channel, b: int, d: Channel)
    requires ListsMatch(c) && CountsMatch(c) && ListsPresent(c) && c.grabbed != [] && b == c.grabbed[0] &&
             d == NextBlocked(c)
    ensures ListsMatch(d) && |Locked(d.slots)| == |Locked(c.slots)| + 1
  {
    assert c.grabbed == [b] + d.grabbed;
    assert b in c.grabbed && b !in d.grabbed;
    assert forall i :: i in c.grabbed <==> i == b || i in d.grabbed;
    assert forall i, name :: i != b ==> (Named(c.slots, i, name) <==> Named(d.slots, i, name));
    LockedAdd(c.slots, d.slots, b);
  }

  lemma NextBlockedFrames(c: Channel, b: int, d: Channel)
    requires FramesIncrease(c) && CountsMatch(c) && ListsPresent(c) && c.grabbed != [] && b == c.grabbed[0] &&
             d == NextBlocked(c)
    ensures FramesIncrease(d)
  {
    assert b in c.grabbed;
    assert forall i :: FrameOf(c, i) == FrameOf(d, i);
  }

  lemma LastBlockedNames(c: Channel, older: seq<int>, newest: int)
    requires CountsMatch(c) && ListsMatch(c) && c.grabbed == older + [newest]
    ensures ListsPresent(c) && newest !in older
    ensures forall i :: i in c.grabbed <==> i == newest || i in older
    ensures forall i, name :: Named(LastBlocked(c).slots, i, name) <==>
      if i == newest then name == NoList else if i in older then name == ReadyList else Named(c.slots, i, name)
  {
    assert older == c.grabbed[..|c.grabbed| - 1] && newest == c.grabbed[|c.grabbed| - 1];
    assert newest in c.grabbed;
    assert forall i :: i in older ==> i in c.grabbed;
  }

  lemma LastBlockedLists(c: Channel)
    requires CountsMatch(c) && ListsMatch(c) && c.grabbedCount != 0
    ensures ListsPresent(c) && ListsMatch(LastBlocked(c))
    ensures |Locked(LastBlocked(c).slots)| == |Locked(c.slots)| + 1
  {
    var d := LastBlocked(c);
    var older := c.grabbed[..|c.grabbed| - 1];
    var newest := c.grabbed[|c.grabbed| - 1];
    assert c.grabbed == older + [newest];
    LastBlockedNames(c, older, newest);
    LockedAdd(c.slots, d.slots, newest);
    forall i | i in older ensures i !in c.ready {
      assert Named(c.slots, i, GrabbedList);
    }
    AppendNoDup(c.ready, older);
  }

  lemma LastBlockedKeeps(c: Channel)
    requires Inv(c)
    ensures Usable(c) && Inv(LastBlocked(c))
  {
    if c.grabbedCount != 0 { LastBlockedLists(c); }
  }

  lemma RemoveFrames(c: Channel, i: int)
    requires FramesIncrease(c) && i in c.grabbed
    ensures FramesIncrease(c.(grabbed := Remove(c.grabbed, i)))
  {
    SkipFrames(c, IndexOf(c.grabbed, i), Remove(c.grabbed, i));
  }

  lemma SkipFrames(c: Channel, k: nat, r: seq<int>)
    requires FramesIncrease(c) && k < |c.grabbed| && r == c.grabbed[..k] + c.grabbed[k + 1..]
    ensures FramesIncrease(c.(grabbed := r))
  {
    var d := c.(grabbed := r);
    assert forall j :: 0 <= j < |r| ==> r[j] == c.grabbed[if j < k then j else j + 1];
    assert forall i :: FrameOf(d, i) == FrameOf(c, i);
  }

  lemma ReleasedLists(c: Channel, i: nat)
    requires ListsMatch(c) && FramesIncrease(c)
    requires Named(c.slots, i, NoList) || Named(c.slots, i, GrabbedList)
    ensures ListsMatch(Released(c, i)) && FramesIncrease(Released(c, i))
    ensures |Locked(Released(c, i).slots)| == |Locked(c.slots)| - (if Named(c.slots, i, NoList) then 1 else 0)
  {
    var e := Released(c, i);
    assert i !in c.ready && i !in c.free;
    AppendNoDup(c.ready, [i]);
    assert Named(e.slots, i, ReadyList);
    assert forall j, name :: j != i ==> (Named(c.slots, j, name) <==> Named(e.slots, j, name));
    assert forall j :: FrameOf(c, j) == FrameOf(e, j);
    if Named(c.slots, i, GrabbedList) {
      LockedUnchanged(c.slots, e.slots);
      RemoveFrames(c, i);
    } else {
      LockedAdd(e.slots, c.slots, i);
    }
  }

  lemma ReleasedKeeps(c: Channel, i: nat)
    requires Inv(c)
    requires Named(c.slots, i, NoList) || Named(c.slots, i, GrabbedList)
    ensures Inv(Released(c, i))
  {
    ReleasedLists(c, i);
    assert i in Locked(c.slots) || i in c.grabbed;
  }

  /** Feeding the hardware changes no name other than READY to HOT. */
  lemma QueueMaxNames(c: Channel)
    requires Usable(c)
    ensures |QueueMax(c).slots| == |c.slots|
    ensures forall j, name :: name in {GrabbedList, NoList} && Named(QueueMax(c).slots, j, name) ==>
            Named(c.slots, j, name)
  {
  }

  lemma UnblockKeeps(c: Channel, i: nat)
    requires Inv(c) && i < |c.slots|
    ensures Usable(c) && Inv(Unblock(c, i))
  {
    if Named(c.slots, i, GrabbedList) || Named(c.slots, i, NoList) {
      ReleasedKeeps(c, i);
      QueueMaxKeeps(Released(c, i));
    }
  }

  lemma UnblockNames(c: Channel, i: nat)
    requires Inv(c) && i < |c.slots|
    ensures Usable(c) && |Unblock(c, i).slots| == |c.slots|
    ensures forall j, name :: name in {GrabbedList, NoList} && Named(Unblock(c, i).slots, j, name) ==>
            j != i && Named(c.slots, j, name)
  {
    if Named(c.slots, i, GrabbedList) || Named(c.slots, i, NoList) {
      ReleasedKeeps(c, i);
      QueueMaxNames(Released(c, i));
    }
  }

  lemma RenameFreeNames(c: Channel, i: nat)
    requires Named(c.slots, i, FreeList)
    ensures var slots := Rename(c.slots, i, ReadyList);
            && (forall j, name :: Named(slots, j, name) <==>
                if j == i then name == ReadyList else Named(c.slots, j, name))
            && (forall j :: FrameOf(c, j) == FrameOf(c.(slots := slots), j))
            && Locked(slots) == Locked(c.slots)
  {
    LockedUnchanged(c.slots, Rename(c.slots, i, ReadyList));
  }

  lemma RequeuedKeeps(c: Channel, i: nat)
    requires Inv(c) && Named(c.slots, i, FreeList) && c.mode == Selective && !MayBeMarked(c)
    ensures i in c.free && Inv(Requeued(c, i))
  {
    RenameFreeNames(c, i);
    AppendNoDup(c.ready, [i]);
    var d := Requeued(c, i);
    assert forall j :: FrameOf(c, j) == FrameOf(d, j);
  }

  lemma QueueBufferKeeps(c: Channel, i: nat)
    requires Inv(c) && Named(c.slots, i, FreeList)
    ensures Usable(c) && i in c.free && Inv(QueueBuffer(c, i))
  {
    if MayBeMarked(c) {
      RenameFreeNames(c, i);
    } else if c.mode == Selective {
      RequeuedKeeps(c, i);
      QueueMaxKeeps(Requeued(c, i));
    }
  }

  lemma CreateBufferKeeps(c: Channel, i: nat)
    requires Inv(c)
    ensures Inv(CreateBuffer(c, i))
  {
    if i < |c.slots| && c.slots[i].None? {
      var d := CreateBuffer(c, i);
      assert forall j, name :: j != i ==> (Named(c.slots, j, name) <==> Named(d.slots, j, name));
      assert forall j :: j != i ==> FrameOf(c, j) == FrameOf(d, j);
      assert forall name :: !Named(c.slots, i, name);
      AppendNoDup(c.free, [i]);
      LockedUnchanged(c.slots, d.slots);
    }
  }

  /** The buffer was queued after the stop: its node is still in the free list. */
  predicate Marked(c: Channel, i: int) {
    Named(c.slots, i, ReadyList) && i in c.free
  }

  lemma FreeBufferCounts(c: Channel, i: nat)
    requires ListsMatch(c) && CountsMatch(c) && !FreeRefused(c, i) && !Marked(c, i)
    ensures CountsMatch(FreeBuffer(c, i)) && |FreeBuffer(c, i).hot| <= |c.hot|
  {
    assert Named(c.slots, i, c.slots[i].value.list);
  }

  /** Only the list named by `listname` loses the buffer. */
  lemma FreeBufferMembers(c: Channel, i: nat)
    requires ListsMatch(c) && !FreeRefused(c, i) && !Marked(c, i)
    ensures var d := FreeBuffer(c, i);
            && NoDup(d.free) && NoDup(d.ready) && NoDup(d.grabbed) && NoDup(d.hot)
            && (forall j :: j in d.free <==> j != i && j in c.free)
            && (forall j :: j in d.ready <==> j != i && j in c.ready)
            && (forall j :: j in d.grabbed <==> j != i && j in c.grabbed)
            && (forall j :: j in d.hot <==> j != i && j in c.hot)
  {
    assert Named(c.slots, i, c.slots[i].value.list);
    assert Holder(c, i) == c.slots[i].value.list;
  }

  lemma FramesFrame(c: Channel, d: Channel)
    requires FramesIncrease(c) && d.grabbed == c.grabbed && d.latest == c.latest
    requires forall i :: i in c.grabbed ==> FrameOf(d, i) == FrameOf(c, i)
    ensures FramesIncrease(d)
  {
  }

  lemma OtherFrames(c: Channel, i: nat, d: Channel)
    requires !FreeRefused(c, i) && d == FreeBuffer(c, i)
    ensures d.latest == c.latest && forall j :: j != i ==> FrameOf(d, j) == FrameOf(c, j)
  {
  }

  lemma FreeBufferFrames(c: Channel, i: nat, d: Channel)
    requires ListsMatch(c) && CountsMatch(c) && FramesIncrease(c) && !FreeRefused(c, i) && !Marked(c, i) &&
             d == FreeBuffer(c, i)
    ensures FramesIncrease(d)
  {
    OtherFrames(c, i, d);
    FreeBufferMembers(c, i);
    var e := c.(grabbed := d.grabbed);
    assert FramesIncrease(e) by {
      if Named(c.slots, i, GrabbedList) { RemoveFrames(c, i); }
    }
    FramesFrame(e, d);
  }

  lemma FreeBufferDummy(c: Channel, i: nat)
    requires ListsMatch(c) && !FreeRefused(c, i) && !Marked(c, i)
    ensures DUMMY in FreeBuffer(c, i).hot ==> FreeBuffer(c, i).hot[0] == DUMMY
  {
    var d := FreeBuffer(c, i);
    assert Named(c.slots, i, c.slots[i].value.list);
    if i in c.hot && DUMMY in d.hot {
      assert d.hot == Remove(c.hot, i);
      assert IndexOf(c.hot, i) > 0;
    }
  }

  lemma FreeBufferLists(c: Channel, i: nat)
    requires ListsMatch(c) && CountsMatch(c) && !FreeRefused(c, i) && !Marked(c, i)
    ensures ListsMatch(FreeBuffer(c, i))
  {
    FreeBufferMembers(c, i);
    FreeBufferDummy(c, i);
    FreeBufferNames(c, i);
    ListsWithout(c, i, FreeBuffer(c, i));
  }

  lemma FreeBufferNames(c: Channel, i: nat)
    requires !FreeRefused(c, i)
    ensures FreeBuffer(c, i).phase == c.phase
    ensures forall j, m :: Named(FreeBuffer(c, i).slots, j, m) <==> j != i && Named(c.slots, j, m)
  {
    assert FreeBuffer(c, i).slots == c.slots[i := None];
  }

  /** A buffer that is in no list any more and has no name. */
  lemma ListsWithout(c: Channel, i: nat, d: Channel)
    requires ListsMatch(c) && !Marked(c, i) && d.phase == c.phase
    requires NoDup(d.free) && NoDup(d.ready) && NoDup(d.grabbed) && NoDup(d.hot)
    requires forall j :: j in d.free <==> j != i && j in c.free
    requires forall j :: j in d.ready <==> j != i && j in c.ready
    requires forall j :: j in d.grabbed <==> j != i && j in c.grabbed
    requires forall j :: j in d.hot <==> j != i && j in c.hot
    requires forall j, m :: Named(d.slots, j, m) <==> j != i && Named(c.slots, j, m)
    requires DUMMY in d.hot ==> d.hot[0] == DUMMY
    ensures ListsMatch(d)
  {
  }

  lemma FreeBufferLocked(c: Channel, i: nat)
    requires !FreeRefused(c, i)
    ensures |Locked(FreeBuffer(c, i).slots)| == |Locked(c.slots)| - (if Named(c.slots, i, NoList) then 1 else 0)
  {
    var d := FreeBuffer(c, i);
    FreeBufferNames(c, i);
    if Named(c.slots, i, NoList) { LockedAdd(d.slots, c.slots, i); } else { LockedUnchanged(c.slots, d.slots); }
  }

  lemma UnmarkedKeeps(c: Channel, i: nat)
    requires Inv(c) && !FreeRefused(c, i) && !Marked(c, i)
    ensures Inv(FreeBuffer(c, i))
  {
    FreeBufferCounts(c, i);
    FreeBufferLists(c, i);
    FreeBufferFrames(c, i, FreeBuffer(c, i));
    FreeBufferLocked(c, i);
  }

  /** Unregistering keeps the invariant exactly for buffers that were not queued while stopped. */
  lemma FreeBufferKeeps(c: Channel, i: nat)
    requires Inv(c)
    ensures Inv(FreeBuffer(c, i)) <==> !Marked(c, i)
  {
    if Marked(c, i) {
      MarkedBreaks(c, i);
    } else if !FreeRefused(c, i) {
      UnmarkedKeeps(c, i);
    }
  }

  lemma MarkedBreaks(c: Channel, i: nat)
    requires Inv(c) && Marked(c, i)
    ensures !CountsMatch(FreeBuffer(c, i))
  {
    assert FreeBuffer(c, i).readyCount == |c.ready| - 1;
    assert FreeBuffer(c, i).ready == c.ready;
  }

  // ---------------------------------------------------------------- what requests do

  /** Unlocking gives a grabbed or locked buffer back, behind all others, and feeds the hardware when that is about to
      run out; it leaves every other buffer where it is. */
  lemma UnblockGivesBack(c: Channel, i: nat, d: Channel)
    requires Inv(c) && Usable(c) && i < |c.slots| && (Named(c.slots, i, GrabbedList) ==> i in c.grabbed) &&
             d == Unblock(c, i)
    ensures var given := Named(c.slots, i, GrabbedList) || Named(c.slots, i, NoList);
            if !given then d == c
            else
              && d.hot + d.ready == c.hot + c.ready + [i] && c.hot <= d.hot && d.free == c.free
              && (forall j :: j in d.grabbed <==> j != i && j in c.grabbed)
              && (if |c.hot| <= 1 then Full(d) else d.hot == c.hot)
  {
    if Named(c.slots, i, GrabbedList) || Named(c.slots, i, NoList) {
      var e := Released(c, i);
      ReleasedKeeps(c, i);
      assert e.ready == c.ready + [i] && e.hot == c.hot;
      if e.hotCount <= 1 && e.readyCount > 0 { QueueMaxFeeds(e, d); }
      assert c.hot + (c.ready + [i]) == c.hot + c.ready + [i];
    }
  }

  /** Queueing a free buffer: after a stop only its name changes; in selective mode it goes behind the ready ones and
      the hardware is fed; in any other acquisition nothing happens. */
  lemma QueueBufferMeans(c: Channel, i: nat, d: Channel)
    requires Inv(c) && Usable(c) && Named(c.slots, i, FreeList) && i in c.free && d == QueueBuffer(c, i)
    ensures if c.phase == Stopped || c.phase == Stopping then Marked(d, i) && d == c.(slots := d.slots)
            else if c.mode != Selective then d == c
            else d.hot + d.ready == c.hot + c.ready + [i] && c.hot <= d.hot && d.free == Remove(c.free, i) && Full(d)
  {
    if !MayBeMarked(c) && c.mode == Selective {
      var e := Requeued(c, i);
      RequeuedKeeps(c, i);
      QueueMaxFeeds(e, d);
      assert c.hot + (c.ready + [i]) == c.hot + c.ready + [i];
    }
  }

  /** Registering fills an empty slot of the table with a free buffer, and does nothing else. */
  lemma CreateBufferMeans(c: Channel, i: nat, d: Channel)
    requires d == CreateBuffer(c, i)
    ensures if i < |c.slots| && c.slots[i].None?
            then
              && Named(d.slots, i, FreeList) && d.free == c.free + [i]
              && d == c.(slots := d.slots, free := d.free, freeCount := c.freeCount + 1)
              && forall j :: j != i ==> (Present(d.slots, j) <==> Present(c.slots, j))
            else d == c
  {
  }

  /** Unregistering empties the slot unless the hardware has the buffer. */
  lemma FreeBufferMeans(c: Channel, i: nat, d: Channel)
    requires d == FreeBuffer(c, i)
    ensures Present(d.slots, i) <==> Named(c.slots, i, HotList) && c.phase != Stopped
    ensures !Present(c.slots, i) || Present(d.slots, i) ==> d == c
  {
  }

  /** Stopping ends a started acquisition that has frames to do; a timeout and a clean-up end any. None of them, nor
      giving up the head, moves a buffer. */
  lemma EndsMean(c: Channel)
    ensures if c.phase == Started && c.todo > 0 then Stop(c).phase == Stopping && Stop(c).todo == 0 else Stop(c) == c
    ensures Timeout(c).phase == Stopped && Timeout(c).todo == c.todo
    ensures c.phase == Stopping ==>
              CleanSync(c).phase == Stopped && CleanSync(c).todo == 0 && SameLists(c, CleanSync(c))
    ensures ReleaseHead(c).active <==> c.active && c.phase == Started
    ensures SameLists(c, Stop(c)) && SameLists(c, Timeout(c)) && SameLists(c, ReleaseHead(c))
    ensures Stop(c).hot == c.hot && Timeout(c).hot == c.hot && ReleaseHead(c).hot == c.hot
    ensures forall n :: Strayed(c, n) == c.(lost := c.lost + n)
  {
  }

  // ---------------------------------------------------------------- start and stop

  ghost predicate Visited(startbuf: nat, n: nat, k: nat, i: int)
    requires n > 0
  {
    exists j: nat :: j < k && Visit(startbuf, n, j) == i
  }

  lemma VisitsAll(startbuf: nat, n: nat, i: nat)
    requires i < n
    ensures Visited(startbuf, n, n, i)
  {
    var j := (i - startbuf) % n;
    ModAddLeft(i - startbuf, startbuf, n);
    ModSmall(i, n);
    assert Visit(startbuf, n, j) == i;
  }

  /** No slot is visited twice in one round. */
  lemma VisitedOnce(startbuf: nat, n: nat, k: nat)
    requires k < n
    ensures !Visited(startbuf, n, k, Visit(startbuf, n, k))
    ensures forall i :: Visited(startbuf, n, k + 1, i) <==> i == Visit(startbuf, n, k) || Visited(startbuf, n, k, i)
  {
    forall j: nat | j < k ensures Visit(startbuf, n, j) != Visit(startbuf, n, k) {
      if Visit(startbuf, n, j) == Visit(startbuf, n, k) { ModInjective(startbuf + j, startbuf + k, n); }
    }
  }

  lemma {:induction false} PicksExact(slots: Slots, m: Mode, startbuf: nat, k: nat)
    requires |slots| > 0 && k <= |slots|
    ensures NoDup(ReadyPicks(slots, m, startbuf, k)) && NoDup(FreePicks(slots, m, startbuf, k))
    ensures forall i :: i in ReadyPicks(slots, m, startbuf, k) <==>
            BecomesReady(slots, m, i) && Visited(startbuf, |slots|, k, i)
    ensures forall i :: i in FreePicks(slots, m, startbuf, k) <==>
            BecomesFree(slots, m, i) && Visited(startbuf, |slots|, k, i)
  {
    if k > 0 {
      PicksExact(slots, m, startbuf, k - 1);
      VisitedOnce(startbuf, |slots|, k - 1);
    }
  }

  /** The slots are picked in the order in which they are visited. */
  lemma {:induction false} PicksGrow(slots: Slots, m: Mode, startbuf: nat, k: nat, l: nat)
    requires |slots| > 0 && k <= l
    ensures ReadyPicks(slots, m, startbuf, k) <= ReadyPicks(slots, m, startbuf, l)
    ensures FreePicks(slots, m, startbuf, k) <= FreePicks(slots, m, startbuf, l)
    decreases l - k
  {
    if k < l { PicksGrow(slots, m, startbuf, k, l - 1); }
  }

  /** `men_clean_bh` establishes the partition from any list names whatsoever. */
  lemma CleanLists(c: Channel, startbuf: nat)
    requires |c.slots| > 0 && c.fifo >= 1
    ensures ListsMatch(Clean(c, startbuf)) && CountsMatch(Clean(c, startbuf))
    ensures Locked(Clean(c, startbuf).slots) == {}
  {
    var d := Clean(c, startbuf);
    var n := |c.slots|;
    PicksExact(c.slots, c.mode, startbuf, n);
    forall i ensures 0 <= i < n ==> Visited(startbuf, n, n, i) {
      if 0 <= i < n { VisitsAll(startbuf, n, i); }
    }
    assert forall i :: Named(d.slots, i, ReadyList) <==> BecomesReady(c.slots, c.mode, i);
    assert forall i :: Named(d.slots, i, FreeList) <==> BecomesFree(c.slots, c.mode, i);
  }

  lemma PreparedInv(c: Channel, slots: Slots, startbuf: nat, mode: Mode, todo: int)
    requires c.fifo >= 1 && |slots| > 0
    requires mode != Selective ==> Prepared(c, slots, startbuf, mode, todo).ready != []
    ensures Inv(Prepared(c, slots, startbuf, mode, todo))
  {
    var d := c.(mode := mode, active := true, phase := Starting, slots := slots, todo := todo, latest := 0);
    CleanLists(d, startbuf);
    var f := Prepared(c, slots, startbuf, mode, todo);
    assert Rotates(f) by {
      forall k | 0 <= k < |f.ready| ensures f.ready[k] == f.ready[k % |f.ready|] { ModSmall(k, |f.ready|); }
      assert DUMMY !in f.ready;
      assert [] + [] + f.ready == f.ready;
    }
  }

  lemma CleanSyncKeeps(c: Channel)
    requires Inv(c) && c.phase == Stopping
    ensures Inv(CleanSync(c))
  {
  }

  lemma PhaseChangeKeeps(c: Channel, p: Phase)
    requires Inv(c) && c.phase == Starting && p in {Started, Stopping}
    ensures Inv(c.(phase := p))
  {
  }

  lemma EmptyStartKeeps(c: Channel, slots: Slots, startbuf: nat, mode: Mode, todo: int, f: Channel)
    requires c.fifo >= 1 && |slots| > 0 && f == Prepared(c, slots, startbuf, mode, todo) && f.readyCount == 0 &&
             mode != Selective
    ensures Inv(CleanSync(f.(phase := Stopping)))
  {
    var d := c.(mode := mode, active := true, phase := Starting, slots := slots, todo := todo, latest := 0);
    CleanLists(d, startbuf);
  }

  lemma FedStartKeeps(c: Channel, slots: Slots, startbuf: nat, mode: Mode, todo: int, f: Channel)
    requires c.fifo >= 1 && |slots| > 0 && f == Prepared(c, slots, startbuf, mode, todo) &&
             (f.readyCount != 0 || mode == Selective)
    ensures Usable(f) && Inv(QueueMax(f).(phase := Started)) && Inv(CleanSync(QueueMax(f).(phase := Stopping)))
  {
    PreparedInv(c, slots, startbuf, mode, todo);
    QueueMaxKeeps(f);
    var q := QueueMax(f);
    PhaseChangeKeeps(q, Started);
    PhaseChangeKeeps(q, Stopping);
    CleanSyncKeeps(q.(phase := Stopping));
  }

  /** Starting an acquisition establishes the invariant whatever the channel and the names of the
      head's buffers were before, also when the start fails. */
  lemma StartKeeps(c: Channel, slots: Slots, startbuf: nat, mode: Mode, frames: int, hardwareOk: bool)
    requires c.fifo >= 1 && |slots| > 0 && c.phase != Started && c.phase != Stopping
    ensures Inv(Start(c, slots, startbuf, mode, frames, hardwareOk))
  {
    var todo := if frames == -1 then LLONG_MAX else frames;
    var f := Prepared(c, slots, startbuf, mode, todo);
    if f.readyCount == 0 && mode != Selective {
      EmptyStartKeeps(c, slots, startbuf, mode, todo, f);
    } else {
      FedStartKeeps(c, slots, startbuf, mode, todo, f);
    }
  }

  /** An acquisition is under way exactly if the hardware answers and it has a buffer or is in selective mode; else the
      channel is stopped again. It counts from zero, and the hardware has as much as it can take. */
  lemma StartMeans(c: Channel, slots: Slots, startbuf: nat, mode: Mode, frames: int, hardwareOk: bool, d: Channel)
    requires c.fifo >= 1 && |slots| > 0 && c.phase != Started && c.phase != Stopping
    requires d == Start(c, slots, startbuf, mode, frames, hardwareOk)
    ensures d.phase == (if hardwareOk && (mode == Selective || exists i :: Present(slots, i)) then Started else Stopped)
    ensures d.hist.running <==> d.phase == Started
    ensures d.active && d.mode == mode && d.latest == 0 && d.good == 0 && d.lost == 0 && d.grabbed == [] &&
            d.lockedCount == 0
    ensures d.phase == Started ==> d.todo == Requested(frames) == d.hist.requested && Full(d)
    ensures d.phase == Started ==> d.hot + d.ready == d.hist.order
    ensures d.phase == Stopped ==> d.todo == 0
  {
    var todo := Requested(frames);
    var f := Prepared(c, slots, startbuf, mode, todo);
    if mode != Selective { PickSome(slots, mode, startbuf); }
    assert f.readyCount == 0 <==> f.ready == [];
    if !(f.readyCount == 0 && mode != Selective) {
      PreparedInv(c, slots, startbuf, mode, todo);
      InvUsable(f);
      QueueMaxFeeds(f, QueueMax(f));
    }
  }

  /** The number of frames an acquisition is asked for; -1 means as many as can be counted. */
  function Requested(frames: int): int { if frames == -1 then 0x7fff_ffff_ffff_ffff else frames }

  lemma PickSome(slots: Slots, m: Mode, startbuf: nat)
    requires |slots| > 0 && m != Selective
    ensures ReadyPicks(slots, m, startbuf, |slots|) != [] <==> exists i :: Present(slots, i)
  {
    var picks := ReadyPicks(slots, m, startbuf, |slots|);
    PicksExact(slots, m, startbuf, |slots|);
    if picks != [] { assert picks[0] in picks && Present(slots, picks[0]); }
    if i :| Present(slots, i) {
      VisitsAll(startbuf, |slots|, i);
      assert BecomesReady(slots, m, i);
    }
  }
}
