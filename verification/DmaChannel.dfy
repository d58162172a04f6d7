/** The DMA channel as the driver works on it: fields updated in place under the channel's locks.
    Every method is proved against the function of `ChannelModel` that states its effect. */
module DmaChannel {
  import opened Lists
  import opened ChannelModel
  import opened ChannelInvariant
  import opened ChannelRuns

  // ---------------------------------------------------------------- loop steps

  lemma HeatStep(slots: Slots, s: seq<int>, k: nat)
    requires k < |s| && Present(slots, s[k])
    ensures Present(HeatAll(slots, s[..k]), s[k])
    ensures HeatAll(slots, s[..k + 1]) == HeatAll(slots, s[..k])[s[k] := Some(Buffer(HotList, 0))]
  {
    assert s[..k + 1] == s[..k] + [s[k]];
  }

  lemma RenameStep(slots: Slots, s: seq<int>, k: nat, name: ListName)
    requires k < |s| && Present(slots, s[k])
    ensures Present(RenameAll(slots, s[..k], name), s[k])
    ensures RenameAll(slots, s[..k + 1], name) == Rename(RenameAll(slots, s[..k], name), s[k], name)
  {
    assert s[..k + 1] == s[..k] + [s[k]];
  }

  /** The slots after `k` turns of the loop of `men_clean_bh`. */
  ghost function CleanedSlots(slots: Slots, m: Mode, startbuf: nat, k: nat): Slots
    requires |slots| > 0
  {
    seq(|slots|, i requires 0 <= i < |slots| =>
      if Visited(startbuf, |slots|, k, i) then CleanName(slots, m, i) else slots[i])
  }

  lemma CleanedStep(slots: Slots, m: Mode, startbuf: nat, k: nat)
    requires k < |slots|
    ensures var i := Visit(startbuf, |slots|, k);
            && CleanedSlots(slots, m, startbuf, k)[i] == slots[i]
            && CleanedSlots(slots, m, startbuf, k + 1) ==
                CleanedSlots(slots, m, startbuf, k)[i := CleanName(slots, m, i)]
  {
    var n := |slots|;
    var i := Visit(startbuf, n, k);
    VisitedOnce(startbuf, n, k);
  }

  lemma CleanedAll(slots: Slots, m: Mode, startbuf: nat)
    requires |slots| > 0
    ensures CleanedSlots(slots, m, startbuf, 0) == slots
    ensures CleanedSlots(slots, m, startbuf, |slots|) == AllCleaned(slots, m)
  {
    forall i: nat | i < |slots| ensures Visited(startbuf, |slots|, |slots|, i) { VisitsAll(startbuf, |slots|, i); }
  }

  lemma ReleasedUsable(c: Channel, i: nat)
    requires Usable(c)
    requires Named(c.slots, i, NoList) || (Named(c.slots, i, GrabbedList) && i in c.grabbed)
    ensures Usable(Released(c, i))
  {
    assert forall j :: Present(c.slots, j) ==> Present(Released(c, i).slots, j);
  }

  lemma RequeuedUsable(c: Channel, i: nat)
    requires Usable(c) && Present(c.slots, i) && i in c.free
    ensures Usable(Requeued(c, i))
  {
    assert forall j :: Present(c.slots, j) ==> Present(Requeued(c, i).slots, j);
  }

  lemma PreparedUsable(c: Channel, slots: Slots, startbuf: nat, mode: Mode, todo: int)
    requires |slots| > 0
    ensures Usable(Prepared(c, slots, startbuf, mode, todo))
  {
    CleanUsable(c.(mode := mode, active := true, phase := Starting, slots := slots, todo := todo, latest := 0),
        startbuf);
  }

  /** Starting depends on nothing of the old channel but the depth of its hardware queue. */
  lemma PreparedIgnores(c: Channel, d: Channel, slots: Slots, startbuf: nat, mode: Mode, todo: int)
    requires |slots| > 0 && c.fifo == d.fifo
    ensures Prepared(c, slots, startbuf, mode, todo) == Prepared(d, slots, startbuf, mode, todo)
  {
  }

  /** Slot `i` can be unlocked after the slots before it. */
  ghost predicate Unlockable(c: Channel, i: nat) {
    var b := UnlockUpTo(c, i);
    && Usable(b) && i < |b.slots| == |c.slots| && (Named(b.slots, i, GrabbedList) ==> i in b.grabbed)
    && UnlockUpTo(c, i + 1) == Unblock(b, i) && |UnlockUpTo(c, i + 1).slots| == |c.slots|
  }

  lemma UnlockStep(c: Channel, i: nat)
    requires Inv(c) && i < |c.slots|
    ensures Unlockable(c, i)
  {
    var b := UnlockUpTo(c, i);
    UnlockKeeps(c, i, b);
    UnlockSlotKeeps(b, i, UnlockUpTo(c, i + 1));
  }

  lemma AllUnlockable(c: Channel)
    requires Inv(c)
    ensures forall i: nat :: i < |c.slots| ==> Unlockable(c, i)
  {
    forall i: nat | i < |c.slots| ensures Unlockable(c, i) { UnlockStep(c, i); }
  }

  // ---------------------------------------------------------------- the channel

  datatype StartResult = StartOk | StartInvalid | StartBusy | StartFailed

  /** The stop work when it is cancelled: taken from the queue, run to its end, or not there at all. */
  datatype Work = Cancelled | Finished | NotPending

  /** The head, looked up again after the wait. */
  datatype HeadAfter = Same | Gone | Changed

  const CPU_TO_DEVICE: nat := 1

  class DmaChan {
    var mode: Mode
    var phase: Phase
    var active: bool
    const fifo: nat
    var slots: Slots
    var free: seq<int>
    var ready: seq<int>
    var grabbed: seq<int>
    var hot: seq<int>
    var freeCount: int
    var readyCount: int
    var grabbedCount: int
    var hotCount: int
    var lockedCount: int
    var lost: int
    var good: int
    var latest: nat
    var todo: int
    ghost var hist: History

    ghost function View(): Channel
      reads this
    {
      Channel(mode, phase, active, fifo, slots, free, ready, grabbed, hot,
              freeCount, readyCount, grabbedCount, hotCount, lockedCount, lost, good, latest, todo, hist)
    }

    /** `men_create_dmachan`. */
    constructor (fifoLength: nat)
      requires fifoLength >= 1
      ensures View() == Fresh(fifoLength) && Inv(View())
    {
      mode, phase, active, fifo, slots := Continuous, Starting, false, fifoLength, [];
      free, ready, grabbed, hot := [], [], [], [];
      freeCount, readyCount, grabbedCount, hotCount, lockedCount := 0, 0, 0, 0, 0;
      lost, good, latest, todo := 0, 0, 0, 0;
      hist := History(0, [], [], [], false, false);
      new;
      assert Locked(slots) == {};
    }

    /** The `switch` on the mode in `men_move_hot`. */
    method Enlist(sb: int)
      modifies `free, `freeCount, `ready, `readyCount, `grabbed, `grabbedCount
      ensures grabbed == (if mode == Handshake then old(grabbed) + [sb] else old(grabbed))
      ensures free == (if mode == Selective then old(free) + [sb] else old(free))
      ensures ready == (if mode in {Continuous, Pulse} then old(ready) + [sb] else old(ready))
      ensures grabbedCount == (if mode == Handshake then old(grabbedCount) + 1 else old(grabbedCount))
      ensures freeCount == (if mode == Selective then old(freeCount) + 1 else old(freeCount))
      ensures readyCount == (if mode in {Continuous, Pulse} then old(readyCount) + 1 else old(readyCount))
    {
      match mode {
        case Handshake =>
          grabbed := grabbed + [sb];
          grabbedCount := grabbedCount + 1;
        case Selective =>
          free := free + [sb];
          freeCount := freeCount + 1;
        case _ =>
          ready := ready + [sb];
          readyCount := readyCount + 1;
      }
    }

    /** A completed buffer leaves the hardware. */
    method Deliver(sb: int)
      requires sb == DUMMY || Present(slots, sb)
      modifies `slots, `free, `freeCount, `ready, `readyCount, `grabbed, `grabbedCount, `lost, `good
      ensures View() == Delivered(old(View()), sb)
    {
      if sb == DUMMY {
        lost := lost + 1;
      } else {
        DeliverReal(sb);
      }
    }

    method DeliverReal(sb: int)
      requires sb != DUMMY && Present(slots, sb)
      modifies `slots, `free, `freeCount, `ready, `readyCount, `grabbed, `grabbedCount, `good
      ensures View() == Delivered(old(View()), sb)
    {
      Enlist(sb);
      slots := Rename(slots, sb, Destination(mode));
      good := good + 1;
    }

    /** The counters that every completed frame advances, and the unlinked node. */
    method AdvanceFrame()
      requires hot != []
      modifies `hot, `hotCount, `todo, `latest, `hist
      ensures View() == Advanced(old(View()))
    {
      hist := hist.(landed := hist.landed + [hot[0]]);
      hot := hot[1..];
      todo := todo - 1;
      hotCount := hotCount - 1;
      latest := latest + 1;
    }

    /** `men_move_hot`. */
    method MoveHotBuffer() returns (b: Option<int>)
      requires HotSafe(View())
      modifies this
      ensures View() == MoveHot(old(View()))
      ensures b == if !active || old(hotCount) == 0 then None else Some(old(hot[0]))
    {
      if !active {
        lost := lost + 1;
        todo := 0;
        return None;
      }
      if hotCount == 0 {
        lost := lost + 1;
        return None;
      }
      b := Some(hot[0]);
      MoveOldest();
    }

    method MoveOldest()
      requires HotSafe(View()) && active && hotCount != 0
      modifies this
      ensures View() == MoveHot(old(View()))
    {
      var sb := hot[0];
      AdvanceFrame();
      Deliver(sb);
    }

    /** One turn of the frame loop in `me6_dma_irq`, under the list lock. */
    method OnFrame() returns (b: Option<int>)
      requires HotSafe(View())
      modifies this
      ensures View() == FrameDone(old(View()))
      ensures b == if !active || old(hotCount) == 0 then None else Some(old(hot[0]))
    {
      b := MoveHotBuffer();
      if b.Some? && b.value != DUMMY {
        var sb := b.value;
        slots := slots[sb := Some(slots[sb].value.(frame := latest))];
      }
    }

    /** The oldest ready buffer goes to the hardware. */
    method QueueOldest()
      requires ready != [] && Present(slots, ready[0])
      modifies `ready, `hot, `readyCount, `hotCount, `slots, `hist
      ensures ready == old(ready)[1..] && hot == old(hot) + [old(ready)[0]]
      ensures readyCount == old(readyCount) - 1 && hotCount == old(hotCount) + 1
      ensures slots == old(slots)[old(ready)[0] := Some(Buffer(HotList, 0))]
      ensures hist == old(hist).(queued := old(hist).queued + [old(ready)[0]])
    {
      var sb := ready[0];
      ready := ready[1..];
      hot := hot + [sb];
      readyCount := readyCount - 1;
      hotCount := hotCount + 1;
      slots := slots[sb := Some(Buffer(HotList, 0))];
      hist := hist.(queued := hist.queued + [sb]);
    }

    /** The queueing loop of `men_dma_queue_max`. */
    method QueueReady(n: nat)
      requires n <= |ready| && forall j :: 0 <= j < |ready| ==> Present(slots, ready[j])
      modifies `ready, `hot, `readyCount, `hotCount, `slots, `hist
      ensures ready == old(ready)[n..] && hot == old(hot) + old(ready)[..n]
      ensures readyCount == old(readyCount) - n && hotCount == old(hotCount) + n
      ensures slots == HeatAll(old(slots), old(ready)[..n])
      ensures hist == old(hist).(queued := old(hist).queued + old(ready)[..n])
    {
      ghost var s, h, was := ready, hot, slots;
      ghost var q := hist.queued;
      assert HeatAll(slots, s[..0]) == slots;
      for k := 0 to n
        invariant ready == s[k..] && hot == h + s[..k]
        invariant readyCount == old(readyCount) - k && hotCount == old(hotCount) + k
        invariant slots == HeatAll(was, s[..k])
        invariant hist == old(hist).(queued := q + s[..k])
      {
        HeatStep(was, s, k);
        assert s[..k + 1] == s[..k] + [s[k]];
        QueueOldest();
      }
    }

    method QueueDummy()
      modifies `hot, `hotCount, `hist
      ensures hot == [DUMMY] + old(hot) && hotCount == old(hotCount) + 1
      ensures hist == old(hist).(queued := old(hist).queued + [DUMMY])
    {
      hot := [DUMMY] + hot;
      hotCount := hotCount + 1;
      hist := hist.(queued := hist.queued + [DUMMY]);
    }

    /** `men_dma_queue_max`. */
    method QueueAsManyAsPossible()
      requires Usable(View())
      modifies `ready, `hot, `readyCount, `hotCount, `slots, `hist
      ensures View() == QueueMax(old(View()))
    {
      if todo > hotCount {
        if mode == Handshake && readyCount == 0 {
          if hotCount == 0 && active { QueueDummy(); }
        } else {
          assert forall j :: 0 <= j < |ready| ==> ready[j] in ready;
          QueueReady(Min(Min(todo - hotCount, readyCount), fifo - hotCount));
        }
      }
    }

    /** The frame loop of `me6_dma_irq`, without another thread in between. */
    method OnFrames(n: nat)
      requires Inv(View())
      modifies this
      ensures View() == Frames(old(View()), n)
    {
      ghost var c := View();
      for k := 0 to n
        invariant View() == Frames(c, k)
      {
        FramesStep(c, k);
        var _ := OnFrame();
      }
    }

    /** `me6_dma_irq` with an active head. */
    method OnActiveInterrupt(n: nat)
      requires Inv(View()) && active
      modifies this
      ensures View() == InterruptTail(Frames(old(View()), n), n)
    {
      FramesStep(View(), n);
      OnFrames(n);
      if todo > 0 {
        if n > 0 { QueueAsManyAsPossible(); }
      } else {
        phase := Stopping;
      }
    }

    /** `me6_dma_irq` for `n` new frames, or with an overflowed frame counter. */
    method OnInterrupt(n: nat, overflow: bool)
      requires Inv(View())
      modifies this
      ensures View() == if overflow then Strayed(old(View()), 1)
                        else if old(active) then InterruptTail(Frames(old(View()), n), n)
                        else Strayed(old(View()), n)
    {
      if overflow {
        lost := lost + 1;
      } else if active {
        OnActiveInterrupt(n);
      } else {
        for i := 0 to n
          invariant View() == Strayed(old(View()), i)
        {
          lost := lost + 1;
        }
      }
    }

    /** `men_next_blocked`. */
    method NextImage() returns (b: Option<int>)
      requires Usable(View())
      modifies this
      ensures View() == NextBlocked(old(View()))
      ensures b == if old(grabbed) == [] then None else Some(old(grabbed[0]))
    {
      if grabbedCount == 0 { return None; }
      var sb := grabbed[0];
      assert sb in grabbed;
      grabbed := grabbed[1..];
      grabbedCount := grabbedCount - 1;
      lockedCount := lockedCount + 1;
      slots := Rename(slots, sb, NoList);
      b := Some(sb);
    }

    /** One turn of the loop in `men_last_blocked`. */
    method GiveBackOldest()
      requires grabbed != [] && Present(slots, grabbed[0])
      modifies `grabbed, `ready, `grabbedCount, `readyCount, `slots
      ensures grabbed == old(grabbed)[1..] && ready == old(ready) + [old(grabbed)[0]]
      ensures grabbedCount == old(grabbedCount) - 1 && readyCount == old(readyCount) + 1
      ensures slots == Rename(old(slots), old(grabbed)[0], ReadyList)
    {
      var sb := grabbed[0];
      grabbed := grabbed[1..];
      ready := ready + [sb];
      readyCount := readyCount + 1;
      grabbedCount := grabbedCount - 1;
      slots := Rename(slots, sb, ReadyList);
    }

    /** The loop of `men_last_blocked`. */
    method GiveBackOlder()
      requires grabbedCount == |grabbed| > 0 && forall j :: 0 <= j < |grabbed| ==> Present(slots, grabbed[j])
      modifies `grabbed, `ready, `grabbedCount, `readyCount, `slots
      ensures var m := |old(grabbed)| - 1;
              && grabbed == [old(grabbed)[m]] && ready == old(ready) + old(grabbed)[..m]
              && grabbedCount == 1 && readyCount == old(readyCount) + m
              && slots == RenameAll(old(slots), old(grabbed)[..m], ReadyList)
    {
      ghost var s, r, was := grabbed, ready, slots;
      ghost var k := 0;
      assert RenameAll(slots, s[..0], ReadyList) == slots;
      while grabbedCount > 1
        invariant 0 <= k < |s| && grabbedCount == |s| - k && readyCount == old(readyCount) + k
        invariant grabbed == s[k..] && ready == r + s[..k]
        invariant slots == RenameAll(was, s[..k], ReadyList)
        decreases |s| - k
      {
        RenameStep(was, s, k, ReadyList);
        assert s[..k + 1] == s[..k] + [s[k]];
        GiveBackOldest();
        k := k + 1;
      }
    }

    /** The end of `men_last_blocked`: the only grabbed buffer left is locked. */
    method LockNewest()
      requires grabbed != [] && Present(slots, grabbed[0])
      modifies `grabbed, `grabbedCount, `slots, `lockedCount
      ensures grabbed == [] && grabbedCount == 0 && lockedCount == old(lockedCount) + 1
      ensures slots == Rename(old(slots), old(grabbed)[0], NoList)
    {
      var last := grabbed[0];
      grabbed := [];
      grabbedCount := 0;
      lockedCount := lockedCount + 1;
      slots := Rename(slots, last, NoList);
    }

    /** `men_last_blocked`. */
    method ActImage() returns (b: Option<int>)
      requires CountsMatch(View()) && ListsPresent(View())
      modifies `grabbed, `ready, `grabbedCount, `readyCount, `slots, `lockedCount
      ensures View() == LastBlocked(old(View()))
      ensures b == if old(grabbed) == [] then None else Some(old(grabbed[|grabbed| - 1]))
    {
      if grabbedCount == 0 { return None; }
      assert forall j :: 0 <= j < |grabbed| ==> grabbed[j] in grabbed;
      var sb := HandOutNewest();
      b := Some(sb);
    }

    method HandOutNewest() returns (b: int)
      requires CountsMatch(View()) && ListsPresent(View()) && grabbed != [] &&
               forall j :: 0 <= j < |grabbed| ==> Present(slots, grabbed[j])
      modifies `grabbed, `ready, `grabbedCount, `readyCount, `slots, `lockedCount
      ensures View() == LastBlocked(old(View())) && b == old(grabbed[|grabbed| - 1])
    {
      GiveBackOlder();
      b := grabbed[0];
      LockNewest();
    }

    /** The list part of `men_unblock_buffer`. */
    method MakeReady(i: nat)
      requires Named(slots, i, NoList) || (Named(slots, i, GrabbedList) && i in grabbed)
      modifies `slots, `ready, `readyCount, `grabbed, `grabbedCount, `lockedCount
      ensures View() == Released(old(View()), i)
    {
      TakeBack(i);
      slots := Rename(slots, i, ReadyList);
      ready := ready + [i];
      readyCount := readyCount + 1;
    }

    /** The buffer is no longer grabbed or locked. */
    method TakeBack(i: nat)
      requires Present(slots, i) && (slots[i].value.list == GrabbedList ==> i in grabbed)
      modifies `grabbed, `grabbedCount, `lockedCount
      ensures if slots[i].value.list == GrabbedList
              then grabbed == Remove(old(grabbed), i) && grabbedCount == old(grabbedCount) - 1 &&
                  lockedCount == old(lockedCount)
              else grabbed == old(grabbed) && grabbedCount == old(grabbedCount) && lockedCount == old(lockedCount) - 1
    {
      if slots[i].value.list == GrabbedList {
        grabbed := Remove(grabbed, i);
        grabbedCount := grabbedCount - 1;
      } else {
        lockedCount := lockedCount - 1;
      }
    }

    /** `men_unblock_buffer`. */
    method UnblockBuffer(i: nat)
      requires Usable(View()) && i < |slots| && (Named(slots, i, GrabbedList) ==> i in grabbed)
      modifies this
      ensures View() == Unblock(old(View()), i)
    {
      if slots[i].None? || slots[i].value.list !in {GrabbedList, NoList} { return; }
      ReleasedUsable(View(), i);
      MakeReady(i);
      if hotCount <= 1 && readyCount > 0 {
        QueueAsManyAsPossible();
      }
    }

    /** The first `i` slots of `c` are unlocked. */
    ghost predicate Unlocked(c: Channel, i: nat)
      reads this
    {
      i <= |slots| == |c.slots| && View() == UnlockUpTo(c, i)
    }

    /** One turn of the unlock loop. */
    method UnblockNext(ghost c: Channel, i: nat)
      requires Unlockable(c, i) && Unlocked(c, i)
      modifies this
      ensures Unlocked(c, i + 1)
    {
      UnblockBuffer(i);
    }

    /** The unlock loop. */
    method UnblockSlots(ghost c: Channel)
      requires c == View() && forall i: nat :: i < |c.slots| ==> Unlockable(c, i)
      modifies this
      ensures Unlocked(c, |c.slots|)
    {
      for i := 0 to |slots|
        invariant Unlocked(c, i)
      {
        UnblockNext(c, i);
      }
    }

    /** `men_ioctl_unlock_buffer` with index -1. The two `assert`s are the driver's BUG_ONs. */
    method UnblockAll()
      requires Inv(View())
      modifies this
      ensures View() == UnlockUpTo(old(View()), old(|slots|))
    {
      ghost var c := View();
      AllUnlockable(c);
      UnblockSlots(c);
      UnlockAllClears(c, View());
      assert grabbedCount == 0;
      assert lockedCount == 0;
    }

    /** `men_queue_buffer`; the caller's duty is to name a buffer in the free list. */
    method EnqueueBuffer(i: nat) returns (ok: bool)
      requires Usable(View()) && active && Named(slots, i, FreeList) && i in free
      modifies this
      ensures View() == QueueBuffer(old(View()), i)
      ensures ok <==> old(phase) in {Stopping, Stopped} || old(mode) == Selective
    {
      ghost var c := View();
      if phase == Stopped || phase == Stopping {
        slots := Rename(slots, i, ReadyList);
        return true;
      }
      if mode != Selective { return false; }
      free := Remove(free, i);
      ready := ready + [i];
      slots := Rename(slots, i, ReadyList);
      freeCount := freeCount - 1;
      readyCount := readyCount + 1;
      RequeuedUsable(c, i);
      QueueAsManyAsPossible();
      ok := true;
    }

    /** `list_del` on the node of buffer `i`. */
    method UnlinkNode(i: nat)
      modifies `free, `ready, `grabbed, `hot
      ensures View() == Unlink(old(View()), i)
    {
      if i in free { free := Remove(free, i); }
      else if i in ready { ready := Remove(ready, i); }
      else if i in grabbed { grabbed := Remove(grabbed, i); }
      else if i in hot { hot := Remove(hot, i); }
    }

    /** The `switch` on `listname` in `men_free_userbuf`. */
    method CountDown(name: ListName)
      modifies `freeCount, `readyCount, `grabbedCount, `hotCount, `lockedCount
      ensures View() == Decrement(old(View()), name)
    {
      match name {
        case FreeList => freeCount := freeCount - 1;
        case ReadyList => readyCount := readyCount - 1;
        case GrabbedList => grabbedCount := grabbedCount - 1;
        case NoList => lockedCount := lockedCount - 1;
        case HotList => hotCount := hotCount - 1;
      }
    }

    /** `men_free_userbuf`, for any list name. The driver accepts the index one behind the table, which its
        caller must not name. */
    method UnregisterBuffer(i: nat) returns (ok: bool)
      requires i != |slots|
      modifies this
      ensures View() == FreeBuffer(old(View()), i)
      ensures ok <==> !FreeRefused(old(View()), i)
    {
      if i >= |slots| || slots[i].None? { return false; }
      if phase != Stopped && slots[i].value.list == HotList { return false; }
      var name := slots[i].value.list;
      if name != NoList { UnlinkNode(i); }
      CountDown(name);
      slots := slots[i := None];
      hist := hist.(fixed := false);
      ok := true;
    }

    /** The list part of `men_create_userbuf`. */
    method RegisterBuffer(i: nat) returns (ok: bool)
      modifies this
      ensures View() == CreateBuffer(old(View()), i)
      ensures ok <==> i < old(|slots|) && old(slots)[i].None?
    {
      if i >= |slots| || slots[i].Some? { return false; }
      slots := slots[i := Some(Buffer(FreeList, 0))];
      free := free + [i];
      freeCount := freeCount + 1;
      ok := true;
    }

    /** One turn of the loop in `men_clean_bh`. */
    method CleanSlot(i: nat)
      requires i < |slots|
      modifies `slots, `ready, `readyCount, `free, `freeCount
      ensures slots == old(slots)[i := CleanName(old(slots), mode, i)]
      ensures ready == old(ready) + (if BecomesReady(old(slots), mode, i) then [i] else [])
      ensures readyCount == old(readyCount) + (if BecomesReady(old(slots), mode, i) then 1 else 0)
      ensures free == old(free) + (if BecomesFree(old(slots), mode, i) then [i] else [])
      ensures freeCount == old(freeCount) + (if BecomesFree(old(slots), mode, i) then 1 else 0)
    {
      if slots[i].Some? {
        if mode != Selective || slots[i].value.list == ReadyList {
          ready := ready + [i];
          slots := Rename(slots, i, ReadyList);
          readyCount := readyCount + 1;
        } else {
          free := free + [i];
          slots := Rename(slots, i, FreeList);
          freeCount := freeCount + 1;
        }
      }
    }

    /** The loop of `men_clean_bh`. */
    method CleanAllSlots(startbuf: nat)
      requires |slots| > 0 && free == [] && ready == [] && freeCount == 0 && readyCount == 0
      modifies `slots, `ready, `readyCount, `free, `freeCount
      ensures slots == AllCleaned(old(slots), mode)
      ensures ready == ReadyPicks(old(slots), mode, startbuf, |slots|) && readyCount == |ready|
      ensures free == FreePicks(old(slots), mode, startbuf, |slots|) && freeCount == |free|
    {
      var n := |slots|;
      ghost var was := slots;
      CleanedAll(was, mode, startbuf);
      for k := 0 to n
        invariant slots == CleanedSlots(was, mode, startbuf, k)
        invariant ready == ReadyPicks(was, mode, startbuf, k) && readyCount == |ready|
        invariant free == FreePicks(was, mode, startbuf, k) && freeCount == |free|
      {
        CleanedStep(was, mode, startbuf, k);
        CleanSlot((startbuf + k) % n);
      }
    }

    /** The resets at the top of `men_clean_bh`. */
    method EmptyLists()
      modifies `free, `freeCount, `ready, `readyCount, `hot, `hotCount, `grabbed, `grabbedCount, `lockedCount, `lost,
          `good
      ensures free == ready == hot == grabbed == []
      ensures freeCount == readyCount == hotCount == grabbedCount == lockedCount == lost == good == 0
    {
      free, freeCount := [], 0;
      ready, readyCount := [], 0;
      hot, hotCount := [], 0;
      grabbed, grabbedCount := [], 0;
      lockedCount, lost, good := 0, 0, 0;
    }

    /** `men_clean_bh`. */
    method CleanLists(startbuf: nat)
      requires |slots| > 0
      modifies this
      ensures View() == Clean(old(View()), startbuf)
    {
      EmptyLists();
      CleanAllSlots(startbuf);
    }

    /** `men_dma_clean_sync`. */
    method CleanSynchronously()
      requires phase == Stopping
      modifies this
      ensures View() == CleanSync(old(View()))
    {
      phase := Stopped;
      todo := 0;
      hist := hist.(running := false);
    }

    /** The start of `men_start_dma`, up to the hardware. */
    method Prepare(head: Slots, startbuf: nat)
      requires |head| > 0 && latest == 0
      modifies this
      ensures View() == Prepared(old(View()), head, startbuf, old(mode), old(todo))
    {
      active := true;
      slots := head;
      phase := Starting;
      CleanLists(startbuf);
      hist := History(todo, ready, [], [], true, true);
    }

    /** `men_start_dma` on a head that no other channel uses. */
    method StartDma(head: Slots, startbuf: nat, hardwareOk: bool) returns (ok: bool)
      requires |head| > 0 && fifo >= 1 && latest == 0
      modifies this
      ensures var d := Prepared(old(View()), head, startbuf, old(mode), old(todo));
              if d.readyCount == 0 && old(mode) != Selective then !ok && View() == d.(phase := Stopping)
              else ok == hardwareOk && Usable(d) && View() == QueueMax(d).(phase := if ok then Started else Stopping)
    {
      PreparedUsable(View(), head, startbuf, mode, todo);
      Prepare(head, startbuf);
      if readyCount == 0 && mode != Selective {
        phase := Stopping;
        return false;
      }
      QueueAsManyAsPossible();
      phase := if hardwareOk then Started else Stopping;
      ok := hardwareOk;
    }

    /** The second half of `fg_start_transfer`. */
    method Launch(head: Slots, startbuf: nat, newMode: Mode, frames: int, hardwareOk: bool)
      requires |head| > 0 && fifo >= 1 && phase != Started && phase != Stopping
      modifies this
      ensures View() == Start(old(View()), head, startbuf, newMode, frames, hardwareOk)
      ensures phase in {Started, Stopped}
    {
      todo := if frames == -1 then LLONG_MAX else frames;
      mode := newMode;
      latest := 0;
      PreparedIgnores(old(View()), View(), head, startbuf, newMode, todo);
      var ok := StartDma(head, startbuf, hardwareOk);
      if !ok { CleanSynchronously(); }
    }

    /** What waiting for a pending stop comes to: cleaned up here if the work was cancelled, by the work if that ran. */
    ghost predicate Waited(c: Channel, work: Work, after: HeadAfter)
      requires c.phase == Stopping
      reads this
    {
      View() == if work == Finished || (work == Cancelled && after != Gone) then CleanSync(c) else c
    }

    /** The wait of `fg_start_transfer` for a channel that is being stopped. */
    method AwaitStop(work: Work, after: HeadAfter) returns (ok: bool)
      requires phase == Stopping
      modifies this
      ensures Waited(old(View()), work, after)
      ensures ok <==> work != NotPending && after == Same
    {
      if work == Finished { CleanSynchronously(); }
      if after == Gone { return false; }
      if work == Cancelled && phase == Stopping { CleanSynchronously(); }
      ok := phase == Stopped && after == Same;
    }

    /** `fg_start_transfer` on head `head`, whose start buffer has `length` bytes. `work` and `after` are what
        waiting for a pending stop shows, `hardwareOk` is the outcome of the start handshake. */
    method StartTransfer(head: Slots, startbuf: nat, newMode: Mode, frames: int, size: nat, length: nat, direction: nat,
                         work: Work, after: HeadAfter, hardwareOk: bool) returns (r: StartResult)
      requires fifo >= 1
      modifies this
      ensures r == StartInvalid <==>
                || frames == 0 || !Present(head, startbuf) || (size != 0 && length < size) || direction > 1
                || (old(phase) != Started && newMode == Handshake && direction == CPU_TO_DEVICE)
      ensures r == StartBusy <==>
                && r != StartInvalid
                && (old(phase) == Started || (old(phase) == Stopping && (work == NotPending || after != Same)))
      ensures r == StartInvalid || (r == StartBusy && old(phase) != Stopping) ==> View() == old(View())
      ensures r == StartBusy && old(phase) == Stopping ==> Waited(old(View()), work, after)
      ensures r in {StartOk, StartFailed} ==>
        View() == Start(if old(phase) == Stopping then CleanSync(old(View())) else old(View()),
                        head, startbuf, newMode, frames, hardwareOk)
      ensures r == StartOk ==> phase == Started
      ensures r == StartFailed ==> phase == Stopped
    {
      if frames == 0 || startbuf >= |head| || head[startbuf].None? { return StartInvalid; }
      if (size != 0 && length < size) || direction > 1 { return StartInvalid; }
      if phase == Started { return StartBusy; }
      if newMode == Handshake && direction == CPU_TO_DEVICE { return StartInvalid; }
      if phase == Stopping {
        var ok := AwaitStop(work, after);
        if !ok { return StartBusy; }
      }
      Launch(head, startbuf, newMode, frames, hardwareOk);
      r := if phase == Started then StartOk else StartFailed;
    }

    /** `men_stop_dma`. */
    method StopTransfer()
      modifies this
      ensures View() == Stop(old(View()))
    {
      if phase == Started && todo > 0 {
        todo := 0;
        phase := Stopping;
        hist := hist.(running := false);
      }
    }
  }

  /** `n` frames completed in a row. */
  ghost function Frames(c: Channel, n: nat): (d: Channel)
    requires Inv(c)
    ensures Usable(d) && Inv(d)
  {
    if n == 0 then c
    else
      FrameDoneKeeps(Frames(c, n - 1));
      FrameDone(Frames(c, n - 1))
  }

  lemma FramesStep(c: Channel, n: nat)
    requires Inv(c)
    ensures Usable(Frames(c, n)) && HotSafe(Frames(c, n)) && Frames(c, n + 1) == FrameDone(Frames(c, n))
  {
    UsableHotSafe(Frames(c, n));
  }
}
