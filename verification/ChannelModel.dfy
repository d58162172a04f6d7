/** One DMA channel and its active buffer head, as a value.

    Each function is the effect of one critical section of the driver. Buffers are named by their
    index in the head's table; the dummy buffer has index -1, as in the driver. The `History` part
    records what happened since the acquisition started; no function of the driver reads it. */
module ChannelModel {
  import opened Lists

  datatype ListName = FreeList | GrabbedList | HotList | NoList | ReadyList
  datatype Mode = Continuous | Pulse | Handshake | Selective
  datatype Phase = Starting | Started | Stopping | Stopped

  datatype Buffer = Buffer(list: ListName, frame: nat)
  type Slots = seq<Option<Buffer>>

  const DUMMY: int := -1

  /** `requested`: frames asked for; `order`: the ready list right after the start;
      `landed`: the buffer each completed frame went to; `queued`: every buffer handed to the
      hardware, in order; `running`: neither stopped nor timed out since the start;
      `fixed`: no buffer was unregistered since the start. */
  datatype History = History(requested: int, order: seq<int>, landed: seq<int>, queued: seq<int>,
                             running: bool, fixed: bool)

  datatype Channel = Channel(
    mode: Mode, phase: Phase, active: bool, fifo: nat, slots: Slots,
    free: seq<int>, ready: seq<int>, grabbed: seq<int>, hot: seq<int>,
    freeCount: int, readyCount: int, grabbedCount: int, hotCount: int, lockedCount: int,
    lost: int, good: int, latest: nat, todo: int, hist: History)

  predicate Present(slots: Slots, i: int) {
    0 <= i < |slots| && slots[i].Some?
  }

  predicate Named(slots: Slots, i: int, name: ListName) {
    Present(slots, i) && slots[i].value.list == name
  }

  function Rename(slots: Slots, i: int, name: ListName): (r: Slots)
    requires Present(slots, i)
    ensures |r| == |slots|
  {
    slots[i := Some(slots[i].value.(list := name))]
  }

  function Min(a: int, b: int): int { if a < b then a else b }
  function Max(a: int, b: int): int { if a < b then b else a }

  // ---------------------------------------------------------------- frame interrupt

  /** Where a filled buffer goes. */
  function Destination(m: Mode): ListName {
    match m
    case Handshake => GrabbedList
    case Selective => FreeList
    case _ => ReadyList
  }

  /** The counters agree with the lists; all that the critical sections need in order not to walk
      off a list. */
  ghost predicate CountsMatch(c: Channel) {
    && c.freeCount == |c.free|
    && c.readyCount == |c.ready|
    && c.grabbedCount == |c.grabbed|
    && c.hotCount == |c.hot|
  }

  /** Every list holds registered buffers only, apart from the dummy in the hot list. */
  ghost predicate ListsPresent(c: Channel) {
    && (forall i :: i in c.free ==> Present(c.slots, i))
    && (forall i :: i in c.ready ==> Present(c.slots, i))
    && (forall i :: i in c.grabbed ==> Present(c.slots, i))
    && (forall i :: i in c.hot && i != DUMMY ==> Present(c.slots, i))
  }

  ghost predicate Usable(c: Channel) {
    CountsMatch(c) && ListsPresent(c) && |c.hot| <= c.fifo
  }

  /** The hot list can be popped when its counter says so. */
  predicate HotSafe(c: Channel) {
    c.hotCount != 0 ==> c.hot != [] && (c.hot[0] == DUMMY || Present(c.slots, c.hot[0]))
  }

  lemma UsableHotSafe(c: Channel)
    requires CountsMatch(c) && ListsPresent(c)
    ensures HotSafe(c)
  {
    assert c.hot != [] ==> c.hot[0] in c.hot;
  }

  /** A completed buffer enters the list that the mode selects; the dummy counts as lost. */
  function Delivered(c: Channel, b: int): Channel
    requires b == DUMMY || Present(c.slots, b)
  {
    if b == DUMMY then
      c.(lost := c.lost + 1)
    else
      var d := c.(slots := Rename(c.slots, b, Destination(c.mode)), good := c.good + 1);
      match c.mode
      case Handshake => d.(grabbed := c.grabbed + [b], grabbedCount := c.grabbedCount + 1)
      case Selective => d.(free := c.free + [b], freeCount := c.freeCount + 1)
      case _ => d.(ready := c.ready + [b], readyCount := c.readyCount + 1)
  }

  /** The counters of a completed frame; its buffer leaves the hardware queue. */
  function Advanced(c: Channel): Channel
    requires c.hot != []
  {
    c.(hot := c.hot[1..], hotCount := c.hotCount - 1, todo := c.todo - 1, latest := c.latest + 1,
       hist := c.hist.(landed := c.hist.landed + [c.hot[0]]))
  }

  /** `men_move_hot`: the oldest buffer of the hardware queue is complete. */
  function MoveHot(c: Channel): Channel
    requires HotSafe(c)
  {
    if !c.active then
      c.(lost := c.lost + 1, todo := 0)
    else if c.hotCount == 0 then
      c.(lost := c.lost + 1)
    else
      Delivered(Advanced(c), c.hot[0])
  }

  /** One turn of the frame loop in `me6_dma_irq`: `men_move_hot`, then the frame number. */
  function FrameDone(c: Channel): Channel
    requires HotSafe(c)
  {
    var d := MoveHot(c);
    if c.active && c.hotCount != 0 && c.hot[0] != DUMMY then
      var b := c.hot[0];
      d.(slots := d.slots[b := Some(d.slots[b].value.(frame := d.latest))])
    else d
  }

  // ---------------------------------------------------------------- feeding the hardware

  /** All buffers in `moved` become HOT and lose their frame number. */
  function HeatAll(slots: Slots, moved: seq<int>): (r: Slots)
    ensures |r| == |slots|
  {
    seq(|slots|, i requires 0 <= i < |slots| =>
      if slots[i].Some? && i in moved then Some(Buffer(HotList, 0)) else slots[i])
  }

  /** The first `k` ready buffers go to the hardware. */
  function TakeReady(c: Channel, k: nat): Channel
    requires k <= |c.ready|
  {
    var moved := c.ready[..k];
    c.(ready := c.ready[k..], readyCount := c.readyCount - k,
       hot := c.hot + moved, hotCount := c.hotCount + k,
       slots := HeatAll(c.slots, moved),
       hist := c.hist.(queued := c.hist.queued + moved))
  }

  function BuffersToQueue(c: Channel): (k: int)
    ensures c.todo > c.hotCount && c.readyCount >= 0 && c.hotCount <= c.fifo ==> 0 <= k <= c.readyCount
  {
    Min(Min(c.todo - c.hotCount, c.readyCount), c.fifo - c.hotCount)
  }

  /** `men_dma_queue_max`. */
  function QueueMax(c: Channel): Channel
    requires Usable(c)
  {
    if c.todo <= c.hotCount then c
    else if c.mode == Handshake && c.readyCount == 0 then
      if c.hotCount == 0 && c.active then
        c.(hot := [DUMMY] + c.hot, hotCount := c.hotCount + 1,
           hist := c.hist.(queued := c.hist.queued + [DUMMY]))
      else c
    else TakeReady(c, BuffersToQueue(c))
  }

  /** The end of `me6_dma_irq`, after the waiters were woken. */
  function InterruptTail(c: Channel, newFrames: nat): Channel
    requires Usable(c)
  {
    if c.todo > 0 then (if newFrames > 0 then QueueMax(c) else c)
    else c.(phase := Stopping)
  }

  /** `me6_dma_irq` when the frame counter overflowed (one frame is counted as lost) or no head is active
      (all are). */
  function Strayed(c: Channel, n: nat): Channel { c.(lost := c.lost + n) }

  // ---------------------------------------------------------------- user requests

  /** `men_next_blocked`. */
  function NextBlocked(c: Channel): Channel
    requires CountsMatch(c) && ListsPresent(c)
  {
    if c.grabbedCount == 0 then c
    else c.(grabbed := c.grabbed[1..], grabbedCount := c.grabbedCount - 1,
            lockedCount := c.lockedCount + 1, slots := Rename(c.slots, c.grabbed[0], NoList))
  }

  /** All buffers in `moved` change their list name. */
  function RenameAll(slots: Slots, moved: seq<int>, name: ListName): (r: Slots)
    ensures |r| == |slots|
  {
    seq(|slots|, i requires 0 <= i < |slots| =>
      if slots[i].Some? && i in moved then Some(slots[i].value.(list := name)) else slots[i])
  }

  /** `men_last_blocked`. */
  function LastBlocked(c: Channel): Channel
    requires CountsMatch(c) && ListsPresent(c)
  {
    if c.grabbedCount == 0 then c
    else
      var older := c.grabbed[..|c.grabbed| - 1];
      var newest := c.grabbed[|c.grabbed| - 1];
      assert newest in c.grabbed;
      c.(grabbed := [], grabbedCount := 0,
         ready := c.ready + older, readyCount := c.readyCount + |older|,
         lockedCount := c.lockedCount + 1,
         slots := Rename(RenameAll(c.slots, older, ReadyList), newest, NoList))
  }

  /** `men_unblock_buffer` up to the point where it feeds the hardware. */
  function Released(c: Channel, i: nat): Channel
    requires Named(c.slots, i, NoList) || (Named(c.slots, i, GrabbedList) && i in c.grabbed)
  {
    var d := c.(slots := Rename(c.slots, i, ReadyList), ready := c.ready + [i], readyCount := c.readyCount + 1);
    if c.slots[i].value.list == GrabbedList
    then d.(grabbed := Remove(c.grabbed, i), grabbedCount := c.grabbedCount - 1)
    else d.(lockedCount := c.lockedCount - 1)
  }

  /** `men_unblock_buffer` on slot `i`, which may be empty. */
  function Unblock(c: Channel, i: nat): Channel
    requires i < |c.slots|
    requires Usable(c)
    requires Named(c.slots, i, GrabbedList) ==> i in c.grabbed
  {
    if c.slots[i].None? || c.slots[i].value.list !in {GrabbedList, NoList} then c
    else
      var d := Released(c, i);
      if d.hotCount <= 1 && d.readyCount > 0 then QueueMax(d) else d
  }

  /** A free buffer becomes ready: the list part of `men_queue_buffer`. */
  function Requeued(c: Channel, i: nat): Channel
    requires Present(c.slots, i) && i in c.free
  {
    c.(free := Remove(c.free, i), freeCount := c.freeCount - 1,
       ready := c.ready + [i], readyCount := c.readyCount + 1,
       slots := Rename(c.slots, i, ReadyList))
  }

  /** What `men_queue_buffer` does with a free buffer; it fails in an acquisition that is not in
      selective mode. */
  function QueueBuffer(c: Channel, i: nat): Channel
    requires Named(c.slots, i, FreeList) && i in c.free
    requires Usable(c)
  {
    if c.phase == Stopped || c.phase == Stopping then
      c.(slots := Rename(c.slots, i, ReadyList))
    else if c.mode != Selective then c
    else QueueMax(Requeued(c, i))
  }

  /** The list that physically holds buffer `i`. */
  function Holder(c: Channel, i: int): ListName {
    if i in c.free then FreeList
    else if i in c.ready then ReadyList
    else if i in c.grabbed then GrabbedList
    else if i in c.hot then HotList
    else NoList
  }

  /** `list_del` of buffer `i`'s node, whichever list it is in. */
  function Unlink(c: Channel, i: int): Channel {
    match Holder(c, i)
    case FreeList => c.(free := Remove(c.free, i))
    case ReadyList => c.(ready := Remove(c.ready, i))
    case GrabbedList => c.(grabbed := Remove(c.grabbed, i))
    case HotList => c.(hot := Remove(c.hot, i))
    case NoList => c
  }

  /** The counter chosen by the buffer's `listname`. */
  function Decrement(c: Channel, name: ListName): Channel {
    match name
    case FreeList => c.(freeCount := c.freeCount - 1)
    case ReadyList => c.(readyCount := c.readyCount - 1)
    case GrabbedList => c.(grabbedCount := c.grabbedCount - 1)
    case HotList => c.(hotCount := c.hotCount - 1)
    case NoList => c.(lockedCount := c.lockedCount - 1)
  }

  predicate FreeRefused(c: Channel, i: int) {
    !Present(c.slots, i) || (c.phase != Stopped && c.slots[i].value.list == HotList)
  }

  /** `men_free_userbuf` on the active head. The driver unlinks the node from whatever list holds
      it but trusts `listname` for the counter. */
  function FreeBuffer(c: Channel, i: nat): Channel {
    if FreeRefused(c, i) then c
    else
      var name := c.slots[i].value.list;
      var d := Decrement(if name != NoList then Unlink(c, i) else c, name);
      d.(slots := c.slots[i := None], hist := c.hist.(fixed := false))
  }

  /** List insertion in `men_create_userbuf`. */
  function CreateBuffer(c: Channel, i: nat): Channel {
    if i >= |c.slots| || c.slots[i].Some? then c
    else c.(slots := c.slots[i := Some(Buffer(FreeList, 0))], free := c.free + [i], freeCount := c.freeCount + 1)
  }

  // ---------------------------------------------------------------- start, stop, clean-up

  /** `men_release_buf_head` on a channel that is not started: the head is gone. */
  function ReleaseHead(c: Channel): Channel {
    if c.phase == Started then c else c.(active := false, hist := c.hist.(running := false))
  }

  /** `men_stop_dma`. */
  function Stop(c: Channel): Channel {
    if c.phase == Started && c.todo > 0
    then c.(todo := 0, phase := Stopping, hist := c.hist.(running := false))
    else c
  }

  /** `men_dma_timeout`: note that `transfer_todo` keeps its value. */
  function Timeout(c: Channel): Channel {
    c.(phase := Stopped, hist := c.hist.(running := false))
  }

  /** Index of the j-th buffer visited by `men_clean_bh`. */
  function Visit(startbuf: nat, n: nat, j: nat): (i: nat)
    requires n > 0
    ensures i < n
  {
    (startbuf + j) % n
  }

  /** Does `men_clean_bh` make this slot ready? */
  predicate BecomesReady(slots: Slots, m: Mode, i: int) {
    Present(slots, i) && (m != Selective || slots[i].value.list == ReadyList)
  }

  predicate BecomesFree(slots: Slots, m: Mode, i: int) {
    Present(slots, i) && m == Selective && slots[i].value.list != ReadyList
  }

  /** The first `k` visited slots that become ready, in visiting order. */
  function ReadyPicks(slots: Slots, m: Mode, startbuf: nat, k: nat): (r: seq<int>)
    requires |slots| > 0
  {
    if k == 0 then []
    else
      var i := Visit(startbuf, |slots|, k - 1);
      ReadyPicks(slots, m, startbuf, k - 1) + (if BecomesReady(slots, m, i) then [i] else [])
  }

  function FreePicks(slots: Slots, m: Mode, startbuf: nat, k: nat): (r: seq<int>)
    requires |slots| > 0
  {
    if k == 0 then []
    else
      var i := Visit(startbuf, |slots|, k - 1);
      FreePicks(slots, m, startbuf, k - 1) + (if BecomesFree(slots, m, i) then [i] else [])
  }

  function CleanName(slots: Slots, m: Mode, i: int): (o: Option<Buffer>)
    requires 0 <= i < |slots|
  {
    if slots[i].None? then None
    else Some(slots[i].value.(list := if BecomesReady(slots, m, i) then ReadyList else FreeList))
  }

  function AllCleaned(slots: Slots, m: Mode): (r: Slots)
    ensures |r| == |slots|
  {
    seq(|slots|, i requires 0 <= i < |slots| => CleanName(slots, m, i))
  }

  /** `men_clean_bh`: every buffer goes to ready (in selective mode: to ready or free). */
  function Clean(c: Channel, startbuf: nat): Channel
    requires |c.slots| > 0
  {
    var n := |c.slots|;
    var ready := ReadyPicks(c.slots, c.mode, startbuf, n);
    var free := FreePicks(c.slots, c.mode, startbuf, n);
    c.(free := free, freeCount := |free|, ready := ready, readyCount := |ready|,
       hot := [], hotCount := 0, grabbed := [], grabbedCount := 0,
       lockedCount := 0, lost := 0, good := 0,
       slots := AllCleaned(c.slots, c.mode))
  }

  lemma PicksPresent(slots: Slots, m: Mode, startbuf: nat, k: nat)
    requires |slots| > 0
    ensures forall i :: i in ReadyPicks(slots, m, startbuf, k) ==> BecomesReady(slots, m, i)
    ensures forall i :: i in FreePicks(slots, m, startbuf, k) ==> BecomesFree(slots, m, i)
  {
    if k > 0 { PicksPresent(slots, m, startbuf, k - 1); }
  }

  lemma CleanUsable(c: Channel, startbuf: nat)
    requires |c.slots| > 0
    ensures Usable(Clean(c, startbuf))
  {
    PicksPresent(c.slots, c.mode, startbuf, |c.slots|);
    var d := Clean(c, startbuf);
    assert forall i :: Present(c.slots, i) ==> Present(d.slots, i);
  }

  /** `men_dma_clean_sync`, which demands the state STOPPING. */
  function CleanSync(c: Channel): Channel
    requires c.phase == Stopping
  {
    c.(phase := Stopped, todo := 0, hist := c.hist.(running := false))
  }

  const LLONG_MAX: int := 0x7fff_ffff_ffff_ffff

  /** The state in which `me6_startdma` feeds the hardware for the first time. */
  function Prepared(c: Channel, slots: Slots, startbuf: nat, mode: Mode, todo: int): Channel
    requires |slots| > 0
  {
    var e := Clean(c.(mode := mode, active := true, phase := Starting, slots := slots, todo := todo, latest := 0),
        startbuf);
    e.(hist := History(todo, e.ready, [], [], true, true))
  }

  /** The accepting path of `fg_start_transfer` on a channel that is neither started nor stopping:
      counters, `men_start_dma`, and the clean-up when that fails. `hardwareOk` is the outcome of
      the start register handshake. */
  function Start(c: Channel, slots: Slots, startbuf: nat, mode: Mode, frames: int, hardwareOk: bool): Channel
    requires |slots| > 0 && c.fifo >= 1
    requires c.phase != Started && c.phase != Stopping
  {
    var todo := if frames == -1 then LLONG_MAX else frames;
    CleanUsable(c.(mode := mode, active := true, phase := Starting, slots := slots, todo := todo, latest := 0),
        startbuf);
    var d := Prepared(c, slots, startbuf, mode, todo);
    if d.readyCount == 0 && mode != Selective then CleanSync(d.(phase := Stopping))
    else if hardwareOk then QueueMax(d).(phase := Started)
    else CleanSync(QueueMax(d).(phase := Stopping))
  }
}
