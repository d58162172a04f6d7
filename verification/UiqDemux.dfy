/** The event packet demultiplexer: a word stream that arrives in batches of any size is cut into packets,
    and each packet goes to the queue its header names. */
module UiqDemux {
  import opened Lists

  const HALF: nat := 0x1_0000

  /** A queue. A read queue logs what it received; a write queue sends up to `depth` words whenever the
      board reports that it is empty. `sent` logs how many words each push sent. */
  datatype Queue = Queue(id: nat, isWrite: bool, received: seq<nat>, fill: nat, depth: nat, running: bool,
      sent: seq<nat>)

  /** `remaining` is a 16-bit number. */
  datatype Demux = Demux(remaining: nat, current: Option<nat>, queues: seq<Option<Queue>>)

  function PacketLength(header: nat): (r: nat) ensures r < HALF { header / HALF % HALF }
  function PacketId(header: nat): (r: nat) ensures r < HALF { header % HALF }

  /** Index of the first queue with this number, from `i` on. */
  function Find(queues: seq<Option<Queue>>, id: nat, i: nat): (r: Option<nat>)
    requires i <= |queues|
    ensures r.Some? ==> i <= r.value < |queues| && queues[r.value].Some? && queues[r.value].value.id == id
    decreases |queues| - i
  {
    if i == |queues| then None
    else if queues[i].Some? && queues[i].value.id == id then Some(i)
    else Find(queues, id, i + 1)
  }

  /** A write queue after the last word of a packet for it. */
  function PacketDone(q: Queue): Queue {
    if q.fill == 0 then q.(running := false)
    else
      var n := if q.depth < q.fill then q.depth else q.fill;
      q.(fill := q.fill - n, sent := q.sent + [n])
  }

  predicate Routed(d: Demux) { d.current.Some? ==> d.current.value < |d.queues| && d.queues[d.current.value].Some? }

  function CurrentQueue(d: Demux): Queue
    requires Routed(d) && d.current.Some?
  {
    d.queues[d.current.value].value
  }

  function WithQueue(d: Demux, q: Queue): Demux
    requires Routed(d) && d.current.Some?
  {
    d.(queues := d.queues[d.current.value := Some(q)])
  }

  function Header(d: Demux, w: nat): Demux {
    if w == 0 || w == 0xffff_ffff then d.(remaining := 0)
    else d.(remaining := (PacketLength(w) + HALF - 1) % HALF, current := Find(d.queues, PacketId(w), 0))
  }

  function PayloadWord(d: Demux, w: nat): Demux
    requires Routed(d) && d.remaining > 0
  {
    var e := d.(remaining := d.remaining - 1);
    if d.current.None? then e
    else if CurrentQueue(d).isWrite then (if d.remaining == 1 then WithQueue(e, PacketDone(CurrentQueue(d))) else e)
    else WithQueue(e, CurrentQueue(d).(received := CurrentQueue(d).received + [w]))
  }

  /** One word. */
  function Step(d: Demux, w: nat): (e: Demux)
    requires Routed(d)
    ensures Routed(e) && |e.queues| == |d.queues|
  {
    if d.remaining == 0 then Header(d, w) else PayloadWord(d, w)
  }

  /** The words `from` up to `to` of the stream, one by one. */
  function Feed(d: Demux, stream: seq<nat>, from: nat, to: nat): (e: Demux)
    requires Routed(d) && from <= to <= |stream|
    ensures Routed(e) && |e.queues| == |d.queues|
  {
    if from == to then d else Step(Feed(d, stream, from, to - 1), stream[to - 1])
  }

  /** Batching does not matter: two batches do what one does. */
  lemma {:induction false} FeedSplit(d: Demux, stream: seq<nat>, from: nat, mid: nat, to: nat)
    requires Routed(d) && from <= mid <= to <= |stream|
    ensures Feed(Feed(d, stream, from, mid), stream, mid, to) == Feed(d, stream, from, to)
  {
    if mid < to { FeedSplit(d, stream, from, mid, to - 1); }
  }

  /** The batches of `k` interrupts, cut at the given positions. */
  function Batches(d: Demux, stream: seq<nat>, cuts: seq<nat>, k: nat): (e: Demux)
    requires Routed(d) && k < |cuts| && Cuts(stream, cuts)
    ensures Routed(e)
  {
    if k == 0 then d else Feed(Batches(d, stream, cuts, k - 1), stream, cuts[k - 1], cuts[k])
  }

  ghost predicate Cuts(stream: seq<nat>, cuts: seq<nat>) {
    (forall i :: 0 <= i < |cuts| ==> cuts[i] <= |stream|) && forall i, j :: 0 <= i <= j < |cuts| ==> cuts[i] <= cuts[j]
  }

  /** Any number of interrupts, however the words are spread over them, ends like one big batch. */
  lemma {:induction false} AnyBatching(d: Demux, stream: seq<nat>, cuts: seq<nat>, k: nat)
    requires Routed(d) && k < |cuts| && Cuts(stream, cuts)
    ensures Batches(d, stream, cuts, k) == Feed(d, stream, cuts[0], cuts[k])
  {
    if k > 0 {
      AnyBatching(d, stream, cuts, k - 1);
      FeedSplit(d, stream, cuts[0], cuts[k - 1], cuts[k]);
    }
  }

  // ---------------------------------------------------------------- packets

  datatype Packet = Packet(id: nat, payload: seq<nat>)

  /** A packet whose header word is not one of the two the driver rejects. */
  predicate Sendable(p: Packet) {
    p.id < HALF && |p.payload| + 1 < HALF && HeaderWord(p) != 0xffff_ffff
  }

  function HeaderWord(p: Packet): nat { (|p.payload| + 1) * HALF + p.id }

  lemma HeaderReads(p: Packet)
    requires Sendable(p)
    ensures PacketLength(HeaderWord(p)) == |p.payload| + 1 && PacketId(HeaderWord(p)) == p.id && HeaderWord(p) != 0
  {
  }

  /** What one packet does to the queues: the reference the word-by-word machine is measured against. */
  function Deliver(queues: seq<Option<Queue>>, p: Packet): (r: seq<Option<Queue>>)
    ensures |r| == |queues|
  {
    var i := Find(queues, p.id, 0);
    if i.None? then queues
    else
      var q := queues[i.value].value;
      if q.isWrite then (if p.payload == [] then queues else queues[i.value := Some(PacketDone(q))])
      else queues[i.value := Some(q.(received := q.received + p.payload))]
  }

  /** The stream carries the packet at this position. */
  ghost predicate Carries(stream: seq<nat>, from: nat, p: Packet) {
    && from + 1 + |p.payload| <= |stream| && stream[from] == HeaderWord(p)
    && forall j :: 0 <= j < |p.payload| ==> stream[from + 1 + j] == p.payload[j]
  }

  /** Inside a packet, after `k` payload words. */
  function Inside(d: Demux, p: Packet, k: nat): Demux
    requires k <= |p.payload|
  {
    var i := Find(d.queues, p.id, 0);
    var queues :=
      if i.None? then d.queues
      else
        var q := d.queues[i.value].value;
        if q.isWrite then (if k == |p.payload| && k > 0 then d.queues[i.value := Some(PacketDone(q))] else d.queues)
        else d.queues[i.value := Some(q.(received := q.received + p.payload[..k]))];
    Demux(|p.payload| - k, i, queues)
  }

  lemma AfterHeader(d: Demux, p: Packet)
    requires Routed(d) && d.remaining == 0 && Sendable(p)
    ensures Step(d, HeaderWord(p)) == Inside(d, p, 0)
  {
    HeaderReads(p);
    var i := Find(d.queues, p.id, 0);
    var n := |p.payload|;
    assert (n + 1 + HALF - 1) % HALF == n;
    if i.Some? && !d.queues[i.value].value.isWrite {
      var q := d.queues[i.value].value;
      assert q.received + p.payload[..0] == q.received;
      assert d.queues[i.value := Some(q)] == d.queues;
    }
  }

  lemma AfterWord(d: Demux, p: Packet, k: nat)
    requires Routed(d) && k < |p.payload|
    ensures Routed(Inside(d, p, k)) && Step(Inside(d, p, k), p.payload[k]) == Inside(d, p, k + 1)
  {
    var i := Find(d.queues, p.id, 0);
    if i.Some? && !d.queues[i.value].value.isWrite {
      var q := d.queues[i.value].value;
      assert (q.received + p.payload[..k]) + [p.payload[k]] == q.received + p.payload[..k + 1];
    }
  }

  lemma {:induction false} FeedInside(d: Demux, stream: seq<nat>, from: nat, p: Packet, k: nat)
    requires Routed(d) && d.remaining == 0 && Sendable(p) && Carries(stream, from, p) && k <= |p.payload|
    ensures Feed(d, stream, from, from + 1 + k) == Inside(d, p, k)
  {
    if k == 0 {
      assert Feed(d, stream, from, from) == d;
      AfterHeader(d, p);
    } else {
      FeedInside(d, stream, from, p, k - 1);
      assert stream[from + 1 + (k - 1)] == p.payload[k - 1];
      AfterWord(d, p, k - 1);
    }
  }

  /** One packet on the wire has the effect of its delivery, whatever the queue. */
  lemma PacketArrives(d: Demux, stream: seq<nat>, from: nat, p: Packet, end: nat)
    requires Routed(d) && d.remaining == 0 && Sendable(p) && Carries(stream, from, p) && end == from + 1 + |p.payload|
    ensures end <= |stream|
    ensures Feed(d, stream, from, end).queues == Deliver(d.queues, p) && Feed(d, stream, from, end).remaining == 0
  {
    FeedInside(d, stream, from, p, |p.payload|);
    assert p.payload[..|p.payload|] == p.payload;
    var i := Find(d.queues, p.id, 0);
    if i.Some? && !d.queues[i.value].value.isWrite && p.payload == [] {
      var q := d.queues[i.value].value;
      assert q.received + p.payload == q.received;
    }
  }

  /** Where packet `k` begins. */
  function Offset(packets: seq<Packet>, k: nat): nat
    requires k <= |packets|
  {
    if k == 0 then 0 else Offset(packets, k - 1) + 1 + |packets[k - 1].payload|
  }

  ghost predicate CarriesNext(stream: seq<nat>, packets: seq<Packet>, k: nat) {
    k < |packets| && Sendable(packets[k]) && Carries(stream, Offset(packets, k), packets[k])
  }

  /** The stream consists of these packets. */
  ghost predicate Encodes(stream: seq<nat>, packets: seq<Packet>) {
    && (forall k :: 0 <= k < |packets| ==> CarriesNext(stream, packets, k))
    && |stream| == Offset(packets, |packets|)
  }

  function DeliverUpTo(queues: seq<Option<Queue>>, packets: seq<Packet>, k: nat): (r: seq<Option<Queue>>)
    requires k <= |packets|
    ensures |r| == |queues|
  {
    if k == 0 then queues else Deliver(DeliverUpTo(queues, packets, k - 1), packets[k - 1])
  }

  lemma {:induction false} PacketsArrive(d: Demux, stream: seq<nat>, packets: seq<Packet>, k: nat, to: nat)
    requires Routed(d) && d.remaining == 0 && Encodes(stream, packets) && k <= |packets| && to == Offset(packets, k)
    ensures to <= |stream|
    ensures Feed(d, stream, 0, to).queues == DeliverUpTo(d.queues, packets, k) && Feed(d, stream, 0, to).remaining == 0
  {
    if k == 0 {
      assert Feed(d, stream, 0, 0) == d;
    } else {
      var at := Offset(packets, k - 1);
      PacketsArrive(d, stream, packets, k - 1, at);
      assert CarriesNext(stream, packets, k - 1);
      PacketArrives(Feed(d, stream, 0, at), stream, at, packets[k - 1], to);
      FeedSplit(d, stream, 0, at, to);
    }
  }

  /** A stream of packets, cut into interrupts anywhere, also inside packets, delivers packet by packet. */
  lemma StreamDelivers(d: Demux, stream: seq<nat>, packets: seq<Packet>, cuts: seq<nat>)
    requires Routed(d) && d.remaining == 0 && Encodes(stream, packets)
    requires |cuts| > 0 && Cuts(stream, cuts) && cuts[0] == 0 && cuts[|cuts| - 1] == |stream|
    ensures var e := Batches(d, stream, cuts, |cuts| - 1);
            e.queues == DeliverUpTo(d.queues, packets, |packets|) && e.remaining == 0
  {
    AnyBatching(d, stream, cuts, |cuts| - 1);
    PacketsArrive(d, stream, packets, |packets|, |stream|);
  }

  /** Between packets a word of all zeros or all ones is skipped; a header that announces no word at all makes the
      driver take the next 65535 words for a payload. */
  lemma OddHeaders(d: Demux, w: nat)
    requires Routed(d) && d.remaining == 0
    ensures w == 0 || w == 0xffff_ffff ==> Step(d, w) == d
    ensures 0 < w < HALF ==> Step(d, w).remaining == 0xffff && Step(d, w).queues == d.queues
  {
  }

  // ---------------------------------------------------------------- per queue

  /** The queue table: which queue is where. It does not change. */
  ghost predicate SameTable(a: seq<Option<Queue>>, b: seq<Option<Queue>>) {
    |a| == |b| && forall i :: 0 <= i < |a| ==> SameQueue(a[i], b[i])
  }

  predicate SameQueue(a: Option<Queue>, b: Option<Queue>) {
    && (a.Some? <==> b.Some?)
    && (a.Some? ==> a.value.id == b.value.id && a.value.isWrite == b.value.isWrite && a.value.depth == b.value.depth)
  }

  lemma {:induction false} SameFind(a: seq<Option<Queue>>, b: seq<Option<Queue>>, id: nat, i: nat)
    requires SameTable(a, b) && i <= |a|
    ensures Find(a, id, i) == Find(b, id, i)
    decreases |a| - i
  {
    if i < |a| {
      assert SameQueue(a[i], b[i]);
      SameFind(a, b, id, i + 1);
    }
  }

  predicate HasNumber(queues: seq<Option<Queue>>, j: nat, id: nat) {
    j < |queues| && queues[j].Some? && queues[j].value.id == id
  }

  /** The search finds the first queue with the number, and fails only if there is none. */
  lemma {:induction false} FindFirst(queues: seq<Option<Queue>>, id: nat, i: nat)
    requires i <= |queues|
    ensures Find(queues, id, i).None? <==> forall j: nat :: i <= j ==> !HasNumber(queues, j, id)
    ensures Find(queues, id, i).Some? ==>
              && HasNumber(queues, Find(queues, id, i).value, id)
              && forall j: nat :: i <= j < Find(queues, id, i).value ==> !HasNumber(queues, j, id)
    decreases |queues| - i
  {
    if i < |queues| && !HasNumber(queues, i, id) {
      FindFirst(queues, id, i + 1);
    } else if i < |queues| {
      assert HasNumber(queues, i, id);
    }
  }

  /** No queue before this one has its number, as in every table with distinct numbers. */
  ghost predicate First(queues: seq<Option<Queue>>, i: nat) {
    i < |queues| && queues[i].Some? && forall j: nat :: j < i ==> !HasNumber(queues, j, queues[i].value.id)
  }

  lemma FoundIff(queues: seq<Option<Queue>>, id: nat, i: nat)
    requires i < |queues| && queues[i].Some?
    ensures Find(queues, id, 0) == Some(i) <==> First(queues, i) && queues[i].value.id == id
  {
    FindFirst(queues, id, 0);
    if First(queues, i) && queues[i].value.id == id {
      assert HasNumber(queues, i, id);
      assert Find(queues, id, 0).Some?;
    }
  }

  /** Payloads of those of the first `k` packets that carry a number. */
  function PayloadsFor(packets: seq<Packet>, k: nat, id: nat): seq<nat>
    requires k <= |packets|
  {
    if k == 0 then []
    else PayloadsFor(packets, k - 1, id) + (if packets[k - 1].id == id then packets[k - 1].payload else [])
  }

  /** A read queue receives exactly the payloads of the packets with its number, in order and complete; a second queue
      with a number receives nothing. */
  lemma {:induction false} QueueReceives(queues: seq<Option<Queue>>, packets: seq<Packet>, k: nat, i: nat)
    requires k <= |packets| && i < |queues| && queues[i].Some? && !queues[i].value.isWrite
    ensures var r, q := DeliverUpTo(queues, packets, k), queues[i].value;
            && SameTable(queues, r)
            && r[i] == Some(q.(received := q.received + if First(queues, i) then PayloadsFor(packets, k, q.id) else []))
  {
    var id := queues[i].value.id;
    if k == 0 {
      assert queues[i].value.received + [] == queues[i].value.received;
    } else {
      QueueReceives(queues, packets, k - 1, i);
      var b, p := DeliverUpTo(queues, packets, k - 1), packets[k - 1];
      SameFind(queues, b, p.id, 0);
      FoundIff(queues, p.id, i);
      var hit := Find(queues, p.id, 0) == Some(i);
      var before := if First(queues, i) then PayloadsFor(packets, k - 1, id) else [];
      var more := if hit then p.payload else [];
      assert queues[i].value.received + (before + more) == (queues[i].value.received + before) + more;
      assert hit ==> Deliver(b, p)[i] == Some(b[i].value.(received := b[i].value.received + p.payload));
      assert !hit ==> Deliver(b, p)[i] == b[i] && before + more == before;
      DeliverKeepsTable(b, p);
      TableTrans(queues, b, Deliver(b, p));
    }
  }

  /** Non-empty packets among the first `k` that carry a number. */
  function PacketsFor(packets: seq<Packet>, k: nat, id: nat): nat
    requires k <= |packets|
  {
    if k == 0 then 0
    else PacketsFor(packets, k - 1, id) + if packets[k - 1].id == id && packets[k - 1].payload != [] then 1 else 0
  }

  function Monus(a: nat, b: nat): nat { if b <= a then a - b else 0 }

  /** How many of `c` reports of an empty board make a queue of `fill` words push. */
  function Pushes(fill: nat, depth: nat, c: nat): (n: nat)
    ensures n <= c
  {
    if fill == 0 then 0 else if depth == 0 || c <= (fill + depth - 1) / depth then c else (fill + depth - 1) / depth
  }

  /** The sizes of the first `n` pushes: `depth` words, and what is left the last time. */
  function Shots(fill: nat, depth: nat, n: nat): (r: seq<nat>)
    ensures |r| == n
  {
    seq(n, j requires 0 <= j < n => if depth < Monus(fill, j * depth) then depth else Monus(fill, j * depth))
  }

  lemma MulGrows(a: nat, b: nat, d: nat)
    requires a <= b
    ensures a * d <= b * d
  {
  }

  /** Words are left after `c` pushes exactly if more pushes are needed. */
  lemma WordsLeft(fill: nat, depth: nat, c: nat)
    requires depth > 0
    ensures c * depth < fill <==> c < (fill + depth - 1) / depth
  {
    var n, rest := (fill + depth - 1) / depth, (fill + depth - 1) % depth;
    assert fill + depth - 1 == n * depth + rest;
    assert (n - 1) * depth == n * depth - depth;
    if c < n { MulGrows(c, n - 1, depth); } else { MulGrows(n, c, depth); }
  }

  /** A write queue after `c` reports. */
  function Drained(q: Queue, c: nat): Queue {
    q.(fill := Monus(q.fill, c * q.depth), sent := q.sent + Shots(q.fill, q.depth, Pushes(q.fill, q.depth, c)),
       running := q.running && (c == 0 || (c - 1) * q.depth < q.fill))
  }

  lemma DrainedFirst(q: Queue)
    ensures Drained(q, 0) == q
  {
    assert q.sent + Shots(q.fill, q.depth, 0) == q.sent;
  }

  lemma PushesNext(fill: nat, depth: nat, c: nat)
    ensures Pushes(fill, depth, c + 1) == Pushes(fill, depth, c) + if c * depth < fill then 1 else 0
    ensures c * depth < fill ==> Pushes(fill, depth, c) == c
  {
    if depth > 0 { WordsLeft(fill, depth, c); } else { assert c * depth == 0; }
  }

  lemma DrainedNext(q: Queue, c: nat)
    ensures PacketDone(Drained(q, c)) == Drained(q, c + 1)
  {
    var f, d := q.fill, q.depth;
    PushesNext(f, d, c);
    NextPush(f, c, d);
    if c > 0 { MulGrows(c - 1, c, d); }
    var n := Pushes(f, d, c);
    if c * d < f {
      assert Shots(f, d, n + 1) == Shots(f, d, n) + [if d < Monus(f, c * d) then d else Monus(f, c * d)];
    }
  }

  /** A write queue is pushed once for every non-empty packet with its number while it has words left: `depth` words
      each time, the rest at last. The first packet that finds it empty stops it. */
  lemma {:induction false} QueueDrains(queues: seq<Option<Queue>>, packets: seq<Packet>, k: nat, i: nat)
    requires k <= |packets| && i < |queues| && queues[i].Some? && queues[i].value.isWrite
    ensures SameTable(queues, DeliverUpTo(queues, packets, k))
    ensures var q := queues[i].value;
            DeliverUpTo(queues, packets, k)[i] ==
              Some(Drained(q, if First(queues, i) then PacketsFor(packets, k, q.id) else 0))
  {
    var id := queues[i].value.id;
    if k == 0 {
      DrainedFirst(queues[i].value);
    } else {
      QueueDrains(queues, packets, k - 1, i);
      var b, p := DeliverUpTo(queues, packets, k - 1), packets[k - 1];
      SameFind(queues, b, p.id, 0);
      FoundIff(queues, p.id, i);
      assert SameQueue(queues[i], b[i]);
      DeliverKeepsTable(b, p);
      TableTrans(queues, b, Deliver(b, p));
      var hit := Find(queues, p.id, 0) == Some(i) && p.payload != [];
      assert Deliver(b, p)[i] == if hit then Some(PacketDone(b[i].value)) else b[i];
      DrainedNext(queues[i].value, PacketsFor(packets, k - 1, id));
    }
  }

  lemma NextPush(fill: nat, c: nat, depth: nat)
    ensures Monus(fill, (c + 1) * depth) == Monus(Monus(fill, c * depth), depth)
  {
    assert (c + 1) * depth == c * depth + depth;
  }

  lemma DeliverKeepsTable(queues: seq<Option<Queue>>, p: Packet)
    ensures SameTable(queues, Deliver(queues, p))
  {
  }

  lemma TableTrans(a: seq<Option<Queue>>, b: seq<Option<Queue>>, c: seq<Option<Queue>>)
    requires SameTable(a, b) && SameTable(b, c)
    ensures SameTable(a, c)
  {
    forall i | 0 <= i < |a| ensures SameQueue(a[i], c[i]) {
      assert SameQueue(a[i], b[i]) && SameQueue(b[i], c[i]);
    }
  }

  // ---------------------------------------------------------------- the loop

  /** The receiving side. `next` is the position of the next word of the stream, from the message DMA or
      the data register. */
  class Receiver {
    var remaining: nat
    var current: Option<nat>
    var queues: seq<Option<Queue>>
    var stream: seq<nat>
    var next: nat

    ghost function View(): Demux
      reads this
    {
      Demux(remaining, current, queues)
    }

    ghost predicate Valid()
      reads this
    {
      Routed(View()) && next <= |stream|
    }

    /** The search loop over the active queues. */
    method Lookup(id: nat) returns (r: Option<nat>)
      ensures r == Find(queues, id, 0)
    {
      var i := 0;
      while i < |queues|
        invariant i <= |queues| && Find(queues, id, i) == Find(queues, id, 0)
      {
        if queues[i].Some? && queues[i].value.id == id { return Some(i); }
        i := i + 1;
      }
      return None;
    }

    method FetchHeader()
      requires Valid() && remaining == 0 && next < |stream|
      modifies `remaining, `current, `next
      ensures Valid() && next == old(next) + 1 && View() == Step(old(View()), stream[old(next)])
    {
      var w := stream[next];
      next := next + 1;
      if w == 0 || w == 0xffff_ffff {
        remaining := 0;
      } else {
        remaining := (PacketLength(w) + HALF - 1) % HALF;
        current := Lookup(PacketId(w));
      }
    }

    /** Payload for a write queue: the words are dropped, the end of the packet starts a push. */
    method DropForWrite(end: nat)
      requires Valid() && remaining > 0 && next < end <= |stream| && current.Some? &&
               queues[current.value].value.isWrite
      modifies `remaining, `queues, `next
      ensures Valid() && old(next) < next <= end && (next == end || remaining == 0)
      ensures View() == Feed(old(View()), stream, old(next), next)
    {
      ghost var d, from := View(), next;
      assert Feed(d, stream, from, from) == d;
      var q := queues[current.value].value;
      while next < end && remaining > 0
        invariant from <= next <= end && (next > from || remaining > 0) && queues == d.queues
        invariant remaining + (next - from) == d.remaining
        invariant remaining > 0 ==> Feed(d, stream, from, next) == View()
        invariant remaining == 0 ==> Feed(d, stream, from, next) == WithQueue(View(), PacketDone(q))
      {
        remaining := remaining - 1;
        next := next + 1;
      }
      if remaining == 0 {
        if q.fill == 0 {
          queues := queues[current.value := Some(q.(running := false))];
        } else {
          var n := if q.depth < q.fill then q.depth else q.fill;
          queues := queues[current.value := Some(q.(fill := q.fill - n, sent := q.sent + [n]))];
        }
      }
    }

    method ReceiveForRead(end: nat)
      requires Valid() && remaining > 0 && next < end <= |stream| && current.Some? &&
               !queues[current.value].value.isWrite
      modifies `remaining, `queues, `next
      ensures Valid() && old(next) < next <= end && (next == end || remaining == 0)
      ensures View() == Feed(old(View()), stream, old(next), next)
    {
      ghost var d, from := View(), next;
      while next < end && remaining > 0
        invariant Valid() && from <= next <= end && current.Some? && !queues[current.value].value.isWrite &&
                  (next > from || remaining > 0)
        invariant Feed(d, stream, from, next) == View()
      {
        var q := queues[current.value].value;
        queues := queues[current.value := Some(q.(received := q.received + [stream[next]]))];
        remaining := remaining - 1;
        next := next + 1;
      }
    }

    method Discard(end: nat)
      requires Valid() && remaining > 0 && next < end <= |stream| && current.None?
      modifies `remaining, `next
      ensures Valid() && old(next) < next <= end && (next == end || remaining == 0)
      ensures View() == Feed(old(View()), stream, old(next), next)
    {
      ghost var d, from := View(), next;
      while next < end && remaining > 0
        invariant from <= next <= end && (next > from || remaining > 0)
        invariant Feed(d, stream, from, next) == View()
      {
        remaining := remaining - 1;
        next := next + 1;
      }
    }

    /** `process_uiq_data` for one interrupt: fetches exactly the announced words. */
    method ProcessData(count: nat)
      requires Valid() && next + count <= |stream|
      modifies `remaining, `current, `queues, `next
      ensures Valid() && next == old(next) + count && View() == Feed(old(View()), stream, old(next), next)
    {
      ghost var d, from := View(), next;
      var end := next + count;
      while next < end
        invariant Valid() && from <= next <= end && View() == Feed(d, stream, from, next)
        decreases end - next
      {
        ghost var mid, b := next, View();
        if remaining == 0 {
          FetchHeader();
          assert Feed(b, stream, mid, mid) == b;
        } else if current.None? {
          Discard(end);
        } else if queues[current.value].value.isWrite {
          DropForWrite(end);
        } else {
          ReceiveForRead(end);
        }
        assert View() == Feed(b, stream, mid, next);
        FeedSplit(d, stream, from, mid, next);
      }
    }
  }
}
