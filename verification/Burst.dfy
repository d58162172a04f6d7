/** The burst engine of the flash and JTAG controllers: a burst is cut into shots, read shots are requested
    ahead over a device FIFO of bounded depth. */
module Burst {
  import opened Arith

  // ---------------------------------------------------------------- shots

  /** Bytes covered by the first `i` shots. */
  function Covered(size: nat, max: nat, i: nat): (r: nat)
    ensures r <= size
  {
    if i == 0 then 0
    else
      var c := Covered(size, max, i - 1);
      if size - c < max then size else c + max
  }

  function ShotSize(size: nat, max: nat, i: nat): nat {
    CoveredGrows(size, max, i, i + 1);
    Covered(size, max, i + 1) - Covered(size, max, i)
  }

  lemma {:induction false} CoveredGrows(size: nat, max: nat, i: nat, j: nat)
    requires i <= j
    ensures Covered(size, max, i) <= Covered(size, max, j)
    decreases j - i
  {
    if i < j { CoveredGrows(size, max, i, j - 1); }
  }

  /** The number of shots of a burst. */
  function ShotCount(size: nat, max: nat): nat
    requires max > 0
  {
    (size + max - 1) / max
  }

  /** Before the last shot only full shots were made. */
  lemma {:induction false} CoveredFull(size: nat, max: nat, i: nat)
    requires max > 0
    ensures Covered(size, max, i) == if i * max <= size then i * max else size
  {
    if i > 0 {
      CoveredFull(size, max, i - 1);
      assert i * max == (i - 1) * max + max;
    } else {
      assert 0 * max == 0;
    }
  }

  /** The whole burst is covered exactly from its last shot on. */
  lemma CoveredAllIff(size: nat, max: nat, i: nat)
    requires max > 0
    ensures Covered(size, max, i) == size <==> i >= ShotCount(size, max)
  {
    CoveredFull(size, max, i);
    var n := ShotCount(size, max);
    ShotCountBounds(size, max, n);
    if i >= n { MulMonotone(n, i, max); } else { MulMonotone(i, n - 1, max); }
  }

  lemma ShotCountBounds(size: nat, max: nat, n: nat)
    requires max > 0 && n == ShotCount(size, max)
    ensures n * max >= size && (n > 0 ==> (n - 1) * max < size)
  {
    var rest := (size + max - 1) % max;
    assert size + max - 1 == max * n + rest;
    assert (n - 1) * max == max * n - max;
  }

  lemma MulMonotone(a: nat, b: nat, m: nat)
    requires a <= b
    ensures a * m <= b * m
  {
  }

  datatype Shot = Shot(size: nat, first: bool, last: bool)

  /** Read or write shot `i` of a burst. */
  function DataShot(size: nat, max: nat, i: nat): Shot {
    Shot(ShotSize(size, max, i), i == 0, Covered(size, max, i + 1) == size)
  }

  /** Read request `i`: the last-shot flag is only computed for requests made before the first read. */
  function RequestShot(size: nat, max: nat, depth: nat, i: nat): Shot {
    Shot(ShotSize(size, max, i), i == 0, i < depth && Covered(size, max, i + 1) == size)
  }

  /** The request that ends the burst carries the last-shot flag exactly if the burst fits the queue. */
  lemma LastRequestFlagged(size: nat, max: nat, depth: nat)
    requires size > 0 && max > 0
    ensures ShotCount(size, max) > 0
    ensures RequestShot(size, max, depth, ShotCount(size, max) - 1).last <==> ShotCount(size, max) <= depth
  {
    CoveredAllIff(size, max, 0);
    CoveredAllIff(size, max, ShotCount(size, max));
  }

  function DataShots(size: nat, max: nat, k: nat): (r: seq<Shot>)
    ensures |r| == k
  {
    seq(k, i requires 0 <= i < k => DataShot(size, max, i))
  }

  function RequestShots(size: nat, max: nat, depth: nat, k: nat): (r: seq<Shot>)
    ensures |r| == k
  {
    seq(k, i requires 0 <= i < k => RequestShot(size, max, depth, i))
  }

  /** Sizes of the outstanding requests, oldest first: requests `k` up to `r`. */
  function Outstanding(size: nat, max: nat, k: nat, r: nat): (s: seq<nat>)
    requires k <= r
    ensures |s| == r - k && forall i :: 0 <= i < r - k ==> s[i] == ShotSize(size, max, k + i)
    decreases r - k
  {
    if k == r then [] else [ShotSize(size, max, k)] + Outstanding(size, max, k + 1, r)
  }

  lemma OneMoreRequest(size: nat, max: nat, depth: nat, k: nat, r: nat)
    requires k <= r
    ensures Outstanding(size, max, k, r + 1) == Outstanding(size, max, k, r) + [ShotSize(size, max, r)]
    ensures RequestShots(size, max, depth, r + 1) ==
            RequestShots(size, max, depth, r) + [RequestShot(size, max, depth, r)]
  {
  }

  lemma OneMoreShot(size: nat, max: nat, k: nat)
    ensures DataShots(size, max, k + 1) == DataShots(size, max, k) + [DataShot(size, max, k)]
  {
  }

  /** Every shot but the last leaves something to do, and the last leaves nothing: there are as many as
      there should be. */
  lemma CountReached(size: nat, max: nat, k: nat)
    requires max > 0 && Covered(size, max, k) == size && forall i :: 0 <= i < k ==> Covered(size, max, i) < size
    ensures k == ShotCount(size, max)
  {
    CoveredAllIff(size, max, k);
    if k > 0 { CoveredAllIff(size, max, k - 1); }
  }

  /** What the read loop works out from its byte counters is the oldest outstanding request. */
  lemma NextRead(size: nat, max: nat, k: nat, r: nat)
    requires k < r && max > 0
    ensures var left := Covered(size, max, r) - Covered(size, max, k);
            && left >= 0 && (if left < max then left else max) == ShotSize(size, max, k)
            && (Covered(size, max, r) == size && left <= max <==> Covered(size, max, k + 1) == size)
  {
    CoveredGrows(size, max, k + 1, r);
    CoveredGrows(size, max, k, k + 1);
  }

  /** When nothing is left to read, everything was requested and read. */
  lemma AllRead(size: nat, max: nat, depth: nat, k: nat, r: nat)
    requires max > 0 && depth > 0 && k <= r && forall i :: 0 <= i < r ==> Covered(size, max, i) < size
    requires Covered(size, max, k) == Covered(size, max, r) && (r == k + depth || Covered(size, max, r) == size)
    ensures k == r == ShotCount(size, max) && Covered(size, max, k) == size && (k == 0 <==> size == 0)
  {
    CoveredGrows(size, max, if k < r then k + 1 else r, r);
    CountReached(size, max, k);
  }

  /** A burst that is not complete has made fewer requests and reads than it needs. */
  lemma NotAll(size: nat, max: nat, k: nat, r: nat)
    requires max > 0 && k <= r && forall i :: 0 <= i < r ==> Covered(size, max, i) < size
    requires k < r || Covered(size, max, r) < size
    ensures k < ShotCount(size, max) && k + r < 2 * ShotCount(size, max)
  {
    CoveredAllIff(size, max, r);
    CoveredAllIff(size, max, ShotCount(size, max));
  }

  /** How often the write queue is waited for in the course of `n` shots and at the end. */
  function Drains(n: nat, depth: nat): nat
    requires depth > 0
  {
    n / depth + if n % depth == 0 then 0 else 1
  }

  /** Fewer shots need fewer drains. */
  lemma DrainsGrow(k: nat, n: nat, q: nat)
    requires k <= n && q > 0
    ensures k / q <= n / q && Drains(k, q) <= Drains(n, q) && (k < n ==> k + k / q < n + Drains(n, q))
  {
    assert k == k / q * q + k % q && n == n / q * q + n % q && (n / q + 1) * q == n / q * q + q;
    if k / q > n / q { MulMonotone(n / q + 1, k / q, q); }
  }

  /** The queue count after one more shot. */
  lemma NextPending(k: nat, q: nat)
    requires q > 0
    ensures k % q < q && (k + 1) % q == if k % q + 1 == q then 0 else k % q + 1
    ensures (k + 1) / q == if k % q + 1 == q then k / q + 1 else k / q
  {
    var d, m := k / q, k % q;
    assert k == q * d + m;
    if m + 1 < q { DivModUnique(k + 1, q, d, m + 1); }
    else {
      assert q * (d + 1) == q * d + q;
      DivModUnique(k + 1, q, d + 1, 0);
    }
  }

  lemma Drained(k: nat, q: nat)
    requires q > 0
    ensures k % q <= k && (k - k % q) / q == k / q
  {
    assert k == q * (k / q) + k % q;
    DivModUnique(k - k % q, q, k / q, 0);
  }

  lemma Undrained(k: nat, q: nat)
    requires q > 0 && k > 0 && k % q == 0
    ensures q <= k && (k - q) / q == k / q - 1
  {
    var d := k / q;
    assert k == q * d && k - q == q * (d - 1) by { assert q * (d - 1) == q * d - q; }
    MulMonotone(1, d, q);
    DivModUnique(k - q, q, d - 1, 0);
  }

  /** A burst is cut into full shots and a last one with the rest; the first flag marks exactly the first of them, the
      last flag exactly the last. */
  lemma ShotsMean(size: nat, max: nat, depth: nat, i: nat)
    requires max > 0 && i < ShotCount(size, max)
    ensures DataShot(size, max, i) ==
            Shot(if i < ShotCount(size, max) - 1 then max else size - i * max, i == 0, i == ShotCount(size, max) - 1)
    ensures 0 < DataShot(size, max, i).size <= max
    ensures RequestShot(size, max, depth, i) ==
            DataShot(size, max, i).(last := i < depth && i == ShotCount(size, max) - 1)
  {
    var n := ShotCount(size, max);
    ShotCountBounds(size, max, n);
    CoveredFull(size, max, i);
    CoveredFull(size, max, i + 1);
    CoveredAllIff(size, max, i + 1);
    MulMonotone(i, n - 1, max);
    assert (i + 1) * max == i * max + max;
    if i + 1 < n { MulMonotone(i + 1, n - 1, max); }
  }

  /** As many drains as it takes to empty a queue of this depth. */
  lemma DrainsMean(n: nat, depth: nat)
    requires depth > 0
    ensures n <= Drains(n, depth) * depth < n + depth
  {
    var d, r := n / depth, n % depth;
    assert n == d * depth + r && (d + 1) * depth == d * depth + depth;
  }

  // ---------------------------------------------------------------- the object

  /** The device's logs before a burst. */
  datatype Log = Log(requested: seq<Shot>, received: seq<Shot>)

  /** The controller with the device behind it. `good` device operations succeed, the next one fails. */
  class Controller {
    const maxRead: nat
    const maxWrite: nat
    const readDepth: nat
    const writeDepth: nat
    var flags: nat
    var isFirst: bool
    var isLast: bool
    var aborted: nat

    var good: nat
    var source: seq<int>
    var position: nat
    var fifo: seq<nat>
    var requests: seq<Shot>
    var readShots: seq<Shot>
    var sunk: seq<int>
    var writes: seq<Shot>
    var pending: nat

    predicate Configured() { 0 < maxRead && 0 < maxWrite && 0 < readDepth && 0 < writeDepth }

    constructor (maxRead: nat, maxWrite: nat, readDepth: nat, writeDepth: nat, source: seq<int>, good: nat)
      ensures this.maxRead == maxRead && this.maxWrite == maxWrite && this.readDepth == readDepth &&
              this.writeDepth == writeDepth
      ensures this.source == source && this.good == good && position == 0 && fifo == [] && pending == 0
    {
      this.maxRead, this.maxWrite, this.readDepth, this.writeDepth := maxRead, maxWrite, readDepth, writeDepth;
      flags, isFirst, isLast, aborted := 0, false, false, 0;
      this.good, this.source, position, fifo := good, source, 0, [];
      requests, readShots, sunk, writes, pending := [], [], [], [], 0;
    }

    /** Any device operation may fail, and then has no effect. */
    method Try() returns (ok: bool)
      modifies `good
      ensures ok <==> old(good) > 0
      ensures old(good) == good + if ok then 1 else 0
    {
      ok := good > 0;
      if ok { good := good - 1; }
    }

    /** `request_read`: the device has room for `readDepth` requests. */
    method Request(n: nat) returns (ok: bool)
      requires |fifo| < readDepth
      modifies `good, `fifo, `requests
      ensures (ok <==> old(good) > 0) && old(good) == good + if ok then 1 else 0
      ensures if ok then fifo == old(fifo) + [n] && requests == old(requests) + [Shot(n, isFirst, isLast)]
              else fifo == old(fifo) && requests == old(requests)
    {
      ok := Try();
      if ok {
        fifo := fifo + [n];
        requests := requests + [Shot(n, isFirst, isLast)];
      }
    }

    /** `read_shot`: must ask for exactly what the oldest request asked for. */
    method ReadShot(buf: array<int>, at: nat, n: nat) returns (ok: bool)
      requires fifo != [] && fifo[0] == n && at + n <= buf.Length && position + n <= |source|
      modifies buf, `good, `fifo, `readShots, `position
      ensures (ok <==> old(good) > 0) && old(good) == good + if ok then 1 else 0
      ensures if ok then fifo == old(fifo)[1..] && readShots == old(readShots) + [Shot(n, isFirst, isLast)] &&
              position == old(position) + n
              else fifo == old(fifo) && readShots == old(readShots) && position == old(position)
      ensures ok ==> buf[at..at + n] == source[old(position)..position]
      ensures forall i :: 0 <= i < buf.Length && !(ok && at <= i < at + n) ==> buf[i] == old(buf[i])
    {
      ok := Try();
      if ok {
        for i := 0 to n
          modifies buf
          invariant forall j :: 0 <= j < buf.Length ==>
                    buf[j] == if at <= j < at + i then source[position + (j - at)] else old(buf[j])
        {
          buf[at + i] := source[position + i];
        }
        fifo := fifo[1..];
        readShots := readShots + [Shot(n, isFirst, isLast)];
        position := position + n;
      }
    }

    /** `ctrl_cleanup_burst_state`. */
    method Cleanup()
      modifies `flags, `isFirst, `isLast, `aborted
      ensures flags == 0 && !isFirst && !isLast && aborted == old(aborted) + 1
    {
      flags, isFirst, isLast := 0, false, false;
      aborted := aborted + 1;
    }

    /** `k` shots of the burst have been read, `r` requested, and the FIFO holds the requests in between. */
    ghost predicate InFlight(was: Log, size: nat, k: nat, r: nat)
      reads `fifo, `requests, `readShots
    {
      && k <= r <= k + readDepth && fifo == Outstanding(size, maxRead, k, r)
      && requests == was.requested + RequestShots(size, maxRead, readDepth, r)
      && readShots == was.received + DataShots(size, maxRead, k)
      && forall i :: 0 <= i < r ==> Covered(size, maxRead, i) < size
    }

    /** The buffer holds the first `k` shots of what the device delivers from `p` on. */
    ghost predicate Filled(buf: array<int>, p: nat, size: nat, k: nat)
      reads `source, `position, buf
    {
      && size <= buf.Length && p + size <= |source| && position == p + Covered(size, maxRead, k)
      && forall i :: 0 <= i < Covered(size, maxRead, k) ==> buf[i] == source[p + i]
    }

    /** Requests shot `r`. */
    method RequestNext(ghost was: Log, size: nat, k: nat, r: nat, n: nat) returns (ok: bool)
      requires InFlight(was, size, k, r) && r < k + readDepth && Covered(size, maxRead, r) < size &&
               n == ShotSize(size, maxRead, r)
      requires Shot(n, isFirst, isLast) == RequestShot(size, maxRead, readDepth, r)
      modifies `good, `fifo, `requests
      ensures (ok <==> old(good) > 0) && old(good) == good + if ok then 1 else 0
      ensures InFlight(was, size, k, if ok then r + 1 else r)
    {
      OneMoreRequest(size, maxRead, readDepth, k, r);
      ok := Request(n);
    }

    /** Reads shot `k`. */
    method ReadNext(ghost was: Log, buf: array<int>, ghost p: nat, at: nat, size: nat, k: nat, r: nat, n: nat)
      returns (ok: bool)
      requires InFlight(was, size, k, r) && k < r && n == ShotSize(size, maxRead, k)
      requires Filled(buf, p, size, k) && at == Covered(size, maxRead, k)
      requires Shot(n, isFirst, isLast) == DataShot(size, maxRead, k)
      modifies buf, `good, `fifo, `readShots, `position
      ensures (ok <==> old(good) > 0) && old(good) == good + if ok then 1 else 0
      ensures Filled(buf, p, size, if ok then k + 1 else k) && InFlight(was, size, if ok then k + 1 else k, r)
      ensures forall i :: size <= i < buf.Length ==> buf[i] == old(buf[i])
    {
      OneMoreShot(size, maxRead, k);
      ok := ReadShot(buf, at, n);
      if ok {
        forall i | 0 <= i < at + n ensures buf[i] == source[p + i] {
          if i >= at { assert buf[i] == buf[at..at + n][i - at]; }
        }
      }
    }

    /** One more request before the first read. */
    method RequestAhead(ghost was: Log, size: nat, r: nat, toRequest: nat, toRead: nat) returns (ok: bool, n: nat)
      requires Configured() && InFlight(was, size, 0, r) && r < readDepth && toRequest > 0
      requires toRead == Covered(size, maxRead, r) && toRequest == size - toRead
      modifies `good, `fifo, `requests, `isFirst, `isLast
      ensures (ok <==> old(good) > 0) && old(good) == good + if ok then 1 else 0
      ensures n <= toRequest && toRead + n == Covered(size, maxRead, r + 1) &&
              InFlight(was, size, 0, if ok then r + 1 else r)
    {
      n := if toRequest < maxRead then toRequest else maxRead;
      isFirst, isLast := r == 0, toRead + n == size;
      ok := RequestNext(was, size, 0, r, n);
    }

    /** The first loop: requests until the queue is full or everything is requested. */
    method Prefetch(ghost was: Log, size: nat) returns (ok: bool, r: nat)
      requires Configured() && InFlight(was, size, 0, 0)
      modifies `good, `fifo, `requests, `isFirst, `isLast
      ensures InFlight(was, size, 0, r) && old(good) == good + r
      ensures if ok then r == readDepth || Covered(size, maxRead, r) == size
              else good == 0 && Covered(size, maxRead, r) < size
    {
      var toRequest, toRead := size, 0;
      r := 0;
      while r < readDepth && toRequest > 0
        invariant InFlight(was, size, 0, r) && old(good) == good + r && toRead == Covered(size, maxRead, r) &&
                  toRequest == size - toRead
      {
        var done, n := RequestAhead(was, size, r, toRequest, toRead);
        if !done { return false, r; }
        toRequest, toRead, r := toRequest - n, toRead + n, r + 1;
      }
      ok := true;
    }

    /** One more request while data is being read. The flags are still those of the last read. */
    method Refill(ghost was: Log, size: nat, k: nat, r: nat, toRequest: nat) returns (ok: bool, n: nat)
      requires Configured() && InFlight(was, size, k, r) && readDepth <= r < k + readDepth && !isFirst && !isLast
      requires toRequest == size - Covered(size, maxRead, r) && toRequest > 0
      modifies `good, `fifo, `requests
      ensures (ok <==> old(good) > 0) && old(good) == good + if ok then 1 else 0
      ensures n <= toRequest && InFlight(was, size, k, if ok then r + 1 else r)
      ensures Covered(size, maxRead, r + 1) == Covered(size, maxRead, r) + n
    {
      n := if toRequest < maxRead then toRequest else maxRead;
      ok := RequestNext(was, size, k, r, n);
    }

    /** The byte counters agree with the shots made so far. */
    ghost predicate Counted(size: nat, k: nat, r: nat, at: nat, toRead: nat, toRequest: nat) {
      at == Covered(size, maxRead, k) && at + toRead == Covered(size, maxRead, r) && at + toRead + toRequest == size
    }

    /** Reads the oldest outstanding request into the buffer. */
    method ReadOldest(ghost was: Log, buf: array<int>, ghost p: nat, at: nat, size: nat, k: nat, r: nat, toRead: nat,
        toRequest: nat)
      returns (ok: bool, n: nat)
      requires Configured() && InFlight(was, size, k, r) && toRead > 0 && isFirst == (k == 0)
      requires Filled(buf, p, size, k) && Counted(size, k, r, at, toRead, toRequest)
      modifies buf, `good, `fifo, `readShots, `position, `isFirst, `isLast
      ensures (ok <==> old(good) > 0) && old(good) == good + if ok then 1 else 0
      ensures k < r && 0 < n <= toRead && at + n == Covered(size, maxRead, k + 1)
      ensures Filled(buf, p, size, if ok then k + 1 else k) && InFlight(was, size, if ok then k + 1 else k, r)
      ensures ok ==> !isFirst && (toRequest > 0 ==> !isLast)
      ensures forall i :: size <= i < buf.Length ==> buf[i] == old(buf[i])
    {
      NextRead(size, maxRead, k, r);
      isLast := toRequest == 0 && toRead <= maxRead;
      n := if toRead < maxRead then toRead else maxRead;
      ok := ReadNext(was, buf, p, at, size, k, r, n);
      if ok { isFirst := false; }
    }

    /** One round of the second loop: a read, and a request if there is more to come. `k2` and `r2` are the shots
        read and requested after it, also when it fails. */
    method Round(ghost was: Log, buf: array<int>, ghost p: nat, at: nat, size: nat, k: nat, r: nat, toRead: nat,
        toRequest: nat)
      returns (ok: bool, read: nat, requested: nat, k2: nat, r2: nat)
      requires Configured() && InFlight(was, size, k, r) && Counted(size, k, r, at, toRead, toRequest) &&
               toRead > 0 && isFirst == (k == 0)
      requires Filled(buf, p, size, k) && (r == k + readDepth || toRequest == 0)
      modifies buf, `good, `fifo, `requests, `readShots, `position, `isFirst, `isLast
      ensures InFlight(was, size, k2, r2) && Filled(buf, p, size, k2) && old(good) + k + r == good + k2 + r2
      ensures ok ==> k2 == k + 1 && r2 == (if toRequest > 0 then r + 1 else r) && !isFirst
      ensures ok ==> 0 < read <= toRead && requested <= toRequest
      ensures ok ==> Counted(size, k2, r2, at + read, toRead - read + requested, toRequest - requested)
      ensures !ok ==> good == 0 && (k2 < r2 || Covered(size, maxRead, r2) < size)
      ensures forall i :: size <= i < buf.Length ==> buf[i] == old(buf[i])
    {
      requested, k2, r2 := 0, k, r;
      ok, read := ReadOldest(was, buf, p, at, size, k, r, toRead, toRequest);
      if !ok { return; }
      k2 := k + 1;
      if toRequest > 0 {
        ok, requested := Refill(was, size, k2, r, toRequest);
        if ok { r2 := r + 1; }
      }
    }

    /** The second loop: read the oldest request, then request one more shot if there is more to come. */
    method ReadLoop(ghost was: Log, buf: array<int>, size: nat, r0: nat) returns (ok: bool, k: nat, r: nat)
      requires Configured() && Filled(buf, position, size, 0) && isFirst
      requires InFlight(was, size, 0, r0) && (r0 == readDepth || Covered(size, maxRead, r0) == size)
      modifies buf, `good, `fifo, `requests, `readShots, `position, `isFirst, `isLast
      ensures InFlight(was, size, k, r) && Filled(buf, old(position), size, k) && old(good) + r0 == good + k + r
      ensures ok ==> k == r == ShotCount(size, maxRead) && Covered(size, maxRead, k) == size && isFirst == (size == 0)
      ensures !ok ==> good == 0 && (k < r || Covered(size, maxRead, r) < size)
      ensures forall i :: size <= i < buf.Length ==> buf[i] == old(buf[i])
    {
      k, r := 0, r0;
      var at: nat, toRead: nat, toRequest: nat := 0, Covered(size, maxRead, r0), size - Covered(size, maxRead, r0);
      ghost var p := position;
      ok := true;
      while toRead > 0
        invariant InFlight(was, size, k, r) && Counted(size, k, r, at, toRead, toRequest) && Filled(buf, p, size, k)
        invariant old(good) + r0 == good + k + r && isFirst == (k == 0) && (r == k + readDepth || toRequest == 0)
        invariant forall i :: size <= i < buf.Length ==> buf[i] == old(buf[i])
        decreases size - at
      {
        var n, m;
        ok, n, m, k, r := Round(was, buf, p, at, size, k, r, toRead, toRequest);
        if !ok { return; }
        at, toRead, toRequest := at + n, toRead - n + m, toRequest - m;
      }
      AllRead(size, maxRead, readDepth, k, r);
    }

    /** Nothing of the burst has been requested or read. */
    lemma Idle(was: Log, size: nat)
      requires fifo == [] && was == Log(requests, readShots)
      ensures InFlight(was, size, 0, 0)
    {
      assert requests + RequestShots(size, maxRead, readDepth, 0) == requests;
      assert readShots + DataShots(size, maxRead, 0) == readShots;
    }

    /** Both loops: success if and only if the device does two operations for every shot. */
    method ReadShots(ghost was: Log, buf: array<int>, size: nat) returns (ok: bool, k: nat, r: nat)
      requires Configured() && Filled(buf, position, size, 0) && InFlight(was, size, 0, 0)
      modifies buf, `good, `fifo, `requests, `readShots, `position, `isFirst, `isLast
      ensures InFlight(was, size, k, r) && Filled(buf, old(position), size, k) && old(good) == good + k + r
      ensures ok <==> old(good) >= 2 * ShotCount(size, maxRead)
      ensures ok ==> k == r == ShotCount(size, maxRead) && Covered(size, maxRead, k) == size && isFirst == (size == 0)
      ensures !ok ==> good == 0
      ensures forall i :: size <= i < buf.Length ==> buf[i] == old(buf[i])
    {
      ok, r := Prefetch(was, size);
      k := 0;
      if ok {
        isFirst := true;
        ok, k, r := ReadLoop(was, buf, size, r);
      }
      if !ok { NotAll(size, maxRead, k, r); }
    }

    /** `ctrl_read_burst`. It succeeds if and only if the device does one operation at the start and two for every
        shot. `k` shots have then been read and `r` requested: their bytes are in the buffer in order, shot by
        shot, and never more than `readDepth` requests were ahead (a precondition of every request). A burst of
        zero bytes leaves the first-shot flag set. */
    method ReadBurst(buf: array<int>, size: nat, burstFlags: nat) returns (ok: bool, ghost k: nat, ghost r: nat)
      requires Configured() && size <= buf.Length && position + size <= |source| && fifo == []
      modifies buf, `good, `fifo, `requests, `readShots, `position, `flags, `isFirst, `isLast, `aborted
      ensures ok <==> old(good) >= 1 + 2 * ShotCount(size, maxRead)
      ensures ok ==> k == r == ShotCount(size, maxRead) && Covered(size, maxRead, k) == size && fifo == []
      ensures good == if ok then old(good) - (1 + 2 * ShotCount(size, maxRead)) else 0
      ensures !ok ==> old(good) == if old(good) == 0 then k + r else 1 + k + r
      ensures InFlight(Log(old(requests), old(readShots)), size, k, r) && Filled(buf, old(position), size, k)
      ensures flags == 0 && !isLast && (isFirst <==> ok && size == 0) && aborted == if ok then old(aborted)
              else old(aborted) + 1
      ensures forall i :: size <= i < buf.Length ==> buf[i] == old(buf[i])
    {
      flags := burstFlags % 256;
      k, r := 0, 0;
      ghost var was := Log(requests, readShots);
      Idle(was, size);
      ok := Try();
      if ok { ok, k, r := ReadShots(was, buf, size); }
      if ok {
        isLast := false;
        flags := 0;
      } else {
        Cleanup();
      }
    }

    // -------------------------------------------------------------- writing

    /** `write_shot`: the device takes at most `writeDepth` shots before it must be waited for. */
    method WriteShot(data: seq<int>) returns (ok: bool)
      requires pending < writeDepth
      modifies `good, `sunk, `writes, `pending
      ensures (ok <==> old(good) > 0) && old(good) == good + if ok then 1 else 0
      ensures if ok then sunk == old(sunk) + data && writes == old(writes) + [Shot(|data|, isFirst, isLast)] &&
              pending == old(pending) + 1
              else sunk == old(sunk) && writes == old(writes) && pending == old(pending)
    {
      ok := Try();
      if ok {
        sunk := sunk + data;
        writes := writes + [Shot(|data|, isFirst, isLast)];
        pending := pending + 1;
      }
    }

    /** `wait_for_write_queue_empty`. */
    method WaitEmpty() returns (ok: bool)
      modifies `good, `pending
      ensures (ok <==> old(good) > 0) && old(good) == good + if ok then 1 else 0
      ensures pending == if ok then 0 else old(pending)
    {
      ok := Try();
      if ok { pending := 0; }
    }

    /** The first `k` shots of the burst have reached the device. */
    ghost predicate Written(before: seq<int>, earlier: seq<Shot>, buf: seq<int>, k: nat)
      reads `sunk, `writes
    {
      && sunk == before + buf[..Covered(|buf|, maxWrite, k)] && writes == earlier + DataShots(|buf|, maxWrite, k)
      && forall i :: 0 <= i < k ==> Covered(|buf|, maxWrite, i) < |buf|
    }

    /** Writes shot `k`. */
    method WriteNext(ghost before: seq<int>, ghost earlier: seq<Shot>, buf: seq<int>, at: nat, k: nat, n: nat)
      returns (ok: bool)
      requires Written(before, earlier, buf, k) && at == Covered(|buf|, maxWrite, k) < |buf| &&
               n == ShotSize(|buf|, maxWrite, k)
      requires Shot(n, isFirst, isLast) == DataShot(|buf|, maxWrite, k) && pending < writeDepth
      modifies `good, `sunk, `writes, `pending
      ensures (ok <==> old(good) > 0) && old(good) == good + if ok then 1 else 0
      ensures pending == (if ok then old(pending) + 1 else old(pending)) &&
              Written(before, earlier, buf, if ok then k + 1 else k)
    {
      OneMoreShot(|buf|, maxWrite, k);
      ghost var next := at + n;
      assert buf[..at] + buf[at..at + n] == buf[..next];
      ok := WriteShot(buf[at..at + n]);
    }

    /** One round of the write loop: a shot, and a drain if the queue is full. Of `budget` operations those
        for the shots and drains so far are gone. */
    method WriteRound(ghost before: seq<int>, ghost earlier: seq<Shot>, ghost budget: nat, buf: seq<int>, at: nat,
        k: nat, n: nat)
      returns (ok: bool, k2: nat)
      requires Configured() && Written(before, earlier, buf, k) && at == Covered(|buf|, maxWrite, k) < |buf| &&
               n == ShotSize(|buf|, maxWrite, k)
      requires Shot(n, isFirst, isLast) == DataShot(|buf|, maxWrite, k) && pending == k % writeDepth &&
               budget == good + k + k / writeDepth
      modifies `good, `sunk, `writes, `pending
      ensures Written(before, earlier, buf, k2)
      ensures ok ==> k2 == k + 1 && pending == k2 % writeDepth && budget == good + k2 + k2 / writeDepth
      ensures !ok ==> good == 0 && pending <= k2 && budget == k2 + (k2 - pending) / writeDepth
      ensures !ok ==> budget < ShotCount(|buf|, maxWrite) + Drains(ShotCount(|buf|, maxWrite), writeDepth)
    {
      k2 := k;
      NextPending(k, writeDepth);
      NotAll(|buf|, maxWrite, k, k);
      DrainsGrow(k, ShotCount(|buf|, maxWrite), writeDepth);
      ok := WriteNext(before, earlier, buf, at, k, n);
      if !ok { Drained(k, writeDepth); return; }
      k2 := k + 1;
      DrainsGrow(k2, ShotCount(|buf|, maxWrite), writeDepth);
      if k2 % writeDepth == 0 {
        Undrained(k2, writeDepth);
        ok := WaitEmpty();
      }
    }

    /** The write loop. */
    method WriteLoop(buf: seq<int>) returns (ok: bool, k: nat)
      requires Configured() && pending == 0
      modifies `good, `sunk, `writes, `pending, `isFirst, `isLast
      ensures Written(old(sunk), old(writes), buf, k)
      ensures ok ==>
              k == ShotCount(|buf|, maxWrite) && Covered(|buf|, maxWrite, k) == |buf| && pending == k % writeDepth
      ensures pending <= k && old(good) == good + k + (k - pending) / writeDepth
      ensures !ok ==>
              good == 0 && old(good) < ShotCount(|buf|, maxWrite) + Drains(ShotCount(|buf|, maxWrite), writeDepth)
    {
      ghost var before, earlier := sunk, writes;
      var at, left := 0, |buf|;
      k, ok := 0, true;
      ModSmall(0, writeDepth);
      assert earlier + DataShots(|buf|, maxWrite, 0) == earlier;
      while left > 0
        invariant at + left == |buf| && at == Covered(|buf|, maxWrite, k) && Written(before, earlier, buf, k)
        invariant pending == k % writeDepth && old(good) == good + k + k / writeDepth && ok
      {
        isFirst, isLast := left == |buf|, left <= maxWrite;
        var n := if left < maxWrite then left else maxWrite;
        ok, k := WriteRound(before, earlier, old(good), buf, at, k, n);
        if !ok { return; }
        at, left := at + n, left - n;
      }
      CountReached(|buf|, maxWrite, k);
      Drained(k, writeDepth);
    }

    /** The loop, and the last drain unless the queue is empty. */
    method WriteShots(buf: seq<int>) returns (ok: bool, k: nat)
      requires Configured() && pending == 0
      modifies `good, `sunk, `writes, `pending, `isFirst, `isLast
      ensures Written(old(sunk), old(writes), buf, k)
      ensures var n := ShotCount(|buf|, maxWrite);
              if ok then k == n && Covered(|buf|, maxWrite, k) == |buf| && pending == 0 && !isFirst && !isLast &&
                  old(good) == good + n + Drains(n, writeDepth)
              else good == 0 && old(good) < n + Drains(n, writeDepth)
      ensures !ok ==> pending <= k && old(good) == k + (k - pending) / writeDepth
    {
      ok, k := WriteLoop(buf);
      if ok {
        isFirst, isLast := false, false;
        Drained(k, writeDepth);
        if k % writeDepth != 0 { ok := WaitEmpty(); }
      }
    }

    /** `ctrl_write_burst`. It succeeds if and only if the device does one operation at the start, one for every
        shot and one for every drain. `k` shots have then been written: all bytes in order, drained after at most
        `writeDepth` shots (a precondition of every shot) and at the end. */
    method WriteBurst(buf: seq<int>, burstFlags: nat) returns (ok: bool, ghost k: nat)
      requires Configured() && pending == 0
      modifies `good, `sunk, `writes, `pending, `flags, `isFirst, `isLast, `aborted
      ensures var n := ShotCount(|buf|, maxWrite);
              && (ok <==> old(good) >= 1 + n + Drains(n, writeDepth))
              && good == (if ok then old(good) - (1 + n + Drains(n, writeDepth)) else 0)
              && (ok ==> k == n && sunk == old(sunk) + buf && pending == 0)
      // After a failure the successful operations are the first, the shots written and the drains before it.
      ensures !ok && old(good) > 0 ==> pending <= k && old(good) == 1 + k + (k - pending) / writeDepth
      ensures sunk == old(sunk) + buf[..Covered(|buf|, maxWrite, k)] &&
              writes == old(writes) + DataShots(|buf|, maxWrite, k)
      ensures flags == 0 && !isFirst && !isLast && aborted == if ok then old(aborted) else old(aborted) + 1
    {
      flags := burstFlags % 256;
      k := 0;
      assert writes + DataShots(|buf|, maxWrite, 0) == writes;
      ok := Try();
      if ok { ok, k := WriteShots(buf); }
      if ok {
        assert buf[..|buf|] == buf;
        flags := 0;
      } else {
        Cleanup();
      }
    }
  }
}
