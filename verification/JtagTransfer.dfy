/** A whole transfer: the frames of one `write`, and what the chain has seen when it is over. */
module JtagTransfer {
  import opened Bits
  import opened Lists
  import opened JtagModel

  // ---------------------------------------------------------------- one frame

  lemma {:induction false} FrameLog(c: Chain, tms: Bits, tdi: Bits, n: nat, i: nat)
    requires |tms| == |tdi| == 16 && i < n <= 16
    ensures var d := Frame(c, tms, tdi, n);
            d.log[..|c.log|] == c.log && d.log[|c.log| + i] == Edge(tms[15 - i], tdi[15 - i], Frame(c, tms, tdi, i).tap)
  {
    var b := Frame(c, tms, tdi, n - 1);
    if i < n - 1 {
      FrameLog(c, tms, tdi, n - 1, i);
    } else {
      if n > 1 { FrameLog(c, tms, tdi, n - 1, 0); }
      assert Frame(c, tms, tdi, n).log[|c.log| + i] == Edge(tms[16 - n], tdi[16 - n], b.tap);
    }
  }

  /** States in which TMS low changes nothing. */
  predicate Stable(t: Tap) { t == ShiftDr || t == ShiftIr || t == RunTestIdle }

  /** Bit `i` of the TMS word, in sending order, is low. */
  predicate LowAt(tms: Bits, i: nat) { |tms| == 16 && i < 16 && !tms[15 - i] }

  lemma {:induction false} StaysStable(c: Chain, tms: Bits, tdi: Bits, n: nat)
    requires |tms| == |tdi| == 16 && n <= 16 && Stable(c.tap) && forall i :: 0 <= i < n ==> LowAt(tms, i)
    ensures Frame(c, tms, tdi, n).tap == c.tap
  {
    if n > 0 {
      StaysStable(c, tms, tdi, n - 1);
      assert LowAt(tms, n - 1);
    }
  }

  // ---------------------------------------------------------------- shifting

  /** Which payload bit goes out as number `j` of `n`. */
  function Source(n: nat, j: nat, lsb: bool): nat
    requires j < n
  {
    if lsb then LsbSource(n, j) else n - 1 - j
  }

  /** The frame boundaries: the first frame is the short one. */
  predicate Boundary(n: nat, left: nat) {
    left <= n && (0 < left < n ==> left % 16 == 0 && left <= n - FrameLength(n))
  }

  lemma NextBoundary(n: nat, left: nat)
    requires 0 < left && Boundary(n, left)
    ensures Boundary(n, left - FrameLength(left))
  {
  }

  function DataWord(data: seq<Byte>, n: nat, left: nat, lsb: bool): (r: Bits)
    requires 0 < left && Boundary(n, left) && n <= 8 * |data|
    ensures |r| == 16
  {
    var b := FrameLength(left);
    if lsb then LsbBit(data, n, left, b - 1); LsbWord(data, LsbPointer(n, left), b)
    else MsbBit(data, left, 0); MsbWord(data, (left + 7) / 8 - 1, b)
  }

  lemma WordSends(data: seq<Byte>, n: nat, left: nat, lsb: bool, i: nat)
    requires 0 < left && Boundary(n, left) && n <= 8 * |data| && i < FrameLength(left)
    ensures Source(n, n - left + i, lsb) < 8 * |data|
    ensures DataWord(data, n, left, lsb)[15 - i] == Payload(data, Source(n, n - left + i, lsb))
  {
    if lsb { LsbBit(data, n, left, i); } else { MsbBit(data, left, i); }
  }

  /** A frame is sent when `left` of `n` bits are left. */
  predicate FrameAt(n: nat, left: nat) { left == n || (0 < left < n && left % 16 == 0) }

  /** The frame loop outside raw mode, with `left` of `n` bits to go, until no more than `stop` are left. */
  function Partial(c: Chain, data: seq<Byte>, n: nat, left: nat, lsb: bool, idle: bool, stop: nat): Chain
    requires Boundary(n, left) && n <= 8 * |data|
    decreases left
  {
    if left <= stop then c
    else
      var b := FrameLength(left);
      NextBoundary(n, left);
      Partial(NextFrame(c, data, n, left, lsb, idle), data, n, left - b, lsb, idle, stop)
  }

  /** The whole loop. */
  function Transfer(c: Chain, data: seq<Byte>, n: nat, left: nat, lsb: bool, idle: bool): Chain
    requires Boundary(n, left) && n <= 8 * |data|
  {
    Partial(c, data, n, left, lsb, idle, 0)
  }

  function Exited(t: Tap): Tap { if t == ShiftDr then Exit1Dr else Exit1Ir }

  predicate SentBit(e: Edge, t: Tap, data: seq<Byte>, n: nat, j: nat, lsb: bool, idle: bool)
    requires j < n
  {
    && e.at == t && e.tms == (j == n - 1 && !idle)
    && Source(n, j, lsb) < 8 * |data| && e.tdi == Payload(data, Source(n, j, lsb))
  }

  /** Clock `i` after `base` sent bit `first + i` of `n`. */
  predicate SentAt(log: seq<Edge>, base: nat, t: Tap, data: seq<Byte>, n: nat, first: nat, lsb: bool, idle: bool,
      i: nat) {
    base + i < |log| && first + i < n && SentBit(log[base + i], t, data, n, first + i, lsb, idle)
  }

  ghost predicate AllSent(log: seq<Edge>, base: nat, t: Tap, data: seq<Byte>, n: nat, first: nat, count: nat,
      lsb: bool, idle: bool) {
    forall i :: 0 <= i < count ==> SentAt(log, base, t, data, n, first, lsb, idle, i)
  }

  /** The chain was clocked once for every remaining bit, always in the state it started from, with the
      payload bits in order, and TMS was high for nothing but the very last bit of a shift. */
  ghost predicate Sent(c: Chain, d: Chain, data: seq<Byte>, n: nat, left: nat, lsb: bool, idle: bool)
    requires left <= n
  {
    && |d.log| == |c.log| + left && d.log[..|c.log|] == c.log
    && AllSent(d.log, |c.log|, c.tap, data, n, n - left, left, lsb, idle)
    && d.tap == if left == 0 || idle then c.tap else Exited(c.tap)
  }

  lemma FrameSends(c: Chain, data: seq<Byte>, n: nat, left: nat, lsb: bool, idle: bool, i: nat)
    requires 0 < left && Boundary(n, left) && n <= 8 * |data| && Stable(c.tap) && (idle <==> c.tap == RunTestIdle) &&
             i < FrameLength(left)
    ensures var d := Frame(c, ExitWord(left, idle), DataWord(data, n, left, lsb), FrameLength(left));
            d.log[..|c.log|] == c.log && SentAt(d.log, |c.log|, c.tap, data, n, n - left, lsb, idle, i)
  {
    var b := FrameLength(left);
    var tms, tdi := ExitWord(left, idle), DataWord(data, n, left, lsb);
    FrameLog(c, tms, tdi, b, i);
    WordSends(data, n, left, lsb, i);
    ExitBit(left, idle, i);
    forall k | 0 <= k < i ensures LowAt(tms, k) { ExitBit(left, idle, k); }
    StaysStable(c, tms, tdi, i);
  }

  lemma FrameLeaves(c: Chain, data: seq<Byte>, n: nat, left: nat, lsb: bool, idle: bool)
    requires 0 < left && Boundary(n, left) && n <= 8 * |data| && Stable(c.tap) && (idle <==> c.tap == RunTestIdle)
    ensures Frame(c, ExitWord(left, idle), DataWord(data, n, left, lsb), FrameLength(left)).tap ==
            if left > 16 || idle then c.tap else Exited(c.tap)
  {
    var b := FrameLength(left);
    var tms, tdi := ExitWord(left, idle), DataWord(data, n, left, lsb);
    forall k | 0 <= k < b - 1 ensures LowAt(tms, k) { ExitBit(left, idle, k); }
    StaysStable(c, tms, tdi, b - 1);
    ExitBit(left, idle, b - 1);
  }

  lemma FrameAll(c: Chain, f: Chain, base: nat, data: seq<Byte>, n: nat, left: nat, b: nat, first: nat, lsb: bool,
      idle: bool)
    requires 0 < left && Boundary(n, left) && first == n - left && b == FrameLength(left) && base == |c.log|
    requires n <= 8 * |data| && Stable(c.tap) && (idle <==> c.tap == RunTestIdle)
    requires f == Frame(c, ExitWord(left, idle), DataWord(data, n, left, lsb), b)
    ensures f.log[..base] == c.log && AllSent(f.log, base, c.tap, data, n, first, b, lsb, idle)
  {
    FrameSends(c, data, n, left, lsb, idle, 0);
    forall i | 0 <= i < b ensures SentAt(f.log, base, c.tap, data, n, first, lsb, idle, i) {
      FrameSends(c, data, n, left, lsb, idle, i);
    }
  }

  function NextFrame(c: Chain, data: seq<Byte>, n: nat, left: nat, lsb: bool, idle: bool): Chain
    requires 0 < left && Boundary(n, left) && n <= 8 * |data|
  {
    Frame(c, ExitWord(left, idle), DataWord(data, n, left, lsb), FrameLength(left))
  }

  lemma FrameSent(c: Chain, data: seq<Byte>, n: nat, left: nat, lsb: bool, idle: bool)
    requires 0 < left && Boundary(n, left) && n <= 8 * |data| && Stable(c.tap) && (idle <==> c.tap == RunTestIdle)
    ensures var f := NextFrame(c, data, n, left, lsb, idle); var b := FrameLength(left);
            && |f.log| == |c.log| + b && f.log[..|c.log|] == c.log
            && AllSent(f.log, |c.log|, c.tap, data, n, n - left, b, lsb, idle)
            && f.tap == if left > b || idle then c.tap else Exited(c.tap)
  {
    FrameLeaves(c, data, n, left, lsb, idle);
    FrameAll(c, NextFrame(c, data, n, left, lsb, idle), |c.log|, data, n, left, FrameLength(left), n - left, lsb, idle);
  }

  /** The chain when the loop stops. */
  function Stopped(c: Chain, data: seq<Byte>, n: nat, left: nat, lsb: bool, idle: bool, stop: nat): Option<Chain> {
    if Boundary(n, left) && n <= 8 * |data| then Some(Partial(c, data, n, left, lsb, idle, stop)) else None
  }

  lemma PartialStep(c: Chain, f: Chain, data: seq<Byte>, n: nat, left: nat, rest: nat, lsb: bool, idle: bool,
      stop: nat, d: Chain)
    requires left > stop && Stopped(c, data, n, left, lsb, idle, stop) == Some(d)
    requires f == NextFrame(c, data, n, left, lsb, idle) && rest == left - FrameLength(left)
    ensures Stopped(f, data, n, rest, lsb, idle, stop) == Some(d)
  {
    NextBoundary(n, left);
  }

  lemma PartialOver(c: Chain, data: seq<Byte>, n: nat, left: nat, lsb: bool, idle: bool, stop: nat, d: Chain)
    requires left <= stop && Stopped(c, data, n, left, lsb, idle, stop) == Some(d)
    ensures d == c
  {
  }

  /** Every transfer of any length sends exactly its payload. */
  lemma {:induction false} TransferSends(c: Chain, data: seq<Byte>, n: nat, left: nat, lsb: bool, idle: bool, d: Chain)
    requires Stopped(c, data, n, left, lsb, idle, 0) == Some(d) && Stable(c.tap) && (idle <==> c.tap == RunTestIdle)
    ensures Sent(c, d, data, n, left, lsb, idle)
    decreases left
  {
    if left == 0 {
      PartialOver(c, data, n, left, lsb, idle, 0, d);
    } else {
      var b, f := FrameLength(left), NextFrame(c, data, n, left, lsb, idle);
      PartialStep(c, f, data, n, left, left - b, lsb, idle, 0, d);
      FrameSent(c, data, n, left, lsb, idle);
      if left > b {
        TransferSends(f, data, n, left - b, lsb, idle, d);
        Glue(c, f, d, data, n, left, b, lsb, idle);
      } else {
        PartialOver(f, data, n, 0, lsb, idle, 0, d);
      }
    }
  }

  lemma Glue(c: Chain, f: Chain, d: Chain, data: seq<Byte>, n: nat, left: nat, b: nat, lsb: bool, idle: bool)
    requires 0 < b < left <= n && f.tap == c.tap && |f.log| == |c.log| + b && f.log[..|c.log|] == c.log
    requires AllSent(f.log, |c.log|, c.tap, data, n, n - left, b, lsb, idle)
    requires Sent(f, d, data, n, left - b, lsb, idle)
    ensures Sent(c, d, data, n, left, lsb, idle)
  {
    var base, first := |c.log|, n - left;
    forall i | 0 <= i < left ensures SentAt(d.log, base, c.tap, data, n, first, lsb, idle, i) {
      if i < b {
        assert SentAt(f.log, base, c.tap, data, n, first, lsb, idle, i);
        assert d.log[base + i] == d.log[..|f.log|][base + i] == f.log[base + i];
      } else {
        assert SentAt(d.log, |f.log|, f.tap, data, n, n - (left - b), lsb, idle, i - b);
      }
    }
    assert d.log[..base] == d.log[..|f.log|][..base] == f.log[..base];
  }

  lemma NextTap(c: Chain, f: Chain, data: seq<Byte>, n: nat, left: nat, rest: nat, lsb: bool, idle: bool)
    requires 0 < left && Boundary(n, left) && n <= 8 * |data| && Stable(c.tap) && (idle <==> c.tap == RunTestIdle)
    requires f == NextFrame(c, data, n, left, lsb, idle) && rest == left - FrameLength(left)
    ensures f.tap == if rest > 0 || idle then c.tap else Exited(c.tap)
  {
    FrameLeaves(c, data, n, left, lsb, idle);
  }

  lemma StepTap(c: Chain, data: seq<Byte>, n: nat, left: nat, rest: nat, lsb: bool, idle: bool, stop: nat, d: Chain)
    returns (f: Chain)
    requires left > stop && Stable(c.tap) && (idle <==> c.tap == RunTestIdle) &&
             Stopped(c, data, n, left, lsb, idle, stop) == Some(d)
    requires rest == left - FrameLength(left)
    ensures Stopped(f, data, n, rest, lsb, idle, stop) == Some(d)
    ensures f.tap == if rest > 0 || idle then c.tap else Exited(c.tap)
  {
    f := NextFrame(c, data, n, left, lsb, idle);
    PartialStep(c, f, data, n, left, rest, lsb, idle, stop, d);
    NextTap(c, f, data, n, left, rest, lsb, idle);
  }

  /** A stop at a frame boundary below is not passed by. */
  lemma StopBelow(left: nat, rest: nat, stop: nat)
    requires stop < left && stop % 16 == 0 && rest == left - FrameLength(left)
    ensures stop <= rest
  {
  }

  /** The chain leaves its state with the last frame of a transfer, not before. */
  lemma {:induction false} PartialTap(c: Chain, data: seq<Byte>, n: nat, left: nat, lsb: bool, idle: bool, stop: nat,
      d: Chain)
    requires 0 < left && Stable(c.tap) && (idle <==> c.tap == RunTestIdle) &&
             Stopped(c, data, n, left, lsb, idle, stop) == Some(d)
    requires stop == left || (stop < left && stop % 16 == 0)
    ensures d.tap == if idle || stop > 0 then c.tap else Exited(c.tap)
    decreases left
  {
    if left == stop {
      PartialOver(c, data, n, left, lsb, idle, stop, d);
    } else {
      var rest := left - FrameLength(left);
      StopBelow(left, rest, stop);
      var f := StepTap(c, data, n, left, rest, lsb, idle, stop, d);
      if rest > 0 {
        PartialTap(f, data, n, rest, lsb, idle, stop, d);
      } else {
        PartialOver(f, data, n, rest, lsb, idle, stop, d);
      }
    }
  }

  // ---------------------------------------------------------------- raw mode

  function RawTmsWord(tms: seq<Byte>, n: nat, left: nat, lsb: bool): (r: Bits)
    requires 0 < left && Boundary(n, left) && n <= 8 * |tms|
    ensures |r| == 16
  {
    var b := FrameLength(left);
    if lsb then LsbBit(tms, n, left, b - 1); LsbWord(tms, LsbPointer(n, left), b)
    else RawMsbBit(tms, left, 0); RawMsbTms(tms, (left + 7) / 8 - 1, b)
  }

  function RawNext(c: Chain, data: seq<Byte>, tms: seq<Byte>, n: nat, left: nat, lsb: bool): Chain
    requires 0 < left && Boundary(n, left) && n <= 8 * |data| && n <= 8 * |tms|
  {
    Frame(c, RawTmsWord(tms, n, left, lsb), DataWord(data, n, left, lsb), FrameLength(left))
  }

  /** The frame loop in raw mode. */
  function RawPartial(c: Chain, data: seq<Byte>, tms: seq<Byte>, n: nat, left: nat, lsb: bool, stop: nat): Chain
    requires Boundary(n, left) && n <= 8 * |data| && n <= 8 * |tms|
    decreases left
  {
    if left <= stop then c
    else
      var b := FrameLength(left);
      NextBoundary(n, left);
      RawPartial(RawNext(c, data, tms, n, left, lsb), data, tms, n, left - b, lsb, stop)
  }

  function RawTransfer(c: Chain, data: seq<Byte>, tms: seq<Byte>, n: nat, left: nat, lsb: bool): Chain
    requires Boundary(n, left) && n <= 8 * |data| && n <= 8 * |tms|
  {
    RawPartial(c, data, tms, n, left, lsb, 0)
  }

  function RawStopped(c: Chain, data: seq<Byte>, tms: seq<Byte>, n: nat, left: nat, lsb: bool,
      stop: nat): Option<Chain> {
    if Boundary(n, left) && n <= 8 * |data| && n <= 8 * |tms| then Some(RawPartial(c, data, tms, n, left, lsb, stop))
        else None
  }

  lemma RawStep(c: Chain, f: Chain, data: seq<Byte>, tms: seq<Byte>, n: nat, left: nat, rest: nat, lsb: bool,
      stop: nat, d: Chain)
    requires left > stop && RawStopped(c, data, tms, n, left, lsb, stop) == Some(d)
    requires f == RawNext(c, data, tms, n, left, lsb) && rest == left - FrameLength(left)
    ensures RawStopped(f, data, tms, n, rest, lsb, stop) == Some(d)
  {
    NextBoundary(n, left);
  }

  lemma RawOver(c: Chain, data: seq<Byte>, tms: seq<Byte>, n: nat, left: nat, lsb: bool, stop: nat, d: Chain)
    requires left <= stop && RawStopped(c, data, tms, n, left, lsb, stop) == Some(d)
    ensures d == c
  {
  }

  /** Clock `i` after `base` sent data bit `first + i` of `n`. */
  predicate RawAt(log: seq<Edge>, base: nat, data: seq<Byte>, n: nat, first: nat, lsb: bool, i: nat) {
    && base + i < |log| && first + i < n
    && Source(n, first + i, lsb) < 8 * |data| && log[base + i].tdi == Payload(data, Source(n, first + i, lsb))
  }

  ghost predicate AllRaw(log: seq<Edge>, base: nat, data: seq<Byte>, n: nat, first: nat, count: nat, lsb: bool) {
    forall i :: 0 <= i < count ==> RawAt(log, base, data, n, first, lsb, i)
  }

  ghost predicate RawSent(c: Chain, d: Chain, data: seq<Byte>, n: nat, left: nat, lsb: bool)
    requires left <= n
  {
    && |d.log| == |c.log| + left && d.log[..|c.log|] == c.log
    && AllRaw(d.log, |c.log|, data, n, n - left, left, lsb)
  }

  lemma RawFrameSends(c: Chain, data: seq<Byte>, tms: Bits, n: nat, left: nat, lsb: bool, i: nat)
    requires 0 < left && Boundary(n, left) && n <= 8 * |data| && |tms| == 16 && i < FrameLength(left)
    ensures var d := Frame(c, tms, DataWord(data, n, left, lsb), FrameLength(left));
            d.log[..|c.log|] == c.log && RawAt(d.log, |c.log|, data, n, n - left, lsb, i)
  {
    FrameLog(c, tms, DataWord(data, n, left, lsb), FrameLength(left), i);
    WordSends(data, n, left, lsb, i);
  }

  lemma RawFrameSent(c: Chain, f: Chain, data: seq<Byte>, tms: seq<Byte>, n: nat, left: nat, b: nat, lsb: bool)
    requires 0 < left && Boundary(n, left) && n <= 8 * |data| && n <= 8 * |tms| && b == FrameLength(left)
    requires f == RawNext(c, data, tms, n, left, lsb)
    ensures |f.log| == |c.log| + b && f.log[..|c.log|] == c.log && AllRaw(f.log, |c.log|, data, n, n - left, b, lsb)
  {
    var base, first := |c.log|, n - left;
    forall i | 0 <= i < b ensures RawAt(f.log, base, data, n, first, lsb, i) {
      RawFrameSends(c, data, RawTmsWord(tms, n, left, lsb), n, left, lsb, i);
    }
    RawFrameSends(c, data, RawTmsWord(tms, n, left, lsb), n, left, lsb, 0);
  }

  /** Raw data bits go out in the same order as in any other transfer. */
  lemma {:induction false} RawTransferSends(c: Chain, data: seq<Byte>, tms: seq<Byte>, n: nat, left: nat, lsb: bool,
      d: Chain)
    requires RawStopped(c, data, tms, n, left, lsb, 0) == Some(d)
    ensures RawSent(c, d, data, n, left, lsb)
    decreases left
  {
    if left == 0 {
      RawOver(c, data, tms, n, left, lsb, 0, d);
    } else {
      var b, f := FrameLength(left), RawNext(c, data, tms, n, left, lsb);
      RawStep(c, f, data, tms, n, left, left - b, lsb, 0, d);
      RawFrameSent(c, f, data, tms, n, left, b, lsb);
      RawTransferSends(f, data, tms, n, left - b, lsb, d);
      RawGlue(c, f, d, data, n, left, b, lsb);
    }
  }

  lemma RawGlue(c: Chain, f: Chain, d: Chain, data: seq<Byte>, n: nat, left: nat, b: nat, lsb: bool)
    requires 0 < b <= left <= n && |f.log| == |c.log| + b && f.log[..|c.log|] == c.log
    requires AllRaw(f.log, |c.log|, data, n, n - left, b, lsb)
    requires RawSent(f, d, data, n, left - b, lsb)
    ensures RawSent(c, d, data, n, left, lsb)
  {
    var base, first := |c.log|, n - left;
    forall i | 0 <= i < left ensures RawAt(d.log, base, data, n, first, lsb, i) {
      if i < b {
        assert RawAt(f.log, base, data, n, first, lsb, i);
        assert d.log[base + i] == d.log[..|f.log|][base + i] == f.log[base + i];
      } else {
        assert RawAt(d.log, |f.log|, data, n, n - (left - b), lsb, i - b);
      }
    }
    assert d.log[..base] == d.log[..|f.log|][..base] == f.log[..base];
  }

  /** The TMS bits of one raw frame: the same bit numbers as the data starting with the least significant
      bit; from the other end, the TMS word was not shifted up as the data word was. */
  lemma RawFrameTms(c: Chain, data: seq<Byte>, tms: seq<Byte>, n: nat, left: nat, lsb: bool, i: nat)
    requires 0 < left && Boundary(n, left) && n <= 8 * |data| && n <= 8 * |tms| && i < FrameLength(left)
    ensures var d := Frame(c, RawTmsWord(tms, n, left, lsb), DataWord(data, n, left, lsb), FrameLength(left));
            var k := if lsb then LsbSource(n, n - left + i) else RawTmsSource(left, i);
            k < 8 * |tms| && d.log[|c.log| + i].tms == Payload(tms, k)
  {
    FrameLog(c, RawTmsWord(tms, n, left, lsb), DataWord(data, n, left, lsb), FrameLength(left), i);
    if lsb { LsbBit(tms, n, left, i); } else { RawMsbBit(tms, left, i); }
  }

  // ---------------------------------------------------------------- runs

  /** The part of `set_state` that clocks: one frame with the digits on TMS and zeros on TDI. */
  function Lead(c: Chain, s: State, target: State): Chain
    requires Target(target)
  {
    var d := TmsDigits(s, target);
    Frame(c, LeftAligned(d), Zeros(16), |d|)
  }

  lemma LeadAgrees(c: Chain, s: State, target: State)
    requires Target(target) && Agrees(s, c.tap)
    ensures Agrees(target, Lead(c, s, target).tap)
  {
    var d := TmsDigits(s, target);
    DigitsLead(s, target, c.tap);
    FrameTap(c, d, Zeros(16), |d|);
  }

  /** A successful operation of the controller. */
  datatype Op =
    | ChangeState(target: State)
    | Shift(target: State, data: seq<Byte>, n: nat, lsb: bool)
    | Raw(data: seq<Byte>, tms: seq<Byte>, n: nat, lsb: bool)

  predicate ValidOp(op: Op) {
    match op
    case ChangeState(target) => Target(target)
    case Shift(target, data, n, _) => (target == Idle || target == Dr || target == Ir) && 0 < n <= 8 * |data|
    case Raw(data, tms, n, _) => 0 < n <= 8 * |data| && n <= 8 * |tms|
  }

  /** Shadow state and chain after it. */
  function Perform(s: State, c: Chain, op: Op): (State, Chain)
    requires ValidOp(op)
  {
    match op
    case ChangeState(target) => (target, Lead(c, s, target))
    case Shift(target, data, n, lsb) =>
      (if target == Idle then Idle else Exit, Transfer(Lead(c, s, target), data, n, n, lsb, target == Idle))
    case Raw(data, tms, n, lsb) => (Invalid, RawTransfer(c, data, tms, n, n, lsb))
  }

  lemma PerformAgrees(s: State, c: Chain, op: Op)
    requires ValidOp(op) && Agrees(s, c.tap)
    ensures var r := Perform(s, c, op); Agrees(r.0, r.1.tap)
  {
    match op
    case ChangeState(target) => LeadAgrees(c, s, target);
    case Shift(target, data, n, lsb) =>
      LeadAgrees(c, s, target);
      var l := Lead(c, s, target);
      TransferSends(l, data, n, n, lsb, target == Idle, Transfer(l, data, n, n, lsb, target == Idle));
    case Raw(_, _, _, _) =>
  }

  function Run(s: State, c: Chain, ops: seq<Op>): (State, Chain)
    requires forall i :: 0 <= i < |ops| ==> ValidOp(ops[i])
    decreases |ops|
  {
    if ops == [] then (s, c)
    else
      var r := Perform(s, c, ops[0]);
      Run(r.0, r.1, ops[1..])
  }

  /** After any successful operations the shadow state allows the state the TAP is in. */
  lemma {:induction false} AlwaysAgrees(s: State, c: Chain, ops: seq<Op>)
    requires Agrees(s, c.tap) && forall i :: 0 <= i < |ops| ==> ValidOp(ops[i])
    ensures var r := Run(s, c, ops); Agrees(r.0, r.1.tap)
    decreases |ops|
  {
    if ops != [] {
      PerformAgrees(s, c, ops[0]);
      var r := Perform(s, c, ops[0]);
      AlwaysAgrees(r.0, r.1, ops[1..]);
    }
  }

  /** A state change whose answer was lost leaves the old shadow state. It still agrees exactly if the
      frame never reached the chain or the old state was "unknown". */
  lemma LostAnswer(c: Chain, s: State, target: State, clocked: bool)
    requires Target(target) && Agrees(s, c.tap) && TmsDigits(s, target) != []
    ensures Agrees(s, (if clocked then Lead(c, s, target) else c).tap) <==> !clocked || s == Invalid
  {
    LeadAgrees(c, s, target);
  }

  lemma FrameRest(n: nat, at: nat)
    requires n > 0 && FrameAt(n, at)
    ensures var rest := at - FrameLength(at);
            0 < at <= n && rest < n && rest % 16 == 0 && (rest == 0 <==> at <= 16) && (at == n || at % 16 == 0)
  {
  }

  /** A transfer that stops at a frame whose answer was lost leaves the shadow state at the target. It agrees exactly
      unless that was the last frame of a shift and it did reach the chain. */
  lemma LostFrame(c: Chain, s: State, target: State, data: seq<Byte>, n: nat, lsb: bool, at: nat, clocked: bool)
    requires (target == Idle || target == Dr || target == Ir) && Agrees(s, c.tap) && 0 < n <= 8 * |data| &&
             FrameAt(n, at)
    ensures var stop := if clocked then at - FrameLength(at) else at;
            var d := Partial(Lead(c, s, target), data, n, n, lsb, target == Idle, stop);
            Agrees(target, d.tap) <==> target == Idle || !clocked || at > 16
  {
    var l, stop := Lead(c, s, target), if clocked then at - FrameLength(at) else at;
    FrameRest(n, at);
    LostTap(c, l, s, target, data, n, lsb, stop, Partial(l, data, n, n, lsb, target == Idle, stop));
  }

  lemma LostTap(c: Chain, l: Chain, s: State, target: State, data: seq<Byte>, n: nat, lsb: bool, stop: nat, d: Chain)
    requires (target == Idle || target == Dr || target == Ir) && Agrees(s, c.tap) && l == Lead(c, s, target)
    requires 0 < n && Stopped(l, data, n, n, lsb, target == Idle, stop) == Some(d) &&
             (stop == n || (stop < n && stop % 16 == 0))
    ensures Agrees(target, d.tap) <==> target == Idle || stop > 0
  {
    LeadAgrees(c, s, target);
    PartialTap(l, data, n, n, lsb, target == Idle, stop, d);
  }
}
