/** The JTAG chain behind the controller: the TAP state machine of section 6.1 of IEEE Std 1149.1-2013,
    the frames the controller clocks out, and the words the driver writes for them. */
module JtagModel {
  import opened Bits

  // ---------------------------------------------------------------- TAP controller

  datatype Tap =
    | TestLogicReset | RunTestIdle
    | SelectDr | CaptureDr | ShiftDr | Exit1Dr | PauseDr | Exit2Dr | UpdateDr
    | SelectIr | CaptureIr | ShiftIr | Exit1Ir | PauseIr | Exit2Ir | UpdateIr

  /** One rising edge of TCK. */
  function Clock(t: Tap, tms: bool): Tap {
    match t
    case TestLogicReset => if tms then TestLogicReset else RunTestIdle
    case RunTestIdle => if tms then SelectDr else RunTestIdle
    case SelectDr => if tms then SelectIr else CaptureDr
    case CaptureDr => if tms then Exit1Dr else ShiftDr
    case ShiftDr => if tms then Exit1Dr else ShiftDr
    case Exit1Dr => if tms then UpdateDr else PauseDr
    case PauseDr => if tms then Exit2Dr else PauseDr
    case Exit2Dr => if tms then UpdateDr else ShiftDr
    case UpdateDr => if tms then SelectDr else RunTestIdle
    case SelectIr => if tms then TestLogicReset else CaptureIr
    case CaptureIr => if tms then Exit1Ir else ShiftIr
    case ShiftIr => if tms then Exit1Ir else ShiftIr
    case Exit1Ir => if tms then UpdateIr else PauseIr
    case PauseIr => if tms then Exit2Ir else PauseIr
    case Exit2Ir => if tms then UpdateIr else ShiftIr
    case UpdateIr => if tms then SelectDr else RunTestIdle
  }

  /** One clock as the chain saw it: TMS, TDI and the state it found. */
  datatype Edge = Edge(tms: bool, tdi: bool, at: Tap)

  datatype Chain = Chain(tap: Tap, log: seq<Edge>)

  function Tick(c: Chain, tms: bool, tdi: bool): Chain {
    Chain(Clock(c.tap, tms), c.log + [Edge(tms, tdi, c.tap)])
  }

  /** `n` clocks; the controller sends bit 15 of both 16-bit words first. */
  function Frame(c: Chain, tms: Bits, tdi: Bits, n: nat): (d: Chain)
    requires |tms| == |tdi| == 16 && n <= 16
    ensures |d.log| == |c.log| + n
  {
    if n == 0 then c else Tick(Frame(c, tms, tdi, n - 1), tms[16 - n], tdi[16 - n])
  }

  // ---------------------------------------------------------------- shadow state

  /** The driver's idea of the TAP state. */
  datatype State = Invalid | Reset | Idle | Dr | Ir | Exit

  /** The shadow state allows this TAP state. */
  predicate Agrees(s: State, t: Tap) {
    match s
    case Invalid => true
    case Reset => t == TestLogicReset
    case Idle => t == RunTestIdle
    case Dr => t == ShiftDr
    case Ir => t == ShiftIr
    case Exit => t == Exit1Dr || t == Exit1Ir
  }

  predicate Target(s: State) { s == Reset || s == Idle || s == Dr || s == Ir }

  /** `bits` and `numBits` of `set_state` as a list of digits, first digit sent first: shifting in `k`
      digits appends them. */
  function TmsDigits(s: State, target: State): (r: Bits)
    requires Target(target)
    ensures |r| <= 10
  {
    match s
    case Invalid => FromReset([true, true, true, true, true], target)
    case Reset => FromReset([], target)
    case Idle => FromIdle([], target)
    case Dr =>
      if target == Dr then []
      else if target == Idle then [true, true, false]
      else if target == Ir then [true, true, true, true, false, false]
      else [true, true, true, true, true]
    case Ir =>
      if target == Ir then []
      else if target == Idle then [true, true, false]
      else if target == Dr then [true, true, true, false, false]
      else [true, true, true, true, true]
    case Exit =>
      if target == Idle then [true, false]
      else if target == Dr then [true, true, false, false]
      else if target == Ir then [true, true, true, false, false]
      else [true, true, true, true]
  }

  /** The case STATE_RESET and its fall-through. */
  function FromReset(digits: Bits, target: State): Bits {
    if target == Reset then digits else FromIdle(digits + [false], target)
  }

  /** The case STATE_IDLE. */
  function FromIdle(digits: Bits, target: State): Bits {
    if target == Idle then digits
    else if target == Dr then digits + [true, false, false]
    else if target == Ir then digits + [true, true, false, false]
    else [true, true, true]
  }

  /** The digits at the top of a 16-bit word: `(bits << (16 - numBits)) & 0xffff`. */
  function LeftAligned(digits: Bits): (r: Bits)
    requires |digits| <= 16
    ensures |r| == 16
  {
    seq(16, k requires 0 <= k < 16 => 15 - k < |digits| && digits[15 - k])
  }

  function Clocks(t: Tap, tms: Bits, n: nat): Tap
    requires n <= |tms|
  {
    if n == 0 then t else Clock(Clocks(t, tms, n - 1), tms[n - 1])
  }

  lemma {:induction false} FrameTap(c: Chain, digits: Bits, tdi: Bits, n: nat)
    requires |digits| <= 16 && |tdi| == 16 && n <= |digits|
    ensures Frame(c, LeftAligned(digits), tdi, n).tap == Clocks(c.tap, digits, n)
  {
    if n > 0 { FrameTap(c, digits, tdi, n - 1); }
  }

  lemma Clocks3(t: Tap, d: Bits)
    requires |d| >= 3
    ensures Clocks(t, d, 3) == Clock(Clock(Clock(t, d[0]), d[1]), d[2])
  {
    assert Clocks(t, d, 1) == Clock(t, d[0]);
  }

  lemma Clocks6(t: Tap, d: Bits)
    requires |d| >= 6
    ensures Clocks(t, d, 6) == Clock(Clock(Clock(Clocks(t, d, 3), d[3]), d[4]), d[5])
  {
    assert Clocks(t, d, 4) == Clock(Clocks(t, d, 3), d[3]);
  }

  /** Five ones reset the TAP from any state. */
  lemma FiveOnes(t: Tap, d: Bits)
    requires |d| >= 5 && d[0] && d[1] && d[2] && d[3] && d[4]
    ensures Clocks(t, d, 5) == TestLogicReset
  {
    Clocks3(t, d);
    assert Clocks(t, d, 4) == Clock(Clocks(t, d, 3), d[3]);
  }

  lemma FromInvalid(target: State, t: Tap)
    requires Target(target)
    ensures var d := TmsDigits(Invalid, target); Agrees(target, Clocks(t, d, |d|))
  {
    var d := TmsDigits(Invalid, target);
    FiveOnes(t, d);
    if |d| > 5 { assert Clocks(t, d, 6) == RunTestIdle; }
    if |d| > 6 { assert Clocks(t, d, 7) == SelectDr; assert Clocks(t, d, 8) == Clock(SelectDr, d[7]); }
  }

  /** Whatever the shadow state, its TMS sequence leads every TAP state it allows to the target. */
  lemma DigitsLead(s: State, target: State, t: Tap)
    requires Target(target) && Agrees(s, t)
    ensures var d := TmsDigits(s, target); Agrees(target, Clocks(t, d, |d|))
  {
    var d := TmsDigits(s, target);
    if s == Invalid {
      FromInvalid(target, t);
    } else if |d| >= 3 {
      Clocks3(t, d);
      if |d| >= 4 { assert Clocks(t, d, 4) == Clock(Clocks(t, d, 3), d[3]); }
      if |d| >= 6 { Clocks6(t, d); }
    } else if |d| == 2 {
      assert Clocks(t, d, 1) == Clock(t, d[0]);
    }
  }

  /** The register the chain is at, and where it takes over what was shifted in. */
  function UpdateOf(t: Tap): Tap { if t == ShiftIr || t == Exit1Ir then UpdateIr else UpdateDr }

  ghost predicate Never(t: Tap, d: Bits, x: Tap) { forall k :: 0 < k <= |d| ==> Clocks(t, d, k) != x }

  ghost predicate Once(t: Tap, d: Bits, x: Tap) {
    exists k :: 0 < k <= |d| && Clocks(t, d, k) == x && forall j :: 0 < j <= |d| && j != k ==> Clocks(t, d, j) != x
  }

  /** A shift state is left at once, so that no bit is shifted. */
  ghost predicate NothingShifted(t: Tap, d: Bits) {
    forall k :: 0 <= k < |d| && Clocks(t, d, k) in {ShiftDr, ShiftIr} ==> d[k]
  }

  /** The states on the way are these. */
  ghost predicate Route(t: Tap, d: Bits, r: seq<Tap>) {
    |r| == |d| && forall k: nat :: k < |d| ==> RouteAt(t, d, r, k)
  }

  predicate RouteAt(t: Tap, d: Bits, r: seq<Tap>, k: nat) {
    k < |d| == |r| && r[k] == Clock(if k == 0 then t else r[k - 1], d[k])
  }

  lemma {:induction false} RouteClocks(t: Tap, d: Bits, r: seq<Tap>, n: nat)
    requires Route(t, d, r) && n <= |d|
    ensures Clocks(t, d, n) == if n == 0 then t else r[n - 1]
  {
    if n > 0 {
      RouteClocks(t, d, r, n - 1);
      assert RouteAt(t, d, r, n - 1);
    }
  }

  /** The states on the way from a known state to a target. */
  function Way(s: State, target: State, t: Tap): seq<Tap> {
    match s
    case Reset =>
      if target == Idle then [RunTestIdle]
      else if target == Dr then [RunTestIdle, SelectDr, CaptureDr, ShiftDr]
      else if target == Ir then [RunTestIdle, SelectDr, SelectIr, CaptureIr, ShiftIr]
      else []
    case Exit =>
      if target == Idle then [UpdateOf(t), RunTestIdle]
      else if target == Dr then [UpdateOf(t), SelectDr, CaptureDr, ShiftDr]
      else if target == Ir then [UpdateOf(t), SelectDr, SelectIr, CaptureIr, ShiftIr]
      else [UpdateOf(t), SelectDr, SelectIr, TestLogicReset]
    case Dr =>
      if target == Idle then [Exit1Dr, UpdateDr, RunTestIdle]
      else if target == Dr then []
      else if target == Ir then [Exit1Dr, UpdateDr, SelectDr, SelectIr, CaptureIr, ShiftIr]
      else [Exit1Dr, UpdateDr, SelectDr, SelectIr, TestLogicReset]
    case Ir =>
      if target == Idle then [Exit1Ir, UpdateIr, RunTestIdle]
      else if target == Dr then [Exit1Ir, UpdateIr, SelectDr, CaptureDr, ShiftDr]
      else if target == Ir then []
      else [Exit1Ir, UpdateIr, SelectDr, SelectIr, TestLogicReset]
    case _ =>
      if target == Dr then [SelectDr, CaptureDr, ShiftDr]
      else if target == Ir then [SelectDr, SelectIr, CaptureIr, ShiftIr]
      else if target == Reset then [SelectDr, SelectIr, TestLogicReset]
      else []
  }

  lemma ResetDigits(target: State)
    requires Target(target)
    ensures TmsDigits(Reset, target) ==
            if target == Idle then [false]
            else if target == Dr then [false, true, false, false]
            else if target == Ir then [false, true, true, false, false]
            else []
  {
  }

  lemma WayIsRoute(s: State, target: State, t: Tap)
    requires Target(target) && Agrees(s, t) && s != Invalid
    ensures Route(t, TmsDigits(s, target), Way(s, target, t))
  {
    ResetDigits(target);
    match s
    case Reset =>
    case Idle => IdleRoute(target);
    case Exit => ExitRoute(target, t);
    case Dr =>
    case Ir =>
  }

  lemma IdleRoute(target: State)
    requires Target(target)
    ensures Route(RunTestIdle, TmsDigits(Idle, target), Way(Idle, target, RunTestIdle))
  {
    assert TmsDigits(Idle, target) ==
      if target == Idle then [] else if target == Dr then [true, false, false]
      else if target == Ir then [true, true, false, false] else [true, true, true];
  }

  lemma ExitRoute(target: State, t: Tap)
    requires Target(target) && Agrees(Exit, t)
    ensures Route(t, TmsDigits(Exit, target), Way(Exit, target, t))
  {
  }

  lemma WayMeans(s: State, target: State, t: Tap, x: Tap, r: seq<Tap>)
    requires Target(target) && Agrees(s, t) && s != Invalid && r == Way(s, target, t)
    ensures target != Reset ==> TestLogicReset !in r
    ensures forall k :: 0 <= k < |r| - 1 ==> r[k] != ShiftDr && r[k] != ShiftIr
    ensures x in {UpdateDr, UpdateIr} && !(s in {Dr, Ir, Exit} && s != target && x == UpdateOf(t)) ==> x !in r
    ensures s in {Dr, Ir, Exit} && s != target ==>
              var k := if s == Exit then 0 else 1;
              && k < |r| && r[k] == UpdateOf(t)
              && forall j :: 0 <= j < |r| && j != k ==> r[j] != UpdateOf(t)
  {
  }

  lemma LeavesShift(s: State, target: State, t: Tap)
    requires Target(target) && s != Invalid && Agrees(s, t) && TmsDigits(s, target) != [] && t in {ShiftDr, ShiftIr}
    ensures TmsDigits(s, target)[0]
  {
  }

  lemma RouteNever(t: Tap, d: Bits, r: seq<Tap>, x: Tap)
    requires Route(t, d, r) && x !in r
    ensures Never(t, d, x)
  {
    forall k: nat | 0 < k <= |d| ensures Clocks(t, d, k) != x {
      RouteClocks(t, d, r, k);
      assert r[k - 1] in r;
    }
  }

  lemma RouteOnce(t: Tap, d: Bits, r: seq<Tap>, x: Tap, k: nat)
    requires Route(t, d, r) && k < |r| && r[k] == x && forall j :: 0 <= j < |r| && j != k ==> r[j] != x
    ensures Once(t, d, x)
  {
    RouteClocks(t, d, r, k + 1);
    forall j: nat | 0 < j <= |d| && j != k + 1 ensures Clocks(t, d, j) != x { RouteClocks(t, d, r, j); }
  }

  lemma RouteShifts(t: Tap, d: Bits, r: seq<Tap>)
    requires Route(t, d, r) && forall k :: 0 <= k < |r| - 1 ==> r[k] != ShiftDr && r[k] != ShiftIr
    requires d != [] && t in {ShiftDr, ShiftIr} ==> d[0]
    ensures NothingShifted(t, d)
  {
    forall k: nat | k < |d| && Clocks(t, d, k) in {ShiftDr, ShiftIr} ensures d[k] { RouteClocks(t, d, r, k); }
  }

  /** What passes an update state on the way, and how often. */
  lemma PassesUpdate(s: State, target: State, t: Tap, x: Tap)
    requires Target(target) && Agrees(s, t) && s != Invalid && x in {UpdateDr, UpdateIr}
    ensures if s in {Dr, Ir, Exit} && s != target && x == UpdateOf(t) then Once(t, TmsDigits(s, target), x)
            else Never(t, TmsDigits(s, target), x)
  {
    var d, r := TmsDigits(s, target), Way(s, target, t);
    WayIsRoute(s, target, t);
    WayMeans(s, target, t, x, r);
    if s in {Dr, Ir, Exit} && s != target && x == UpdateOf(t) {
      RouteOnce(t, d, r, x, if s == Exit then 0 else 1);
    } else {
      RouteNever(t, d, r, x);
    }
  }

  /** The way of a state change from a known state: it resets the chain only if asked to, shifts nothing, and passes the
      update state of the register it leaves exactly once, and no other. */
  lemma DigitsPass(s: State, target: State, t: Tap)
    requires Target(target) && Agrees(s, t) && s != Invalid
    ensures var d := TmsDigits(s, target);
            && (target != Reset ==> Never(t, d, TestLogicReset))
            && NothingShifted(t, d)
            && forall x :: x in {UpdateDr, UpdateIr} ==>
                 if s in {Dr, Ir, Exit} && s != target && x == UpdateOf(t) then Once(t, d, x) else Never(t, d, x)
  {
    var d, r := TmsDigits(s, target), Way(s, target, t);
    WayIsRoute(s, target, t);
    WayMeans(s, target, t, UpdateDr, r);
    if target != Reset { RouteNever(t, d, r, TestLogicReset); }
    if d != [] && t in {ShiftDr, ShiftIr} { LeavesShift(s, target, t); }
    RouteShifts(t, d, r);
    PassesUpdate(s, target, t, UpdateDr);
    PassesUpdate(s, target, t, UpdateIr);
  }

  // ---------------------------------------------------------------- data frames

  /** Bit `k` of the little-endian data. */
  function Payload(data: seq<Byte>, k: nat): bool
    requires k < 8 * |data|
  {
    data[k / 8][k % 8]
  }

  /** `left % 16`, or 16. */
  function FrameLength(left: nat): (r: nat)
    requires left > 0
    ensures 1 <= r <= 16 && r <= left && (left - r) % 16 == 0
  {
    if left % 16 == 0 then 16 else left % 16
  }

  /** A byte as a 16-bit value. */
  function Wide(b: Byte): (r: Bits) ensures |r| == 16 { b + Zeros(8) }

  /** Two bytes, the first in the high half; with `both` false the low half is zero. */
  function Pair(hi: Byte, lo: Byte, both: bool): (r: Bits)
    ensures |r| == 16
    ensures forall k :: 0 <= k < 16 ==> r[k] == if k >= 8 then hi[k - 8] else both && lo[k]
  {
    var d := Shl(Wide(hi), 8);
    if both then Or(d, Wide(lo)) else d
  }

  /** The frame word of a transfer that starts with the most significant bit, `p` pointing at the byte
      with the next bit. */
  function MsbWord(data: seq<Byte>, p: nat, b: nat): (r: Bits)
    requires 1 <= b <= 16 && p < |data| && (b > 8 ==> p >= 1)
    ensures |r| == 16
  {
    var d := Pair(data[p], if b > 8 then data[p - 1] else data[p], b > 8);
    if b <= 8 then Shl(d, 8 - b) else if b < 16 then Shl(d, 16 - b) else d
  }

  /** `reverse_bits_pointer`, by its three swaps. */
  function Reverse(c: Byte): (r: Byte)
    ensures forall k :: 0 <= k < 8 ==> r[k] == c[7 - k]
  {
    var n := c[4..] + c[..4];
    var p := n[2..4] + n[..2] + n[6..] + n[4..6];
    [p[1], p[0], p[3], p[2], p[5], p[4], p[7], p[6]]
  }

  /** The frame word of a transfer that starts with the least significant bit. */
  function LsbWord(data: seq<Byte>, p: nat, b: nat): (r: Bits)
    requires 1 <= b <= 16 && p < |data| && (b > 8 ==> p + 1 < |data|)
    ensures |r| == 16
  {
    Pair(Reverse(data[p]), Reverse(if b > 8 then data[p + 1] else data[p]), b > 8)
  }

  /** The TMS word outside raw mode: a one only for the bit that leaves the shift state. */
  function ExitWord(left: nat, idle: bool): (r: Bits)
    requires left > 0
    ensures |r| == 16
  {
    var one := seq(16, k requires 0 <= k < 16 => k == 0);
    if left > 16 || idle then Zeros(16) else Shl(one, 16 - FrameLength(left))
  }

  /** The raw TMS word, most significant bit first; unlike the data word it is not shifted up. */
  function RawMsbTms(tms: seq<Byte>, p: nat, b: nat): (r: Bits)
    requires 1 <= b <= 16 && p < |tms| && (b > 8 ==> p >= 1)
    ensures |r| == 16
  {
    Pair(tms[p], if b > 8 then tms[p - 1] else tms[p], b > 8)
  }

  lemma ByteOf(q: nat, k: nat)
    requires k < 8
    ensures (8 * q + k) / 8 == q && (8 * q + k) % 8 == k
  {
  }

  lemma PayloadAt(data: seq<Byte>, m: nat, k: nat, at: nat)
    requires at == 8 * m + k && k < 8 && m < |data|
    ensures Payload(data, at) == data[m][k]
  {
    ByteOf(m, k);
  }

  lemma Split(left: nat) returns (q: nat)
    requires left > 0
    ensures left == 16 * q + FrameLength(left)
    ensures (left + 7) / 8 - 1 == if FrameLength(left) <= 8 then 2 * q else 2 * q + 1
    ensures left % 8 == 0 <==> FrameLength(left) == 8 || FrameLength(left) == 16
  {
    var b := FrameLength(left);
    q := (left - b) / 16;
    assert left == 8 * (2 * q) + b;
    WholeBytes(2 * q, b);
  }

  lemma WholeBytes(m: nat, b: nat)
    requires 1 <= b <= 16
    ensures (8 * m + b + 7) / 8 == m + (b + 7) / 8 && (8 * m + b) % 8 == b % 8
  {
  }

  lemma MsbWordBit(data: seq<Byte>, p: nat, b: nat, i: nat)
    requires i < b <= 16 && p < |data| && (b > 8 ==> p >= 1)
    ensures MsbWord(data, p, b)[15 - i] ==
            if b <= 8 then data[p][b - 1 - i] else if i < b - 8 then data[p][b - 9 - i] else data[p - 1][b - 1 - i]
  {
    var d := Pair(data[p], if b > 8 then data[p - 1] else data[p], b > 8);
    if b <= 8 {
      assert MsbWord(data, p, b)[15 - i] == d[15 - i - (8 - b)];
    } else if b < 16 {
      assert MsbWord(data, p, b)[15 - i] == d[15 - i - (16 - b)];
    }
  }

  lemma MsbBitShort(data: seq<Byte>, q: nat, b: nat, i: nat)
    requires 16 * q + b <= 8 * |data| && i < b <= 8
    ensures 2 * q < |data| && MsbWord(data, 2 * q, b)[15 - i] == Payload(data, 16 * q + b - 1 - i)
  {
    MsbWordBit(data, 2 * q, b, i);
    PayloadAt(data, 2 * q, b - 1 - i, 16 * q + b - 1 - i);
  }

  lemma MsbBitLong(data: seq<Byte>, q: nat, b: nat, i: nat)
    requires 16 * q + b <= 8 * |data| && i < b && 8 < b <= 16
    ensures 2 * q + 1 < |data| && MsbWord(data, 2 * q + 1, b)[15 - i] == Payload(data, 16 * q + b - 1 - i)
  {
    var at := 16 * q + b - 1 - i;
    MsbWordBit(data, 2 * q + 1, b, i);
    if i < b - 8 { PayloadAt(data, 2 * q + 1, b - 9 - i, at); } else { PayloadAt(data, 2 * q, b - 1 - i, at); }
  }

  /** Bit `i` of the frame is payload bit `left - 1 - i`. */
  lemma MsbBit(data: seq<Byte>, left: nat, i: nat)
    requires 0 < left <= 8 * |data| && i < FrameLength(left)
    ensures var b := FrameLength(left); var p := (left + 7) / 8 - 1;
            p < |data| && (b > 8 ==> p >= 1) && MsbWord(data, p, b)[15 - i] == Payload(data, left - 1 - i)
  {
    var q := Split(left);
    if FrameLength(left) <= 8 {
      MsbBitShort(data, q, FrameLength(left), i);
    } else {
      MsbBitLong(data, q, FrameLength(left), i);
    }
  }

  /** Payload bit sent as number `j` of a transfer of `n` bits that starts with the least significant bit:
      after a partial first frame the pointer has moved on to the next whole byte. */
  function LsbSource(n: nat, j: nat): nat
    requires j < n
  {
    var b := FrameLength(n);
    if j < b then j else j + (if b <= 8 then 8 else 16) - b
  }

  /** The bits go out in order, none left out, exactly for transfers of one frame or of whole bytes. */
  lemma LsbInOrderIff(n: nat)
    requires n > 0
    ensures (forall j :: 0 <= j < n ==> LsbSource(n, j) == j) <==> n <= 16 || n % 8 == 0
  {
    var b := FrameLength(n);
    var q := Split(n);
    if n <= 16 {
      assert q == 0;
    } else if b != 8 && b != 16 {
      assert LsbSource(n, b) != b;
    }
  }

  /** The byte pointer at the frame with `left` bits to go. */
  function LsbPointer(n: nat, left: nat): int
    requires 0 < left <= n
  {
    if left == n then 0 else (n + 7) / 8 - left / 8
  }

  lemma LsbBitAt(data: seq<Byte>, p: nat, b: nat, i: nat)
    requires i < b <= 16 && 8 * p + b <= 8 * |data|
    ensures p < |data| && LsbWord(data, p, b)[15 - i] == Payload(data, 8 * p + i)
  {
    if i < 8 { ByteOf(p, i); } else { ByteOf(p + 1, i - 8); }
  }

  /** Where the pointer stands at a later frame. */
  lemma LsbLater(n: nat, left: nat)
    requires 0 < left < n && left <= n - FrameLength(n) && left % 16 == 0
    ensures LsbPointer(n, left) >= 0 && 8 * LsbPointer(n, left) + left == 8 * ((n + 7) / 8)
    ensures 8 * LsbPointer(n, left) == n - left + (if FrameLength(n) <= 8 then 8 else 16) - FrameLength(n)
  {
    var q := Split(n);
    var m := left / 8;
    assert left == 8 * m;
  }

  lemma LsbBit(data: seq<Byte>, n: nat, left: nat, i: nat)
    requires 0 < left <= n <= 8 * |data| && i < FrameLength(left) &&
             (left == n || (left % 16 == 0 && left <= n - FrameLength(n)))
    ensures var b := FrameLength(left); var p := LsbPointer(n, left);
            0 <= p < |data| && (b > 8 ==> p + 1 < |data|) && LsbSource(n, n - left + i) < 8 * |data|
            && LsbWord(data, p, b)[15 - i] == Payload(data, LsbSource(n, n - left + i))
  {
    if left == n {
      LsbBitAt(data, 0, FrameLength(left), i);
    } else {
      LsbLater(n, left);
      LsbBitAt(data, LsbPointer(n, left), 16, i);
    }
  }

  lemma ExitBit(left: nat, idle: bool, i: nat)
    requires left > 0 && i < FrameLength(left)
    ensures ExitWord(left, idle)[15 - i] == (i == left - 1 && !idle)
  {
  }

  lemma RawMsbBitAt(tms: seq<Byte>, q: nat, b: nat, i: nat)
    requires 16 * q + b <= 8 * |tms| && i < b <= 16
    ensures var p := if b <= 8 then 2 * q else 2 * q + 1; var k := 16 * q + (if b <= 8 then 7 else 15) - i;
            p < |tms| && k < 8 * |tms| && RawMsbTms(tms, p, b)[15 - i] == Payload(tms, k)
  {
    if b <= 8 {
      ByteOf(2 * q, 7 - i);
    } else if i < 8 {
      ByteOf(2 * q + 1, 7 - i);
    } else {
      ByteOf(2 * q, 15 - i);
    }
  }

  /** Payload bit of the TMS buffer sent with bit `i` of a raw frame. */
  lemma RawMsbBit(tms: seq<Byte>, left: nat, i: nat)
    requires 0 < left <= 8 * |tms| && i < FrameLength(left)
    ensures var b := FrameLength(left); var p := (left + 7) / 8 - 1; var k := RawTmsSource(left, i);
            p < |tms| && (b > 8 ==> p >= 1) && k < 8 * |tms| && RawMsbTms(tms, p, b)[15 - i] == Payload(tms, k)
  {
    var q := Split(left);
    RawMsbBitAt(tms, q, FrameLength(left), i);
  }

  function RawTmsSource(left: nat, i: nat): nat
    requires left > 0 && i < FrameLength(left)
  {
    var b := FrameLength(left);
    left - b + (if b <= 8 then 7 else 15) - i
  }

  /** In raw mode, most significant bit first, each TMS bit goes out with its data bit exactly if the
      frame is made of whole bytes. */
  lemma RawAlignedIff(left: nat, i: nat)
    requires left > 0 && i < FrameLength(left)
    ensures RawTmsSource(left, i) == left - 1 - i <==> left % 8 == 0
  {
    var q := Split(left);
  }
}
