/** The JTAG controller as the driver writes it, proved against JtagTransfer. The chain is the hardware
    behind the control register: every acknowledged frame clocks it. */
module JtagController {
  import opened Bits
  import opened Lists
  import opened JtagModel
  import opened JtagTransfer

  datatype Error = InvalidArgument | InvalidSize | InvalidFlags | LengthMismatch | IoFailure
  datatype Result = Written(count: nat) | Failed(error: Error)

  /** The transmission flags. `state` is the requested state, if any. */
  datatype Flags = Flags(bits: bool, bytes: bool, zeros: bool, ones: bool, raw: bool, state: Option<State>, lsb: bool,
      writeTms: bool)

  const MAX_BITS := 0x7fff_ffff

  /** The parameter checks of `write`, in their order. */
  function Check(data: Option<seq<Byte>>, length: nat, f: Flags): Option<Error> {
    if data.None? then Some(InvalidArgument)
    else if (f.bits && length > MAX_BITS) || (f.bytes && length > MAX_BITS / 8) || length == 0 then Some(InvalidSize)
    else if f.bits == f.bytes || f.state.None? == !f.raw then Some(InvalidFlags)
    else if f.zeros && f.ones then Some(InvalidFlags)
    else None
  }

  function BitCount(length: nat, f: Flags): nat { if f.bits then length else 8 * length }

  function ByteCount(n: nat): nat { (n + 7) / 8 }

  function Fill(n: nat, ones: bool): (r: seq<Byte>) ensures |r| == n {
    seq(n, _ => if ones then Ones(8) else Zeros(8))
  }

  /** Parameters are accepted exactly if there is data, one unit of length, a length within its limit, either raw
      mode or a state, and at most one kind of made-up data. A missing buffer is reported before a bad length, and
      that before bad flags. */
  lemma CheckMeans(data: Option<seq<Byte>>, length: nat, f: Flags)
    ensures Check(data, length, f).None? <==>
            && data.Some? && f.bits != f.bytes && f.raw != f.state.Some? && !(f.zeros && f.ones)
            && 0 < length <= if f.bits then 0x7fff_ffff else 0x0fff_ffff
    ensures Check(data, length, f) == Some(InvalidArgument) <==> data.None?
    ensures Check(data, length, f) == Some(InvalidSize) <==>
            data.Some? && (length == 0 || (f.bits && length > 0x7fff_ffff) || (f.bytes && length > 0x0fff_ffff))
    ensures Check(data, length, f) !in {Some(LengthMismatch), Some(IoFailure)}
  {
  }

  /** A length in bytes means whole bytes, and a number of bits the bytes that hold them. */
  lemma CountsMean(length: nat, f: Flags)
    requires f.bits != f.bytes
    ensures f.bytes ==> BitCount(length, f) % 8 == 0 && ByteCount(BitCount(length, f)) == length
    ensures f.bits ==> BitCount(length, f) == length && length <= 8 * ByteCount(length) < length + 8
  {
  }

  /** The shift states a write may ask for. */
  predicate Shiftable(s: State) { s == Idle || s == Dr || s == Ir }

  /** The frame that goes unanswered, by the number of bits left then, and whether the chain was clocked by it. No frame
      is sent at any other number than those of `FrameAt`. */
  datatype Fault = Fault(at: nat, clocked: bool)

  /** How many bits are left when the frame loop ends. */
  function Stop(fault: Fault, n: nat): (left: nat)
    requires n > 0
    ensures left <= n
  {
    if !FrameAt(n, fault.at) then 0 else if fault.clocked then fault.at - FrameLength(fault.at) else fault.at
  }

  /** Index of the byte with the next bit. */
  function Pointer(n: nat, left: nat, lsb: bool): int
    requires 0 < left <= n
  {
    if lsb then LsbPointer(n, left) else (left + 7) / 8 - 1
  }

  /** The pointer after a frame of `b` bits. */
  function Advance(p: int, b: nat, lsb: bool): int {
    if lsb then (if b > 8 then p + 2 else p + 1) else (if b > 8 then p - 2 else p - 1)
  }

  lemma PointerMoves(n: nat, left: nat, lsb: bool)
    requires 0 < left && Boundary(n, left) && FrameLength(left) < left
    ensures Advance(Pointer(n, left, lsb), FrameLength(left), lsb) == Pointer(n, left - FrameLength(left), lsb)
  {
    var q := Split(left);
    NextBoundary(n, left);
    var r := Split(left - FrameLength(left));
    var t := Split(n);
  }

  predicate InBuffer(data: seq<Byte>, p: int, b: nat, lsb: bool) {
    1 <= b <= 16 && 0 <= p < |data| && (b > 8 ==> if lsb then p + 1 < |data| else p >= 1)
  }

  /** The frame words picked up at the pointer. */
  function DataAt(data: seq<Byte>, p: int, b: nat, lsb: bool): (r: Bits)
    requires InBuffer(data, p, b, lsb)
    ensures |r| == 16
  {
    if lsb then LsbWord(data, p, b) else MsbWord(data, p, b)
  }

  function TmsAt(data: seq<Byte>, p: int, b: nat, lsb: bool): (r: Bits)
    requires InBuffer(data, p, b, lsb)
    ensures |r| == 16
  {
    if lsb then LsbWord(data, p, b) else RawMsbTms(data, p, b)
  }

  /** The pointer is right: both words are the ones the transfer needs. */
  lemma WordsAt(data: seq<Byte>, n: nat, left: nat, lsb: bool)
    requires 0 < left && Boundary(n, left) && n <= 8 * |data|
    ensures var p := Pointer(n, left, lsb); var b := FrameLength(left);
            InBuffer(data, p, b, lsb) && DataAt(data, p, b, lsb) == DataWord(data, n, left, lsb) &&
                TmsAt(data, p, b, lsb) == RawTmsWord(data, n, left, lsb)
  {
    if lsb { LsbBit(data, n, left, FrameLength(left) - 1); } else { MsbBit(data, left, 0); }
  }

  /** Everything about one round of a frame loop, except what it sends. */
  lemma RoundMoves(n: nat, left: nat, rest: nat, b: nat, lsb: bool)
    requires 0 < left && Boundary(n, left) && b == FrameLength(left) && rest == left - b
    ensures Boundary(n, rest) && (rest > 0 ==> Advance(Pointer(n, left, lsb), b, lsb) == Pointer(n, rest, lsb))
  {
    NextBoundary(n, left);
    if rest > 0 { PointerMoves(n, left, lsb); }
  }

  /** The lost frame, if any, is still to come. */
  predicate Due(fault: Fault, n: nat, left: nat) { FrameAt(n, fault.at) ==> fault.at <= left }

  lemma StillDue(fault: Fault, n: nat, left: nat, rest: nat)
    requires 0 < left && Boundary(n, left) && Due(fault, n, left) && rest == left - FrameLength(left)
    ensures FrameAt(n, left) && (fault.at != left ==> Due(fault, n, rest) && Stop(fault, n) <= rest)
    ensures fault.at == left ==> Stop(fault, n) == if fault.clocked then rest else left
  {
  }

  /** The words of a frame, and what sending them does to the transfer. */
  lemma TransferRound(c: Chain, data: seq<Byte>, n: nat, left: nat, rest: nat, p: int, b: nat, lsb: bool, idle: bool,
      stop: nat, d: Chain)
    requires 0 < left <= n && b == FrameLength(left) && rest == left - b && p == Pointer(n, left, lsb)
    requires Stopped(c, data, n, left, lsb, idle, stop) == Some(d)
    ensures InBuffer(data, p, b, lsb)
    ensures left > stop ==>
            Stopped(Frame(c, ExitWord(left, idle), DataAt(data, p, b, lsb), b), data, n, rest, lsb, idle, stop) ==
                Some(d)
  {
    WordsAt(data, n, left, lsb);
    if left > stop { PartialStep(c, NextFrame(c, data, n, left, lsb, idle), data, n, left, rest, lsb, idle, stop, d); }
  }

  lemma RawRound(c: Chain, data: seq<Byte>, tms: seq<Byte>, n: nat, left: nat, rest: nat, p: int, b: nat, lsb: bool,
      stop: nat, d: Chain)
    requires 0 < left <= n && b == FrameLength(left) && rest == left - b && p == Pointer(n, left, lsb)
    requires RawStopped(c, data, tms, n, left, lsb, stop) == Some(d)
    ensures InBuffer(data, p, b, lsb) && InBuffer(tms, p, b, lsb)
    ensures left > stop ==>
            RawStopped(Frame(c, TmsAt(tms, p, b, lsb), DataAt(data, p, b, lsb), b), data, tms, n, rest, lsb, stop) ==
                Some(d)
  {
    WordsAt(data, n, left, lsb);
    WordsAt(tms, n, left, lsb);
    if left > stop { RawStep(c, RawNext(c, data, tms, n, left, lsb), data, tms, n, left, rest, lsb, stop, d); }
  }

  // ---------------------------------------------------------------- results of a write

  /** Why `write` refuses to begin: the parameters, the requested state, or no TMS data of that length. */
  function Refusal(tms: Option<seq<Byte>>, tmsBits: nat, data: Option<seq<Byte>>, length: nat, f: Flags): Option<Error>
  {
    if Check(data, length, f).Some? then Check(data, length, f)
    else if !f.raw then (if Shiftable(f.state.value) then None else Some(InvalidArgument))
    else if f.writeTms || f.zeros || f.ones then None
    else if tms.None? || tmsBits != BitCount(length, f) then Some(LengthMismatch)
    else None
  }

  /** Only the TMS data is stored, nothing is sent. */
  predicate StoresOnly(f: Flags) { f.raw && f.writeTms && !f.zeros && !f.ones }

  /** All frames of an accepted write are answered. */
  predicate Answered(s: State, n: nat, f: Flags, lost: bool, fault: Fault)
    requires !f.raw ==> f.state.Some? && Target(f.state.value)
  {
    StoresOnly(f) || ((f.raw || !lost || TmsDigits(s, f.state.value) == []) && !FrameAt(n, fault.at))
  }

  /** The data of a raw write: made up when the caller's data is the TMS data. */
  function RawData(data: seq<Byte>, n: nat, f: Flags): seq<Byte> {
    if f.writeTms then Fill(ByteCount(n), !f.zeros) else data
  }

  /** The TMS data of a raw write: the caller's, made up, or stored before. */
  function RawTms(tms: Option<seq<Byte>>, data: seq<Byte>, n: nat, f: Flags): Option<seq<Byte>>
    requires n <= 8 * |data|
  {
    if f.writeTms then Some(data[..ByteCount(n)])
    else if f.zeros || f.ones then Some(Fill(ByteCount(n), !f.zeros))
    else tms
  }

  /** A lost answer leaves shadow state and chain apart: the state change was clocked and the old state was known, or
      the frame that leaves the shift state was clocked. */
  predicate Misled(s: State, n: nat, f: Flags, lost: bool, fault: Fault)
    requires f.state.Some? && Target(f.state.value)
  {
    if lost && TmsDigits(s, f.state.value) != [] then fault.clocked && s != Invalid
    else fault.clocked && FrameAt(n, fault.at) && fault.at <= 16 && f.state.value != Idle
  }

  lemma FillMeans(n: nat, ones: bool, k: nat)
    requires k < 8 * n
    ensures Payload(Fill(n, ones), k) == ones
  {
  }

  /** What a raw write shifts: the caller's data, unless that is the TMS data; then ones or zeros. The TMS data is the
      caller's, or ones or zeros where the caller asked for them, or what was stored before. */
  lemma RawInputs(tms: Option<seq<Byte>>, data: seq<Byte>, n: nat, f: Flags, k: nat)
    requires k < n <= 8 * |data| && (f.writeTms ==> f.zeros || f.ones)
    ensures k < 8 * |RawData(data, n, f)|
    ensures Payload(RawData(data, n, f), k) == if f.writeTms then !f.zeros else Payload(data, k)
    ensures f.writeTms || f.zeros || f.ones ==>
            && RawTms(tms, data, n, f).Some? && k < 8 * |RawTms(tms, data, n, f).value|
            && Payload(RawTms(tms, data, n, f).value, k) == if f.writeTms then Payload(data, k) else !f.zeros
    ensures !f.writeTms && !f.zeros && !f.ones ==> RawTms(tms, data, n, f) == tms
  {
    FillMeans(ByteCount(n), !f.zeros, k);
  }

  /** A write with good parameters is refused exactly if it asks for a state that cannot shift, or for stored TMS data
      of another length. */
  lemma RefusalMeans(tms: Option<seq<Byte>>, tmsBits: nat, data: Option<seq<Byte>>, length: nat, f: Flags)
    requires Check(data, length, f).None?
    ensures Refusal(tms, tmsBits, data, length, f) == Some(InvalidArgument) <==>
            f.state in {Some(Invalid), Some(Reset), Some(Exit)}
    ensures Refusal(tms, tmsBits, data, length, f) == Some(LengthMismatch) <==>
            f.raw && !(f.writeTms || f.zeros || f.ones) && !(tms.Some? && tmsBits == BitCount(length, f))
    ensures Refusal(tms, tmsBits, data, length, f) in {None, Some(InvalidArgument), Some(LengthMismatch)}
  {
  }

  /** The answer to the state change is lost. */
  predicate Stuck(s: State, target: State, lost: bool)
    requires Target(target)
  {
    lost && TmsDigits(s, target) != []
  }

  /** Shadow state after a write outside raw mode. */
  function ShadowAfter(s: State, n: nat, f: Flags, lost: bool, fault: Fault): State
    requires f.state.Some? && Target(f.state.value)
  {
    if Stuck(s, f.state.value, lost) then s
    else if FrameAt(n, fault.at) || f.state.value == Idle then f.state.value
    else Exit
  }

  /** The chain after a write outside raw mode: state change and transfer, up to the frame whose answer is lost. */
  function ChainAfter(s: State, c: Chain, data: seq<Byte>, n: nat, f: Flags, lost: bool, fault: Fault): Chain
    requires f.state.Some? && Target(f.state.value) && 0 < n <= 8 * |data|
  {
    var l := Lead(c, s, f.state.value);
    if Stuck(s, f.state.value, lost) then (if fault.clocked then l else c)
    else Partial(l, data, n, n, f.lsb, f.state.value == Idle, Stop(fault, n))
  }

  /** When shadow state and chain agreed before, a write sends its data from the requested state if all answers come,
      and they agree afterwards unless they are misled. */
  lemma WriteAgrees(s: State, c: Chain, data: seq<Byte>, n: nat, f: Flags, lost: bool, fault: Fault, d: Chain)
    requires !f.raw && f.state.Some? && Shiftable(f.state.value) && 0 < n <= 8 * |data| && Agrees(s, c.tap)
    requires d == ChainAfter(s, c, data, n, f, lost, fault)
    ensures Answered(s, n, f, lost, fault) ==> SentInState(s, c, d, Some(data), n, f)
    ensures Agrees(ShadowAfter(s, n, f, lost, fault), d.tap) <==>
            Answered(s, n, f, lost, fault) || !Misled(s, n, f, lost, fault)
  {
    if Stuck(s, f.state.value, lost) {
      LostAnswer(c, s, f.state.value, fault.clocked);
    } else if FrameAt(n, fault.at) {
      FrameLost(s, c, data, n, f, lost, fault, d);
    } else {
      AllSentAgrees(c, s, f.state.value, data, n, f.lsb, Lead(c, s, f.state.value), d);
    }
  }

  lemma FrameLost(s: State, c: Chain, data: seq<Byte>, n: nat, f: Flags, lost: bool, fault: Fault, d: Chain)
    requires !f.raw && f.state.Some? && Shiftable(f.state.value) && 0 < n <= 8 * |data| && Agrees(s, c.tap)
    requires !Stuck(s, f.state.value, lost) && FrameAt(n, fault.at) && d == ChainAfter(s, c, data, n, f, lost, fault)
    ensures Agrees(f.state.value, d.tap) <==> !Misled(s, n, f, lost, fault)
  {
    var target := f.state.value;
    FrameRest(n, fault.at);
    LostTap(c, Lead(c, s, target), s, target, data, n, f.lsb, Stop(fault, n), d);
  }

  lemma AllSentAgrees(c: Chain, s: State, target: State, data: seq<Byte>, n: nat, lsb: bool, l: Chain, d: Chain)
    requires Shiftable(target) && Agrees(s, c.tap) && 0 < n <= 8 * |data| && l == Lead(c, s, target)
    requires Stopped(l, data, n, n, lsb, target == Idle, 0) == Some(d)
    ensures Agrees(target, l.tap) && Sent(l, d, data, n, n, lsb, target == Idle)
    ensures Agrees(if target == Idle then Idle else Exit, d.tap)
  {
    LeadAgrees(c, s, target);
    TransferSends(l, data, n, n, lsb, target == Idle, d);
  }

  class Controller {
    var state: State
    var tms: Option<seq<Byte>>
    var tmsBits: nat
    var chain: Chain

    constructor (chain: Chain)
      ensures state == Invalid && tms == None && this.chain == chain && Agrees(state, chain.tap)
    {
      state, tms, tmsBits, this.chain := Invalid, None, 0, chain;
    }

    /** Writes the TMS word, then the data word with the enable bit, and waits for the answer. */
    method SendFrame(tmsWord: Bits, dataWord: Bits, n: nat, lost: bool, clocked: bool) returns (ok: bool)
      requires |tmsWord| == |dataWord| == 16 && n <= 16
      modifies `chain
      ensures ok == !lost
      ensures chain == if lost && !clocked then old(chain) else Frame(old(chain), tmsWord, dataWord, n)
    {
      if !lost || clocked {
        for i := 0 to n
          invariant chain == Frame(old(chain), tmsWord, dataWord, i)
        {
          chain := Tick(chain, tmsWord[15 - i], dataWord[15 - i]);
        }
      }
      return !lost;
    }

    method SetState(target: State, lost: bool, clocked: bool) returns (ok: bool)
      requires Target(target)
      modifies `state, `chain
      ensures ok == (!lost || TmsDigits(old(state), target) == [])
      ensures state == if ok then target else old(state)
      ensures chain == if ok || clocked then Lead(old(chain), old(state), target) else old(chain)
    {
      var digits := TmsDigits(state, target);
      if digits != [] {
        ok := SendFrame(LeftAligned(digits), Zeros(16), |digits|, lost, clocked);
        if !ok { return; }
      }
      state := target;
      ok := true;
    }

    /** One frame outside raw mode. `d` is the chain when the loop is over. */
    method SendNext(data: seq<Byte>, n: nat, left: nat, rest: nat, p: int, b: nat, lsb: bool, idle: bool,
        fault: Fault, ghost d: Chain)
      returns (ok: bool)
      requires 0 < left <= n && b == FrameLength(left) && rest == left - b && p == Pointer(n, left, lsb) &&
               Due(fault, n, left)
      requires Stopped(chain, data, n, left, lsb, idle, Stop(fault, n)) == Some(d)
      modifies `chain
      ensures ok == (fault.at != left)
      ensures if ok then Due(fault, n, rest) && Stopped(chain, data, n, rest, lsb, idle, Stop(fault, n)) == Some(d)
              else FrameAt(n, fault.at) && chain == d
    {
      ghost var c, stop := chain, Stop(fault, n);
      StillDue(fault, n, left, rest);
      TransferRound(c, data, n, left, rest, p, b, lsb, idle, stop, d);
      ok := SendFrame(ExitWord(left, idle), DataAt(data, p, b, lsb), b, fault.at == left, fault.clocked);
      if !ok {
        if fault.clocked {
          PartialOver(chain, data, n, rest, lsb, idle, stop, d);
        } else {
          PartialOver(c, data, n, left, lsb, idle, stop, d);
        }
      }
    }

    /** The frame loop outside raw mode, up to the frame whose answer is lost. */
    method SendFrames(data: seq<Byte>, n: nat, lsb: bool, idle: bool, fault: Fault) returns (ok: bool)
      requires 0 < n <= 8 * |data|
      modifies `chain
      ensures ok <==> !FrameAt(n, fault.at)
      ensures chain == Partial(old(chain), data, n, n, lsb, idle, Stop(fault, n))
    {
      var p: int := if lsb then 0 else ByteCount(n) - 1;
      var left: nat := n;
      ghost var d := Partial(chain, data, n, n, lsb, idle, Stop(fault, n));
      while left > 0
        invariant left <= n && Boundary(n, left) && Due(fault, n, left) && (left > 0 ==> p == Pointer(n, left, lsb))
        invariant Stopped(chain, data, n, left, lsb, idle, Stop(fault, n)) == Some(d)
        decreases left
      {
        var b := FrameLength(left);
        var rest := left - b;
        RoundMoves(n, left, rest, b, lsb);
        var done := SendNext(data, n, left, rest, p, b, lsb, idle, fault, d);
        if !done { return false; }
        p := Advance(p, b, lsb);
        left := rest;
      }
      PartialOver(chain, data, n, 0, lsb, idle, Stop(fault, n), d);
      return true;
    }

    /** One frame in raw mode. `d` is the chain when the loop is over. */
    method SendRawNext(data: seq<Byte>, tmsData: seq<Byte>, n: nat, left: nat, rest: nat, p: int, b: nat, lsb: bool,
        fault: Fault, ghost d: Chain)
      returns (ok: bool)
      requires 0 < left <= n && b == FrameLength(left) && rest == left - b && p == Pointer(n, left, lsb) &&
               Due(fault, n, left)
      requires RawStopped(chain, data, tmsData, n, left, lsb, Stop(fault, n)) == Some(d)
      modifies `chain
      ensures ok == (fault.at != left)
      ensures if ok then Due(fault, n, rest) && RawStopped(chain, data, tmsData, n, rest, lsb, Stop(fault, n)) ==
              Some(d)
              else FrameAt(n, fault.at) && chain == d
    {
      ghost var c, stop := chain, Stop(fault, n);
      StillDue(fault, n, left, rest);
      RawRound(c, data, tmsData, n, left, rest, p, b, lsb, stop, d);
      ok := SendFrame(TmsAt(tmsData, p, b, lsb), DataAt(data, p, b, lsb), b, fault.at == left, fault.clocked);
      if !ok {
        if fault.clocked {
          RawOver(chain, data, tmsData, n, rest, lsb, stop, d);
        } else {
          RawOver(c, data, tmsData, n, left, lsb, stop, d);
        }
      }
    }

    /** The frame loop in raw mode, up to the frame whose answer is lost. */
    method SendRawFrames(data: seq<Byte>, tmsData: seq<Byte>, n: nat, lsb: bool, fault: Fault) returns (ok: bool)
      requires 0 < n <= 8 * |data| && n <= 8 * |tmsData|
      modifies `chain
      ensures ok <==> !FrameAt(n, fault.at)
      ensures chain == RawPartial(old(chain), data, tmsData, n, n, lsb, Stop(fault, n))
    {
      var p: int := if lsb then 0 else ByteCount(n) - 1;
      var left: nat := n;
      ghost var d := RawPartial(chain, data, tmsData, n, n, lsb, Stop(fault, n));
      while left > 0
        invariant left <= n && Boundary(n, left) && Due(fault, n, left) && (left > 0 ==> p == Pointer(n, left, lsb))
        invariant RawStopped(chain, data, tmsData, n, left, lsb, Stop(fault, n)) == Some(d)
        decreases left
      {
        var b := FrameLength(left);
        var rest := left - b;
        RoundMoves(n, left, rest, b, lsb);
        var done := SendRawNext(data, tmsData, n, left, rest, p, b, lsb, fault, d);
        if !done { return false; }
        p := Advance(p, b, lsb);
        left := rest;
      }
      RawOver(chain, data, tmsData, n, 0, lsb, Stop(fault, n), d);
      return true;
    }

    /** A write outside raw mode, checks passed: state change, transfer, new shadow state. */
    method WriteInState(data: seq<Byte>, n: nat, f: Flags, lost: bool, fault: Fault) returns (ok: bool)
      requires 0 < n <= 8 * |data| && !f.raw && f.state.Some? && Shiftable(f.state.value)
      modifies `state, `chain
      ensures ok == Answered(old(state), n, f, lost, fault)
      ensures state == ShadowAfter(old(state), n, f, lost, fault)
      ensures chain == ChainAfter(old(state), old(chain), data, n, f, lost, fault)
    {
      var target := f.state.value;
      ok := SetState(target, lost, fault.clocked);
      if ok {
        ok := SendFrames(data, n, f.lsb, target == Idle, fault);
        if ok && target != Idle { state := Exit; }
      }
    }

    /** A raw write with its TMS data at hand. A lost answer leaves the shadow state as it was. */
    method WriteRaw(data: seq<Byte>, n: nat, lsb: bool, fault: Fault) returns (ok: bool)
      requires 0 < n <= 8 * |data| && tms.Some? && n <= 8 * |tms.value|
      modifies this
      ensures ok <==> !FrameAt(n, fault.at)
      ensures chain == RawPartial(old(chain), data, old(tms).value, n, n, lsb, Stop(fault, n))
      ensures ok ==> state == Invalid && tms == None && tmsBits == 0 && RawSent(old(chain), chain, data, n, n, lsb)
      ensures !ok ==> state == old(state) && tms == old(tms) && tmsBits == old(tmsBits)
    {
      RawTransferSends(chain, data, tms.value, n, n, lsb, RawTransfer(chain, data, tms.value, n, n, lsb));
      ok := SendRawFrames(data, tms.value, n, lsb, fault);
      if ok {
        state := Invalid;
        tms, tmsBits := None, 0;
      }
    }

    /** A TMS buffer is valid for its number of bits. */
    predicate Valid()
      reads this
    {
      tms.Some? ==> tmsBits <= 8 * |tms.value|
    }

    /** A raw write, checks passed. */
    method WriteInRaw(data: seq<Byte>, n: nat, f: Flags, fault: Fault) returns (ok: bool)
      requires Valid() && 0 < n <= 8 * |data| && f.raw
      requires !f.writeTms && !f.zeros && !f.ones ==> tms.Some? && tmsBits == n
      modifies this
      ensures Valid() && ok == (StoresOnly(f) || !FrameAt(n, fault.at))
      ensures StoresOnly(f) ==>
              tms == Some(data[..ByteCount(n)]) && tmsBits == n && chain == old(chain) && state == old(state)
      ensures !StoresOnly(f) ==> RawWritten(old(state), old(tms), old(chain), data, n, f, fault, ok)
    {
      if f.writeTms {
        tms, tmsBits := Some(data[..ByteCount(n)]), n;
        if !f.zeros && !f.ones { return true; }
        ok := WriteRaw(Fill(ByteCount(n), !f.zeros), n, f.lsb, fault);
      } else {
        if f.zeros || f.ones { tms, tmsBits := Some(Fill(ByteCount(n), !f.zeros)), n; }
        ok := WriteRaw(data, n, f.lsb, fault);
      }
    }

    /** A raw write clocks the chain with its data and TMS data, up to the frame whose answer is lost. After a success
        the shadow state is "unknown" and the TMS data is used up; else both are kept. */
    ghost predicate RawWritten(s: State, t: Option<seq<Byte>>, c: Chain, data: seq<Byte>, n: nat, f: Flags,
        fault: Fault, ok: bool)
      requires 0 < n <= 8 * |data|
      reads this
    {
      var out, ctl := RawData(data, n, f), RawTms(t, data, n, f);
      && ctl.Some? && n <= 8 * |out| && n <= 8 * |ctl.value|
      && chain == RawPartial(c, out, ctl.value, n, n, f.lsb, Stop(fault, n))
      && if ok then state == Invalid && tms == None && tmsBits == 0 && RawSent(c, chain, out, n, n, f.lsb)
         else state == s && tms == ctl && tmsBits == n
    }

    /** `write`. `lost` and `fault` say which answers of the hardware do not come. */
    method Write(data: Option<seq<Byte>>, length: nat, f: Flags, lost: bool, fault: Fault) returns (r: Result)
      requires Valid() && (data.Some? ==> BitCount(length, f) <= 8 * |data.value|)
      modifies this
      ensures Valid()
      // A refused write says why and changes nothing.
      ensures var e := Refusal(old(tms), old(tmsBits), data, length, f);
              e.Some? ==>
                r == Failed(e.value) && state == old(state) && chain == old(chain) && tms == old(tms) &&
                tmsBits == old(tmsBits)
      // Any other write succeeds exactly if all its answers come.
      ensures Refusal(old(tms), old(tmsBits), data, length, f).None? ==>
                r == if Answered(old(state), BitCount(length, f), f, lost, fault)
                     then Written(if f.bits then length else ByteCount(BitCount(length, f))) else Failed(IoFailure)
      ensures Refusal(old(tms), old(tmsBits), data, length, f).None? && !f.raw ==>
                && tms == old(tms) && tmsBits == old(tmsBits)
                && state == ShadowAfter(old(state), BitCount(length, f), f, lost, fault)
                && chain == ChainAfter(old(state), old(chain), data.value, BitCount(length, f), f, lost, fault)
      // Where shadow state and chain agreed before, the data was sent, and they agree again unless misled.
      ensures Refusal(old(tms), old(tmsBits), data, length, f).None? && !f.raw && Agrees(old(state), old(chain).tap) ==>
                && (r.Written? ==> SentInState(old(state), old(chain), chain, data, BitCount(length, f), f))
                && (Agrees(state, chain.tap) <==>
                    r.Written? || !Misled(old(state), BitCount(length, f), f, lost, fault))
      ensures Refusal(old(tms), old(tmsBits), data, length, f).None? && StoresOnly(f) ==>
                tms == Some(data.value[..ByteCount(BitCount(length, f))]) && tmsBits == BitCount(length, f) &&
                chain == old(chain) && state == old(state)
      ensures Refusal(old(tms), old(tmsBits), data, length, f).None? && f.raw && !StoresOnly(f) ==>
                RawWritten(old(state), old(tms), old(chain), data.value, BitCount(length, f), f, fault, r.Written?)
    {
      var e := Check(data, length, f);
      if e.Some? { return Failed(e.value); }
      var n := BitCount(length, f);
      var ok: bool;
      if !f.raw {
        if !Shiftable(f.state.value) { return Failed(InvalidArgument); }
        if Agrees(state, chain.tap) {
          WriteAgrees(state, chain, data.value, n, f, lost, fault,
              ChainAfter(state, chain, data.value, n, f, lost, fault));
        }
        ok := WriteInState(data.value, n, f, lost, fault);
      } else {
        if !f.writeTms && !f.zeros && !f.ones && (tms.None? || tmsBits != n) { return Failed(LengthMismatch); }
        ok := WriteInRaw(data.value, n, f, fault);
      }
      return if ok then Written(if f.bits then n else ByteCount(n)) else Failed(IoFailure);
    }
  }

  /** The state change led to the requested state and the transfer sent the data from there. */
  ghost predicate SentInState(s: State, c0: Chain, c: Chain, data: Option<seq<Byte>>, n: nat, f: Flags) {
    && data.Some? && f.state.Some? && Shiftable(f.state.value)
    && var l := Lead(c0, s, f.state.value);
       Agrees(f.state.value, l.tap) && Sent(l, c, data.value, n, n, f.lsb, f.state.value == Idle)
  }
}
