/** What the register values of the CoaXPress frontend tell, and what its setters answer and touch. */
module CxpMeaning {
  import opened Bits
  import opened CxpModel
  import opened CxpCoherence
  import opened CxpRemap
  import opened CxpRuns

  // ---------------------------------------------------------------- register values

  /** Two bits per physical port: powered, unless switched off; in test mode, only if asked for. */
  lemma PowerTells(power: seq<Power>, p: nat)
    requires p < |power| <= 5
    ensures PowerWord(power)[2 * p] <==> power[p] != PowerOff
    ensures PowerWord(power)[2 * p + 1] <==> power[p] == PowerTest
    ensures forall k :: 2 * |power| <= k < 32 ==> !PowerWord(power)[k]
  {
    var w := PowerWord(power);
    assert w[2 * p] == PowerBits(power[p])[0] && w[2 * p + 1] == PowerBits(power[p])[1];
  }

  /** Three resets of the host: transmit buffer, receive path, monitor. */
  lemma HostResets(s: Path)
    ensures HostBits(s)[0] <==> s !in {SendingIdles, Monitoring, Active}
    ensures HostBits(s)[1] <==> s != Active
    ensures HostBits(s)[2] <==> s !in {Monitoring, Active}
  {
  }

  /** Two resets of the transceiver: monitor, transceiver. */
  lemma TransceiverResets(s: Path)
    ensures TransceiverBits(s)[0] <==> s !in {Monitoring, Active}
    ensures TransceiverBits(s)[1] <==> s == FullReset
  {
  }

  /** Host resets of a port stand at its logical number, transceiver resets at its physical one. */
  lemma ResetTells(path: seq<Path>, m: PortMap, p: nat, b: nat)
    requires p < |path| <= 5 && ValidMap(m, |path|)
    ensures b < 3 ==> ResetWord(path, m)[5 * Log(m, p) + b] == HostBits(path[p])[b]
    ensures b < 2 ==> ResetWord(path, m)[5 * p + 3 + b] == TransceiverBits(path[p])[b]
  {
    var l := Log(m, p);
    assert Phys(m, l) == p;
    if b < 3 { Place(l, b); }
    if b < 2 { Place(p, 3 + b); }
  }

  lemma Place(q: nat, b: nat)
    requires b < 5
    ensures (5 * q + b) / 5 == q && (5 * q + b) % 5 == b
  {
  }

  lemma ResetClear(path: seq<Path>, m: PortMap, k: nat)
    requires |path| <= 5 && 5 * |path| <= k < 32
    ensures !ResetWord(path, m)[k]
  {
  }

  /** The bits of one port. */
  predicate OfPort(m: PortMap, p: nat, k: nat) { if k % 5 < 3 then k / 5 == Log(m, p) else k / 5 == p }

  /** A change of one data path touches no other port's bits. */
  lemma PathTouches(path: seq<Path>, m: PortMap, p: nat, s: Path, k: nat)
    requires p < |path| <= 5 && ValidMap(m, |path|) && k < 32 && !OfPort(m, p, k)
    ensures ResetWord(path[p := s], m)[k] == ResetWord(path, m)[k]
  {
    if k / 5 < |path| { assert Log(m, Phys(m, k / 5)) == k / 5; }
  }

  /** Two ports, swapped; physical port 0 active, port 1 in full reset: host resets of port 1 at the lowest bits,
      transceiver resets of port 1 in its own group. */
  lemma SwappedExample(m: PortMap, k: nat)
    requires m == PortMap([1, 0, 2, 3, 4, 5, 6, 7], [1, 0, 2, 3, 4, 5, 6, 7]) && k < 32
    ensures ResetWord([Active, FullReset], m)[k] <==> k in {0, 1, 2, 8, 9}
  {
    SwappedValid(m);
    SwappedBits([Active, FullReset], m, k);
  }

  lemma SwappedValid(m: PortMap)
    requires m == PortMap([1, 0, 2, 3, 4, 5, 6, 7], [1, 0, 2, 3, 4, 5, 6, 7])
    ensures ValidMap(m, 2) && Log(m, 0) == 1 && Log(m, 1) == 0
  {
  }

  lemma SwappedBits(path: seq<Path>, m: PortMap, k: nat)
    requires ValidMap(m, 2) && Log(m, 0) == 1 && Log(m, 1) == 0 && k < 32
    requires |path| == 2 && path[0] == Active && path[1] == FullReset
    ensures ResetWord(path, m)[k] <==> k in {0, 1, 2, 8, 9}
  {
    if k < 3 {
      ResetTells(path, m, 1, k);
    } else if k < 5 {
      ResetTells(path, m, 0, k - 3);
    } else if k < 8 {
      ResetTells(path, m, 0, k - 5);
    } else if k < 10 {
      ResetTells(path, m, 1, k - 8);
    } else {
      ResetClear(path, m, k);
    }
  }

  /** Three bits per logical port: fast uplink, and the standard version counted from 1.0. */
  lemma StandardTells(up: seq<UpSpeed>, standard: seq<Standard>, l: nat)
    requires l < |up| == |standard| <= 5 && standard[l] != StandardUnknown
    ensures var w := StandardWord(up, standard);
            && (w[3 * l] <==> up[l] == UpHigh)
            && ToNat(w[3 * l + 1..3 * l + 3]) == match standard[l] case Cxp10 => 0 case Cxp20 => 2 case _ => 1
    ensures forall k :: 3 * |up| <= k < 32 ==> !StandardWord(up, standard)[k]
  {
    var w := StandardWord(up, standard);
    var b := StandardBits(up[l], standard[l]);
    Third(l, 0); Third(l, 1); Third(l, 2);
    assert w[3 * l] == b[0] && w[3 * l + 1] == b[1] && w[3 * l + 2] == b[2];
    assert w[3 * l + 1..3 * l + 3] == [b[1], b[2]];
    TwoDigits(b[1], b[2]);
  }

  lemma TwoDigits(x: bool, y: bool)
    ensures ToNat([x, y]) == (if x then 1 else 0) + if y then 2 else 0
  {
    assert [x, y][1..] == [y] && [y][1..] == [];
    assert ToNat([y]) == if y then 1 else 0;
  }

  lemma Third(q: nat, b: nat)
    requires b < 3
    ensures (3 * q + b) / 3 == q && (3 * q + b) % 3 == b
  {
  }

  /** One bit per logical port: acquiring. */
  lemma AcquisitionTells(acquisition: seq<Acquisition>, l: nat)
    requires l < 32 && |acquisition| <= 5
    ensures AcquisitionWord(acquisition)[l] <==> l < |acquisition| && acquisition[l] == AcquisitionStarted
  {
  }

  /** Nominal speed in Mbit per second. */
  function Nominal(s: Speed): nat {
    match s
    case SpeedUnknown => 0
    case S1000 => 1000
    case S1250 => 1250
    case S2500 => 2500
    case S3125 => 3125
    case S5000 => 5000
    case S6250 => 6250
    case S10000 => 10000
    case S12500 => 12500
  }

  /** The seven speeds that can be set are numbered from 0 to 6 by speed. The uplink is fast from 10 Gbit on. */
  lemma BitrateTells(s: Speed, t: Speed)
    requires Settable(s) && Settable(t)
    ensures Bitrate(s) <= 6 && (Bitrate(s) < Bitrate(t) <==> Nominal(s) < Nominal(t))
    ensures UpOf(s) == if Nominal(s) >= 10000 then UpHigh else UpLow
  {
  }

  /** The register holds the number of the speed. */
  lemma BitrateReads(s: Speed)
    ensures ToNat(BitrateWord(s)) == Bitrate(s)
  {
    assert Pow2(3) == 8;
    Grows(3, 32);
    ToFrom(Bitrate(s), 32);
  }

  lemma {:induction false} Grows(a: nat, b: nat)
    requires a <= b
    ensures Pow2(a) <= Pow2(b)
  {
    if a < b { Grows(a, b - 1); }
  }

  // ---------------------------------------------------------------- setters

  /** Arguments that a setter refuses. */
  predicate Refused(a: Call) {
    match a
    case Power(_, s) => s == PowerUnknown
    case Path(_, s) => s == PathUnknown
    case Speed(_, s, _, _) => s == SpeedUnknown || s == S1000
    case Standard(_, s) => s == StandardUnknown
    case Acquisition(_, s) => s == AcquisitionUnknown
    case Links(_, k) => k < 1 || k > 4
  }

  /** The speed change has to wait for the port and does not get its answer: the first time, for any change, or the
      second time, for a change of the downlink. */
  predicate Waited(c: Cxp, a: Call)
    requires Mapped(c)
  {
    && a.Speed? && a.port < c.n
    && var down, up := a.speed != c.ports.speed[a.port], UpOf(a.speed) != UplinkOf(c, a.port);
       ((down || up) && !a.ready1) || (down && a.ready1 && !a.ready2)
  }

  /** What a setter answers; a refused call changes nothing. */
  lemma SetAnswers(c: Cxp, a: Call)
    requires Mapped(c) && c.n <= 5
    ensures var (d, status) := Set(c, a);
            && status == (if a.port >= c.n then InvalidPort
                          else if Refused(a) then InvalidParameter
                          else if Waited(c, a) then TimedOut
                          else Ok)
            && (status in {InvalidPort, InvalidParameter} ==> d == c)
  {
  }

  /** Switching the power of one port leaves all others, and all cameras, alone. */
  lemma PowerFrame(c: Cxp, p: nat, s: Power)
    requires Mapped(c) && c.n <= 5
    ensures var d := SetPower(c, p, s).0;
            && |d.ports.power| == c.n
            && (forall q :: 0 <= q < c.n ==>
                  d.ports.power[q] == if q == p && s != PowerUnknown then s else c.ports.power[q])
            && d.ports == c.ports.(power := d.ports.power)
            && forall r :: r != POWER_CTRL ==>
                 (r in d.regs <==> r in c.regs) && (r in c.regs ==> d.regs[r] == c.regs[r])
  {
  }

  // ---------------------------------------------------------------- multiplexer and defaults

  /** An accepted change to another map programs the multiplexer with the number of that map. */
  lemma SwitchWritten(c: Cxp, m: PortMap, ready: seq<bool>)
    requires WellFormed(c) && |ready| == c.n && (CurMap(c) == INVALID_MAP || Mapped(c))
    requires SetPortMap(c, m, ready).1 == Ok && m != CurMap(c)
    ensures var d := SetPortMap(c, m, ready).0;
            && CurMap(d) == m && d.maps == c.maps && (forall i :: 0 <= i < d.index ==> c.maps[i] != m)
            && DISCOVERY_CONFIG in d.regs && d.regs[DISCOVERY_CONFIG] == FromNat(d.index, 32)
            && (CurMap(c) == INVALID_MAP ==> d.ports == c.ports)
  {
    FindMapFirst(c.maps, m, 0);
    FindMapFinds(c.maps, m, 0);
    if CurMap(c) != INVALID_MAP {
      var i := RemapIsLoop(c, m, ready);
      LoopConfig(Switched(c, i), FromNat(i, 32), SaveEach(c, CurMap(c)), CurMap(c), ready, SetPortMap(c, m, ready).0);
    }
  }

  lemma LoopConfig(c1: Cxp, w: Bits, saved: seq<Saved>, m0: PortMap, ready: seq<bool>, d: Cxp)
    requires Mapped(c1) && c1.n <= 5 && c1.n == |saved| == |ready| && d == RestoreUpTo(c1, saved, m0, ready, c1.n)
    requires DISCOVERY_CONFIG in c1.regs && c1.regs[DISCOVERY_CONFIG] == w
    ensures SameMap(c1, d) && DISCOVERY_CONFIG in d.regs && d.regs[DISCOVERY_CONFIG] == w
  {
    RestoreKeepsConfig(c1, saved, m0, ready, c1.n);
  }

  lemma {:induction false} FindMapFirst(maps: seq<PortMap>, m: PortMap, i: nat)
    requires i < |maps| && maps[|maps| - 1] == INVALID_MAP
    ensures forall j :: i <= j < FindMap(maps, m, i) ==> maps[j] != m
    decreases |maps| - i
  {
    if maps[i] != m && maps[i] != INVALID_MAP { FindMapFirst(maps, m, i + 1); }
  }

  /** The register that no setter writes. */
  ghost predicate SameConfig(c: Cxp, d: Cxp) {
    (DISCOVERY_CONFIG in d.regs <==> DISCOVERY_CONFIG in c.regs) &&
    (DISCOVERY_CONFIG in c.regs ==> d.regs[DISCOVERY_CONFIG] == c.regs[DISCOVERY_CONFIG])
  }

  lemma SetKeepsConfig(c: Cxp, a: Call)
    requires Mapped(c) && c.n <= 5
    ensures SameConfig(c, Set(c, a).0)
  {
  }

  lemma {:induction false} CallsKeepConfig(c: Cxp, calls: seq<Call>, k: nat)
    requires Mapped(c) && c.n <= 5 && k <= |calls|
    ensures SameConfig(c, SetUpTo(c, calls, k))
  {
    if k > 0 {
      CallsKeepConfig(c, calls, k - 1);
      SetKeepsConfig(SetUpTo(c, calls, k - 1), calls[k - 1]);
    }
  }

  lemma {:induction false} RestoreKeepsConfig(c: Cxp, saved: seq<Saved>, m0: PortMap, ready: seq<bool>, k: nat)
    requires Mapped(c) && c.n <= 5 && k <= c.n == |saved| == |ready|
    ensures SameConfig(c, RestoreUpTo(c, saved, m0, ready, k))
  {
    if k > 0 {
      RestoreKeepsConfig(c, saved, m0, ready, k - 1);
      CallsKeepConfig(RestoreUpTo(c, saved, m0, ready, k - 1), RestoreCalls(k - 1, saved[k - 1], ready[k - 1]), 5);
    }
  }

  /** A reset selects the identity map, whatever map was selected before. */
  lemma ResetMap(c: Cxp, mapReady: seq<bool>, ready: seq<bool>)
    requires WellFormed(c) && |mapReady| == |ready| == c.n && Offered(c, IDENTITY_MAP)
    requires CurMap(c) == INVALID_MAP || Mapped(c)
    ensures Mapped(SetPortMap(c, IDENTITY_MAP, mapReady).0)
    ensures CurMap(Reset(c, mapReady, ready)) == IDENTITY_MAP
  {
    MapAccepted(c, IDENTITY_MAP, mapReady);
    if CurMap(c) != IDENTITY_MAP { SwitchWritten(c, IDENTITY_MAP, mapReady); }
  }

  /** After a reset: data path inactive, 3.125 Gbit down and the slow uplink, standard 1.1, not acquiring, one link. */
  lemma DefaultsAre(c: Cxp, ready: seq<bool>, q: nat)
    requires Mapped(c) && c.n <= 5 && c.n == |ready| && q < c.n && UplinksMatch(c) && LinksInRange(c)
    ensures var d := ResetPorts(c, ready, c.n);
            && Camera(d, q).path == Inactive && Camera(d, q).standard == Cxp11
            && Camera(d, q).acquisition == AcquisitionStopped
            && (ready[q] ==> Camera(d, q).speed == S3125 && UplinkOf(d, q) == UpLow)
            && (c.n > 1 ==> Camera(d, q).links == 1)
  {
    ResetSets(c, ready, q);
    ResetPortsUplinks(c, ready);
  }
}
