/** The CoaXPress frontend as the driver writes it: fields updated in place, and a loop over the ports
    for every combined register. Each method is proved against its function in CxpModel. */
module CxpFrontend {
  import opened Bits
  import opened CxpModel
  import opened CxpRemap

  // ---------------------------------------------------------------- combined registers

  lemma PowerStep(power: seq<Power>, port: nat)
    requires port < |power| <= 5
    ensures Or(PowerWord(power[..port]), Shl(Low(PowerBits(power[port])), 2 * port)) == PowerWord(power[..port + 1])
  {
    var a, b := Or(PowerWord(power[..port]), Shl(Low(PowerBits(power[port])), 2 * port)), PowerWord(power[..port + 1]);
    forall k | 0 <= k < 32 ensures a[k] == b[k] {
      if 2 * port <= k < 2 * port + 2 { assert k / 2 == port && k % 2 == k - 2 * port; }
    }
  }

  method PowerValue(power: seq<Power>) returns (w: Bits)
    requires |power| <= 5
    ensures w == PowerWord(power)
  {
    w := Zeros(32);
    assert w == PowerWord(power[..0]);
    for port := 0 to |power|
      invariant w == PowerWord(power[..port])
    {
      PowerStep(power, port);
      w := Or(w, Shl(Low(PowerBits(power[port])), 2 * port));
    }
    assert power[..|power|] == power;
  }

  /** The reset register after the loop has passed the physical ports below `port`: host bits go to the
      logical number of a port, transceiver bits to its physical number. */
  function ResetPart(path: seq<Path>, m: PortMap, port: nat): (r: Bits)
    requires ValidMap(m, |path|)
    ensures |r| == 32
  {
    seq(32, k requires 0 <= k < 32 =>
      k / 5 < |path| &&
      if k % 5 < 3 then Phys(m, k / 5) < port && HostBits(path[Phys(m, k / 5)])[k % 5]
      else k / 5 < port && TransceiverBits(path[k / 5])[k % 5 - 3])
  }

  /** The two shifted groups of one physical port. */
  function ResetBits(path: Path, l: nat, port: nat): (r: Bits)
    ensures |r| == 32
  {
    Or(Shl(Low(HostBits(path)), 5 * l), Shl(Low([false, false, false] + TransceiverBits(path)), 5 * port))
  }

  lemma ResetBitsAt(path: Path, l: nat, port: nat, k: nat)
    requires k < 32
    ensures ResetBits(path, l, port)[k] ==
            if k % 5 < 3 then k / 5 == l && HostBits(path)[k % 5] else k / 5 == port && TransceiverBits(path)[k % 5 - 3]
  {
    GroupAt(k, l);
    GroupAt(k, port);
  }

  lemma GroupAt(k: nat, p: nat)
    ensures 5 * p <= k < 5 * p + 5 <==> k / 5 == p
    ensures k / 5 == p ==> k % 5 == k - 5 * p
  {
  }

  lemma ResetStep(path: seq<Path>, m: PortMap, port: nat)
    requires ValidMap(m, |path|) && port < |path|
    ensures Or(ResetPart(path, m, port), ResetBits(path[port], Log(m, port), port)) == ResetPart(path, m, port + 1)
  {
    var l := Log(m, port);
    var a, b := Or(ResetPart(path, m, port), ResetBits(path[port], l, port)), ResetPart(path, m, port + 1);
    forall k | 0 <= k < 32 ensures a[k] == b[k] {
      ResetBitsAt(path[port], l, port, k);
      assert Phys(m, l) == port;
      if k / 5 < |path| { assert Log(m, Phys(m, k / 5)) == k / 5; }
    }
  }

  method ResetValue(path: seq<Path>, m: PortMap) returns (w: Bits)
    requires ValidMap(m, |path|)
    ensures w == ResetWord(path, m)
  {
    w := Zeros(32);
    assert w == ResetPart(path, m, 0);
    for port := 0 to |path|
      invariant w == ResetPart(path, m, port)
    {
      ResetStep(path, m, port);
      w := Or(w, ResetBits(path[port], Log(m, port), port));
    }
    assert ResetPart(path, m, |path|) == ResetWord(path, m) by {
      forall k | 0 <= k < 32 ensures ResetPart(path, m, |path|)[k] == ResetWord(path, m)[k] {
        if k / 5 < |path| { assert Phys(m, k / 5) < |path|; }
      }
    }
  }

  lemma StandardStep(up: seq<UpSpeed>, standard: seq<Standard>, l: nat)
    requires l < |up| == |standard| <= 5
    ensures Or(StandardWord(up[..l], standard[..l]), Shl(Low(StandardBits(up[l], standard[l])), 3 * l))
         == StandardWord(up[..l + 1], standard[..l + 1])
  {
    var a := Or(StandardWord(up[..l], standard[..l]), Shl(Low(StandardBits(up[l], standard[l])), 3 * l));
    var b := StandardWord(up[..l + 1], standard[..l + 1]);
    forall k | 0 <= k < 32 ensures a[k] == b[k] {
      if 3 * l <= k < 3 * l + 3 { assert k / 3 == l && k % 3 == k - 3 * l; }
    }
  }

  method StandardValue(up: seq<UpSpeed>, standard: seq<Standard>) returns (w: Bits)
    requires |up| == |standard| <= 5
    ensures w == StandardWord(up, standard)
  {
    w := Zeros(32);
    assert w == StandardWord(up[..0], standard[..0]);
    for l := 0 to |up|
      invariant w == StandardWord(up[..l], standard[..l])
    {
      StandardStep(up, standard, l);
      w := Or(w, Shl(Low(StandardBits(up[l], standard[l])), 3 * l));
    }
    assert up[..|up|] == up && standard[..|up|] == standard;
  }

  lemma AcquisitionStep(acquisition: seq<Acquisition>, l: nat)
    requires l < |acquisition| <= 5
    ensures Or(AcquisitionWord(acquisition[..l]), Shl(Low([acquisition[l] == AcquisitionStarted]), l)) ==
            AcquisitionWord(acquisition[..l + 1])
  {
    var a := Or(AcquisitionWord(acquisition[..l]), Shl(Low([acquisition[l] == AcquisitionStarted]), l));
    var b := AcquisitionWord(acquisition[..l + 1]);
    forall k | 0 <= k < 32 ensures a[k] == b[k] {
    }
  }

  method AcquisitionValue(acquisition: seq<Acquisition>) returns (w: Bits)
    requires |acquisition| <= 5
    ensures w == AcquisitionWord(acquisition)
  {
    w := Zeros(32);
    assert w == AcquisitionWord(acquisition[..0]);
    for l := 0 to |acquisition|
      invariant w == AcquisitionWord(acquisition[..l])
    {
      AcquisitionStep(acquisition, l);
      w := Or(w, Shl(Low([acquisition[l] == AcquisitionStarted]), l));
    }
    assert acquisition[..|acquisition|] == acquisition;
  }

  /** `SET_BITS_8` for port number `port`. On the fifth port one of the two shifts that make the mask has a negative
      count; `undefined` is whatever it yields. */
  function SetPortBits(w: Bits, val: Bits, port: nat, undefined: Bits): (r: Bits)
    requires |w| == |val| == |undefined| == 8
    ensures |r| == 8
  {
    var to := 2 * port + 1;
    var mask := And(if to < 8 then Shr(Ones(8), 8 - (to + 1)) else undefined, Shl(Ones(8), 2 * port));
    Or(And(w, Not(mask)), And(Shl(val, 2 * port), mask))
  }

  /** Whatever the undefined shift yields, the fifth port changes nothing: its other shift leaves no bit in the mask. */
  lemma FifthMask(w: Bits, val: Bits, undefined: Bits)
    requires |w| == |val| == |undefined| == 8
    ensures SetPortBits(w, val, 4, undefined) == w
  {
    var r := SetPortBits(w, val, 4, undefined);
    forall i | 0 <= i < 8 ensures r[i] == w[i] {
    }
  }

  lemma PortBits(w: Bits, val: Bits, port: nat, undefined: Bits)
    requires |w| == |val| == |undefined| == 8 && port < 4
    ensures SetPortBits(w, val, port, undefined) == SetBits(w, val, 2 * port, 2 * port + 1)
  {
  }

  function LinksValue(k: nat): (r: Bits) ensures |r| == 8 { FromNat(if k == 0 then 255 else k - 1, 8) }

  /** The 8-bit variable of the downscaling loop, seen as part of the 32-bit register value. */
  lemma DownscaleStep(links: seq<nat>, port: nat, w: Bits, undefined: Bits)
    requires port < |links| <= 5 && |w| == |undefined| == 8 && Low(w) == DownscaleWord(links[..port])
    ensures Low(SetPortBits(w, LinksValue(links[port]), port, undefined)) == DownscaleWord(links[..port + 1])
  {
    if port == 4 {
      FifthMask(w, LinksValue(links[port]), undefined);
      FifthLost(links[..5]);
      assert links[..5][..4] == links[..4];
    } else {
      PortBits(w, LinksValue(links[port]), port, undefined);
      DownscaleBits(links, port, w);
    }
  }

  lemma DownscaleBits(links: seq<nat>, port: nat, w: Bits)
    requires port < |links| <= 5 && port < 4 && |w| == 8 && Low(w) == DownscaleWord(links[..port])
    ensures Low(SetBits(w, LinksValue(links[port]), 2 * port, 2 * port + 1)) == DownscaleWord(links[..port + 1])
  {
    var a := Low(SetBits(w, LinksValue(links[port]), 2 * port, 2 * port + 1));
    var b := DownscaleWord(links[..port + 1]);
    forall k | 0 <= k < 32 ensures a[k] == b[k] {
      assert Low(w)[k] == DownscaleWord(links[..port])[k];
      if 2 * port <= k < 2 * port + 2 { assert k / 2 == port && k % 2 == k - 2 * port; }
    }
  }

  /** The register has no bits for a fifth port. */
  lemma FifthLost(links: seq<nat>)
    requires |links| == 5
    ensures DownscaleWord(links) == DownscaleWord(links[..4])
  {
  }

  lemma LinksDecided(a: nat, b: nat)
    requires 1 <= a <= 4 && 1 <= b <= 4 && LinksBits(a) == LinksBits(b)
    ensures a == b
  {
    TwoBits(a - 1);
    TwoBits(b - 1);
  }

  lemma TwoBits(k: nat)
    requires k < 4
    ensures FromNat(k, 8)[0] == (k % 2 == 1) && FromNat(k, 8)[1] == (k / 2 == 1)
  {
    assert FromNat(k, 8)[1] == FromNat(k / 2, 7)[0];
  }

  /** The register value tells the numbers of links of the first four logical ports, and nothing about a fifth. */
  lemma DownscaleTells(a: seq<nat>, b: seq<nat>)
    requires |a| == |b| <= 5 && forall l :: 0 <= l < |a| ==> 1 <= a[l] <= 4 && 1 <= b[l] <= 4
    ensures DownscaleWord(a) == DownscaleWord(b) <==> forall l :: 0 <= l < |a| && l < 4 ==> a[l] == b[l]
  {
    if DownscaleWord(a) == DownscaleWord(b) {
      forall l | 0 <= l < |a| && l < 4 ensures a[l] == b[l] {
        PortOf(a, l);
        PortOf(b, l);
        LinksDecided(a[l], b[l]);
      }
    }
  }

  lemma PortOf(links: seq<nat>, l: nat)
    requires l < |links| && l < 4
    ensures DownscaleWord(links)[2 * l..2 * l + 2] == LinksBits(links[l])
  {
    var w := DownscaleWord(links);
    assert w[2 * l] == LinksBits(links[l])[0] && w[2 * l + 1] == LinksBits(links[l])[1];
  }

  method DownscaleValue(links: seq<nat>, undefined: Bits) returns (w: Bits)
    requires |links| <= 5 && |undefined| == 8
    ensures |w| == 8 && Low(w) == DownscaleWord(links)
  {
    w := Zeros(8);
    assert Low(w) == DownscaleWord(links[..0]);
    for port := 0 to |links|
      invariant |w| == 8 && Low(w) == DownscaleWord(links[..port])
    {
      DownscaleStep(links, port, w, undefined);
      w := SetPortBits(w, LinksValue(links[port]), port, undefined);
    }
    assert links[..|links|] == links;
  }

  // ---------------------------------------------------------------- the object

  class Frontend {
    const n: nat
    const maps: seq<PortMap>
    var index: nat
    var power: seq<Power>
    var path: seq<Path>
    var pathLogical: seq<Path>
    var speed: seq<Speed>
    var up: seq<UpSpeed>
    var standard: seq<Standard>
    var acquisition: seq<Acquisition>
    var links: seq<nat>
    var regs: map<int, Bits>
    /** What a shift by a negative count yields. */
    const undefined: Byte

    ghost function View(): Cxp
      reads this
    {
      Cxp(n, maps, index, Caches(power, path, pathLogical, speed, up, standard, acquisition, links), regs)
    }

    constructor (n: nat, maps: seq<PortMap>, undefined: Byte)
      requires |maps| > 0
      ensures View() == Fresh(n, maps)
    {
      this.n, this.maps, this.undefined, index := n, maps, undefined, |maps| - 1;
      power, path, pathLogical := seq(n, _ => PowerUnknown), seq(n, _ => PathUnknown), seq(n, _ => PathUnknown);
      speed, up, standard := seq(n, _ => SpeedUnknown), seq(n, _ => UpUnknown), seq(n, _ => StandardUnknown);
      acquisition, links := seq(n, _ => AcquisitionUnknown), seq(n, _ => 1);
      regs := map[];
    }

    method SetPortPower(p: nat, s: Power) returns (st: Status)
      requires Sized(View().ports, n) && n <= 5
      modifies `power, `regs
      ensures (View(), st) == SetPower(old(View()), p, s)
    {
      if p >= n { return InvalidPort; }
      if s == PowerUnknown { return InvalidParameter; }
      if s != power[p] {
        power := power[p := s];
        var w := PowerValue(power);
        regs := regs[POWER_CTRL := w];
      }
      return Ok;
    }

    method SetPortPath(p: nat, s: Path) returns (st: Status)
      requires Mapped(View())
      modifies `path, `pathLogical, `regs
      ensures (View(), st) == SetPath(old(View()), p, s)
    {
      if p >= n { return InvalidPort; }
      if s == PathUnknown { return InvalidParameter; }
      var l := Log(maps[index], p);
      if s != path[p] || s != pathLogical[l] {
        path := path[p := s];
        pathLogical := pathLogical[l := s];
        var w := ResetValue(path, maps[index]);
        regs := regs[RESET_CTRL := w];
      }
      return Ok;
    }

    /** `cxp_update_standard_ctrl_register`. */
    method UpdateStandard()
      requires |up| == |standard| <= 5
      modifies `regs
      ensures regs == old(regs)[STANDARD_CTRL := StandardWord(up, standard)]
    {
      var w := StandardValue(up, standard);
      regs := regs[STANDARD_CTRL := w];
    }

    /** The registers of a speed change, between the two waits. */
    method ChangeSpeed(p: nat, l: nat, s: Speed)
      requires p < |speed| && l < |up| == |standard| <= 5
      modifies `speed, `up, `regs
      ensures View() == var d := if s == old(speed)[p] then old(View()) else Downlink(old(View()), p, s);
                        if UpOf(s) == old(up)[l] then d else Uplink(d, l, UpOf(s))
    {
      if s != speed[p] {
        speed := speed[p := s];
        regs := regs[DownlinkReg(p) := BitrateWord(s)];
      }
      var u := if s == S10000 || s == S12500 then UpHigh else UpLow;
      if u != up[l] {
        up := up[l := u];
        UpdateStandard();
      }
    }

    /** `ready1`, `ready2`: outcomes of the two waits. */
    method SetPortSpeed(p: nat, s: Speed, ready1: bool, ready2: bool) returns (st: Status)
      requires Mapped(View()) && n <= 5
      modifies `speed, `up, `regs
      ensures (View(), st) == SetSpeed(old(View()), p, s, ready1, ready2)
    {
      if p >= n { return InvalidPort; }
      if s == SpeedUnknown || s == S1000 { return InvalidParameter; }
      var l := Log(maps[index], p);
      st := Ok;
      if s != speed[p] || UpOf(s) != up[l] {
        if !ready1 { return TimedOut; }
        st := if s == speed[p] || ready2 then Ok else TimedOut;
        ChangeSpeed(p, l, s);
      }
    }

    method SetPortStandard(p: nat, s: Standard) returns (st: Status)
      requires Mapped(View()) && n <= 5
      modifies `standard, `regs
      ensures (View(), st) == SetStandard(old(View()), p, s)
    {
      if p >= n { return InvalidPort; }
      if s == StandardUnknown { return InvalidParameter; }
      var l := Log(maps[index], p);
      if s != standard[l] {
        standard := standard[l := s];
        UpdateStandard();
      }
      return Ok;
    }

    method SetPortAcquisition(p: nat, s: Acquisition) returns (st: Status)
      requires Mapped(View()) && n <= 5
      modifies `acquisition, `regs
      ensures (View(), st) == SetAcquisition(old(View()), p, s)
    {
      if p >= n { return InvalidPort; }
      if s == AcquisitionUnknown { return InvalidParameter; }
      var l := Log(maps[index], p);
      if s != acquisition[l] {
        acquisition := acquisition[l := s];
        var w := AcquisitionValue(acquisition);
        regs := regs[ACQUISITION_CTRL := w];
      }
      return Ok;
    }

    method SetPortLinks(p: nat, k: nat) returns (st: Status)
      requires Mapped(View()) && n <= 5
      modifies `links, `regs
      ensures (View(), st) == SetLinks(old(View()), p, k)
    {
      if p >= n { return InvalidPort; }
      if k > 4 { return InvalidParameter; }
      if k == 0 { return InvalidParameter; }
      if n == 1 { return Ok; }
      var l := Log(maps[index], p);
      if k != links[l] {
        links := links[l := k];
        var w := DownscaleValue(links, undefined);
        regs := regs[DOWNSCALE_CTRL := Low(w)];
      }
      return Ok;
    }

    /** The five calls for one port, statuses ignored. */
    method RestorePort(p: nat, v: Saved, ready: bool)
      requires Mapped(View()) && n <= 5
      modifies `path, `pathLogical, `speed, `up, `standard, `acquisition, `links, `regs
      ensures View() == Restore(old(View()), p, v, ready)
    {
      ghost var c := View();
      RestoreSteps(c, p, v, ready);
      var s1 := SetPortPath(p, v.path);
      var s2 := SetPortSpeed(p, v.speed, ready, true);
      var s3 := SetPortStandard(p, v.standard);
      var s4 := SetPortAcquisition(p, v.acquisition);
      var s5 := SetPortLinks(p, v.links);
    }

    /** Search of the table. */
    method LookUp(m: PortMap) returns (i: nat)
      requires |maps| > 0 && maps[|maps| - 1] == INVALID_MAP
      ensures i == FindMap(maps, m, 0)
    {
      i := 0;
      while maps[i] != m && maps[i] != INVALID_MAP
        invariant i < |maps| && FindMap(maps, m, i) == FindMap(maps, m, 0)
        decreases |maps| - i
      {
        i := i + 1;
      }
    }

    /** The two saving loops: one over physical ports, one over logical ports that files each value
        under the physical port it belongs to. */
    method SaveAll(m: PortMap) returns (saved: seq<Saved>)
      requires Sized(View().ports, n) && ValidMap(m, n)
      ensures saved == SaveEach(View(), m)
    {
      var paths, speeds := [], [];
      for p := 0 to n
        invariant paths == path[..p] && speeds == speed[..p]
      {
        paths := paths + [path[p]];
        speeds := speeds + [speed[p]];
      }
      var standards, acquisitions, counts := seq(n, _ => StandardUnknown), seq(n, _ => AcquisitionUnknown),
          seq(n, _ => 0);
      for l := 0 to n
        invariant |standards| == |acquisitions| == |counts| == n
        invariant forall k :: 0 <= k < l ==> var p := Phys(m, k);
                    standards[p] == standard[k] && acquisitions[p] == acquisition[k] && counts[p] == links[k]
      {
        var p := Phys(m, l);
        assert forall k :: 0 <= k < l ==> Log(m, Phys(m, k)) == k && Phys(m, k) != p by {
          forall k | 0 <= k < l ensures Log(m, Phys(m, k)) == k && Phys(m, k) != p { assert Log(m, p) == l; }
        }
        standards := standards[p := standard[l]];
        acquisitions := acquisitions[p := acquisition[l]];
        counts := counts[p := links[l]];
      }
      saved := seq(n, p requires 0 <= p < n && |paths| == |speeds| == |standards| == |acquisitions| == |counts| == n =>
        Saved(paths[p], speeds[p], standards[p], acquisitions[p], counts[p]));
      forall p: nat | p < n ensures saved[p] == Save(View(), m, p) {
        assert Phys(m, Log(m, p)) == p;
      }
    }

    /** Reprogramming the multiplexer. */
    method Switch(i: nat)
      modifies `index, `regs
      ensures View() == old(View()).(index := i, regs := old(regs)[DISCOVERY_CONFIG := FromNat(i, 32)])
    {
      index := i;
      regs := regs[DISCOVERY_CONFIG := FromNat(i, 32)];
    }

    /** `cxp_set_port_map`. */
    method ChangeMap(m: PortMap, ready: seq<bool>) returns (st: Status)
      requires WellFormed(View()) && |ready| == n
      modifies this
      ensures (View(), st) == SetPortMap(old(View()), m, ready)
    {
      var oldMap := maps[index];
      if m == oldMap { return Ok; }
      var i := LookUp(m);
      if maps[i] == INVALID_MAP { return InvalidParameter; }
      if oldMap == INVALID_MAP {
        Switch(i);
      } else {
        SwitchAndRestore(i, oldMap, ready);
      }
      return Ok;
    }

    /** The change between two real maps. */
    method SwitchAndRestore(i: nat, oldMap: PortMap, ready: seq<bool>)
      requires Sized(View().ports, n) && n <= 5 && |ready| == n && ValidMap(oldMap, n) && i < |maps| &&
               ValidMap(maps[i], n)
      modifies this
      ensures View() == RestoreUpTo(old(View()).(index := i, regs := old(regs)[DISCOVERY_CONFIG := FromNat(i, 32)]),
                                    SaveEach(old(View()), oldMap), oldMap, ready, n)
    {
      var saved := SaveAll(oldMap);
      Switch(i);
      RestoreAll(oldMap, saved, ready);
    }

    /** The restoring loop. */
    method RestoreAll(oldMap: PortMap, saved: seq<Saved>, ready: seq<bool>)
      requires Mapped(View()) && n <= 5 && n == |saved| == |ready|
      modifies `path, `pathLogical, `speed, `up, `standard, `acquisition, `links, `regs
      ensures View() == RestoreUpTo(old(View()), saved, oldMap, ready, n)
    {
      for p := 0 to n
        invariant View() == RestoreUpTo(old(View()), saved, oldMap, ready, p)
      {
        if Log(oldMap, p) != Log(maps[index], p) {
          RestorePort(p, saved[p], ready[p]);
        }
      }
    }

    /** `cxp_reset_port` for every port. */
    method ResetEach(ready: seq<bool>)
      requires Mapped(View()) && n <= 5 && |ready| == n
      modifies `path, `pathLogical, `speed, `up, `standard, `acquisition, `links, `regs
      ensures View() == ResetPorts(old(View()), ready, n)
    {
      ghost var c := View();
      for p := 0 to n
        invariant View() == ResetPorts(c, ready, p)
      {
        ghost var b := View();
        RestorePort(p, DEFAULTS, ready[p]);
        assert View() == Restore(b, p, DEFAULTS, ready[p]);
      }
    }

    /** `cxp_reset`. */
    method ResetAll(mapReady: seq<bool>, ready: seq<bool>)
      requires WellFormed(View()) && |mapReady| == |ready| == n && Mapped(SetPortMap(View(), IDENTITY_MAP, mapReady).0)
      modifies this
      ensures View() == Reset(old(View()), mapReady, ready)
    {
      var st := ChangeMap(IDENTITY_MAP, mapReady);
      ResetEach(ready);
    }
  }
}
