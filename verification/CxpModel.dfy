/** The CoaXPress frontend as a value: cached settings, port map and the registers last written.

    Some caches belong to the physical port (a connector), some to the logical port the camera is
    mapped to. Every setter skips the register write when its cache already holds the value. */
module CxpModel {
  import opened Bits

  // ---------------------------------------------------------------- settings

  datatype Power = PowerUnknown | PowerOff | PowerOn | PowerTest
  datatype Path = PathUnknown | FullReset | Inactive | SendingIdles | Monitoring | Active
  datatype Speed = SpeedUnknown | S1000 | S1250 | S2500 | S3125 | S5000 | S6250 | S10000 | S12500
  datatype UpSpeed = UpUnknown | UpLow | UpHigh
  datatype Standard = StandardUnknown | Cxp10 | Cxp11 | Cxp20
  datatype Acquisition = AcquisitionUnknown | AcquisitionStopped | AcquisitionStarted

  /** The caches of all ports, one sequence for each field of the driver's port structure. `power`,
      `path` and `speed` are indexed by physical port, the others by logical port; the data path state
      is cached under both numbers. */
  datatype Caches = Caches(power: seq<Power>, path: seq<Path>, pathLogical: seq<Path>, speed: seq<Speed>,
                           up: seq<UpSpeed>, standard: seq<Standard>, acquisition: seq<Acquisition>, links: seq<nat>)

  datatype Status = Ok | InvalidPort | InvalidParameter | TimedOut

  /** `regs` holds the registers written so far, by address. */
  datatype Cxp = Cxp(n: nat, maps: seq<PortMap>, index: nat, ports: Caches, regs: map<int, Bits>)

  predicate Sized(k: Caches, n: nat) {
    |k.power| == |k.path| == |k.pathLogical| == |k.speed| == |k.up| == |k.standard| == |k.acquisition| == |k.links| == n
  }

  const POWER_CTRL := 0x800
  const RESET_CTRL := 0x801
  const STANDARD_CTRL := 0x806
  const ACQUISITION_CTRL := 0x807
  const DISCOVERY_CONFIG := 0x808
  const DOWNSCALE_CTRL := 0x817

  function DownlinkReg(p: nat): int { if p < 4 then 0x802 + p else 0x818 }

  // ---------------------------------------------------------------- port map

  /** A port map word, split into its sixteen 4-bit numbers: which physical port a logical one is
      connected to, and the reverse. */
  datatype PortMap = PortMap(phys: seq<nat>, log: seq<nat>)

  const INVALID_MAP := PortMap([15, 15, 15, 15, 15, 15, 15, 15], [15, 15, 15, 15, 15, 15, 15, 15])
  const IDENTITY_MAP := PortMap([0, 1, 2, 3, 4, 5, 6, 7], [0, 1, 2, 3, 4, 5, 6, 7])

  /** Physical to logical. */
  function Log(m: PortMap, p: nat): nat { if p < |m.log| then m.log[p] else 0 }

  /** Logical to physical. */
  function Phys(m: PortMap, l: nat): nat { if l < |m.phys| then m.phys[l] else 0 }

  /** The two halves are inverse permutations of the ports. */
  predicate ValidMap(m: PortMap, n: nat) {
    && (forall p {:trigger Log(m, p)} :: 0 <= p < n ==> Log(m, p) < n && Phys(m, Log(m, p)) == p)
    && (forall l {:trigger Phys(m, l)} :: 0 <= l < n ==> Phys(m, l) < n && Log(m, Phys(m, l)) == l)
  }

  function CurMap(c: Cxp): PortMap
    requires c.index < |c.maps|
  {
    c.maps[c.index]
  }

  // ---------------------------------------------------------------- register words

  /** A 32-bit register value with the given low bits. */
  function Low(bits: Bits): (r: Bits)
    requires |bits| <= 32
    ensures |r| == 32
  {
    bits + Zeros(32 - |bits|)
  }

  function PowerBits(s: Power): (r: Bits) ensures |r| == 2 {
    match s
    case PowerOff => [false, false]
    case PowerTest => [true, true]
    case _ => [true, false]
  }

  /** Host resets: transmit buffer, receive path, monitor. */
  function HostBits(s: Path): (r: Bits) ensures |r| == 3 {
    match s
    case SendingIdles => [false, true, true]
    case Monitoring => [false, true, false]
    case Active => [false, false, false]
    case _ => [true, true, true]
  }

  /** Transceiver resets: monitor, transceiver. */
  function TransceiverBits(s: Path): (r: Bits) ensures |r| == 2 {
    match s
    case FullReset => [true, true]
    case Monitoring => [false, false]
    case Active => [false, false]
    case _ => [true, false]
  }

  function StandardBits(u: UpSpeed, s: Standard): (r: Bits) ensures |r| == 3 {
    [u == UpHigh, s != Cxp10 && s != Cxp20, s == Cxp20]
  }

  function LinksBits(k: nat): (r: Bits) ensures |r| == 2 {
    FromNat(if k == 0 then 255 else k - 1, 8)[..2]
  }

  /** Register values "recomputed from scratch": which setting decides each bit. */
  function PowerWord(power: seq<Power>): (r: Bits) ensures |r| == 32 {
    seq(32, k requires 0 <= k < 32 => k / 2 < |power| && PowerBits(power[k / 2])[k % 2])
  }

  /** The host part of a port's group stands at its logical number, the transceiver part at its
      physical number. */
  function ResetWord(path: seq<Path>, m: PortMap): (r: Bits) ensures |r| == 32 {
    seq(32, k requires 0 <= k < 32 =>
      k / 5 < |path|
      && if k % 5 < 3 then Phys(m, k / 5) < |path| && HostBits(path[Phys(m, k / 5)])[k % 5]
         else TransceiverBits(path[k / 5])[k % 5 - 3])
  }

  function StandardWord(up: seq<UpSpeed>, standard: seq<Standard>): (r: Bits)
    requires |up| == |standard|
    ensures |r| == 32
  {
    seq(32, k requires 0 <= k < 32 => k / 3 < |up| && StandardBits(up[k / 3], standard[k / 3])[k % 3])
  }

  function AcquisitionWord(acquisition: seq<Acquisition>): (r: Bits) ensures |r| == 32 {
    seq(32, k requires 0 <= k < 32 => k < |acquisition| && acquisition[k] == AcquisitionStarted)
  }

  /** The value is computed in eight bits, two for each of the first four logical ports. */
  function DownscaleWord(links: seq<nat>): (r: Bits) ensures |r| == 32 {
    seq(32, k requires 0 <= k < 32 => k < 8 && k / 2 < |links| && LinksBits(links[k / 2])[k % 2])
  }

  function Bitrate(s: Speed): nat {
    match s
    case S1250 => 0
    case S2500 => 1
    case S5000 => 3
    case S6250 => 4
    case S10000 => 5
    case S12500 => 6
    case _ => 2
  }

  function BitrateWord(s: Speed): (r: Bits) ensures |r| == 32 { FromNat(Bitrate(s), 32) }

  function UpOf(s: Speed): UpSpeed { if s == S10000 || s == S12500 then UpHigh else UpLow }

  // ---------------------------------------------------------------- setters

  /** The current map is one of the table's real entries. */
  predicate Mapped(c: Cxp) {
    && c.index < |c.maps| && Sized(c.ports, c.n) && ValidMap(CurMap(c), c.n)
  }

  predicate SameMap(c: Cxp, d: Cxp) {
    d.n == c.n && d.maps == c.maps && d.index == c.index
  }

  function SetPower(c: Cxp, p: nat, s: Power): (Cxp, Status)
    requires Sized(c.ports, c.n)
  {
    if p >= c.n then (c, InvalidPort)
    else if s == PowerUnknown then (c, InvalidParameter)
    else if s == c.ports.power[p] then (c, Ok)
    else
      var power := c.ports.power[p := s];
      (c.(ports := c.ports.(power := power), regs := c.regs[POWER_CTRL := PowerWord(power)]), Ok)
  }

  function SetPath(c: Cxp, p: nat, s: Path): (r: (Cxp, Status))
    requires Mapped(c)
    ensures Mapped(r.0) && SameMap(c, r.0)
  {
    if p >= c.n then (c, InvalidPort)
    else if s == PathUnknown then (c, InvalidParameter)
    else
      var l := Log(CurMap(c), p);
      if s == c.ports.path[p] && s == c.ports.pathLogical[l] then (c, Ok)
      else
        var path := c.ports.path[p := s];
        (c.(ports := c.ports.(path := path, pathLogical := c.ports.pathLogical[l := s]),
            regs := c.regs[RESET_CTRL := ResetWord(path, CurMap(c))]), Ok)
  }

  /** The downlink half of a speed change. */
  function Downlink(c: Cxp, p: nat, s: Speed): Cxp
    requires p < |c.ports.speed|
  {
    c.(ports := c.ports.(speed := c.ports.speed[p := s]), regs := c.regs[DownlinkReg(p) := BitrateWord(s)])
  }

  /** The uplink half. */
  function Uplink(c: Cxp, l: nat, u: UpSpeed): Cxp
    requires l < |c.ports.up| == |c.ports.standard|
  {
    var up := c.ports.up[l := u];
    c.(ports := c.ports.(up := up), regs := c.regs[STANDARD_CTRL := StandardWord(up, c.ports.standard)])
  }

  /** `ready1` and `ready2` say whether the two waits for the speed change ended in time. */
  function SetSpeed(c: Cxp, p: nat, s: Speed, ready1: bool, ready2: bool): (r: (Cxp, Status))
    requires Mapped(c)
    ensures Mapped(r.0) && SameMap(c, r.0)
  {
    if p >= c.n then (c, InvalidPort)
    else if s == SpeedUnknown || s == S1000 then (c, InvalidParameter)
    else
      var l := Log(CurMap(c), p);
      if s == c.ports.speed[p] && UpOf(s) == c.ports.up[l] then (c, Ok)
      else if !ready1 then (c, TimedOut)
      else
        var d := if s == c.ports.speed[p] then c else Downlink(c, p, s);
        (if UpOf(s) == c.ports.up[l] then d else Uplink(d, l, UpOf(s)),
         if s != c.ports.speed[p] && !ready2 then TimedOut else Ok)
  }

  function SetStandard(c: Cxp, p: nat, s: Standard): (r: (Cxp, Status))
    requires Mapped(c)
    ensures Mapped(r.0) && SameMap(c, r.0)
  {
    if p >= c.n then (c, InvalidPort)
    else if s == StandardUnknown then (c, InvalidParameter)
    else
      var l := Log(CurMap(c), p);
      if s == c.ports.standard[l] then (c, Ok)
      else
        var standard := c.ports.standard[l := s];
        (c.(ports := c.ports.(standard := standard),
            regs := c.regs[STANDARD_CTRL := StandardWord(c.ports.up, standard)]), Ok)
  }

  function SetAcquisition(c: Cxp, p: nat, s: Acquisition): (r: (Cxp, Status))
    requires Mapped(c)
    ensures Mapped(r.0) && SameMap(c, r.0)
  {
    if p >= c.n then (c, InvalidPort)
    else if s == AcquisitionUnknown then (c, InvalidParameter)
    else
      var l := Log(CurMap(c), p);
      if s == c.ports.acquisition[l] then (c, Ok)
      else
        var acquisition := c.ports.acquisition[l := s];
        (c.(ports := c.ports.(acquisition := acquisition),
            regs := c.regs[ACQUISITION_CTRL := AcquisitionWord(acquisition)]), Ok)
  }

  /** On a board with one port nothing is written. */
  function SetLinks(c: Cxp, p: nat, k: nat): (r: (Cxp, Status))
    requires Mapped(c) && c.n <= 5
    ensures Mapped(r.0) && SameMap(c, r.0)
  {
    if p >= c.n then (c, InvalidPort)
    else if k > 4 || k == 0 then (c, InvalidParameter)
    else if c.n == 1 then (c, Ok)
    else
      var l := Log(CurMap(c), p);
      if k == c.ports.links[l] then (c, Ok)
      else
        var links := c.ports.links[l := k];
        (c.(ports := c.ports.(links := links), regs := c.regs[DOWNSCALE_CTRL := DownscaleWord(links)]), Ok)
  }

  /** One call of a setter, with any arguments and any outcome of the waits. */
  datatype Call =
    | Power(port: nat, power: Power)
    | Path(port: nat, path: Path)
    | Speed(port: nat, speed: Speed, ready1: bool, ready2: bool)
    | Standard(port: nat, standard: Standard)
    | Acquisition(port: nat, acquisition: Acquisition)
    | Links(port: nat, links: nat)

  function Set(c: Cxp, a: Call): (r: (Cxp, Status))
    requires Mapped(c) && c.n <= 5
    ensures Mapped(r.0) && SameMap(c, r.0)
  {
    match a
    case Power(p, s) => SetPower(c, p, s)
    case Path(p, s) => SetPath(c, p, s)
    case Speed(p, s, r1, r2) => SetSpeed(c, p, s, r1, r2)
    case Standard(p, s) => SetStandard(c, p, s)
    case Acquisition(p, s) => SetAcquisition(c, p, s)
    case Links(p, k) => SetLinks(c, p, k)
  }

  /** The first `k` of a list of calls, one after the other, their statuses ignored. */
  function SetUpTo(c: Cxp, calls: seq<Call>, k: nat): (d: Cxp)
    requires Mapped(c) && c.n <= 5 && k <= |calls|
    ensures Mapped(d) && SameMap(c, d)
  {
    if k == 0 then c else Set(SetUpTo(c, calls, k - 1), calls[k - 1]).0
  }

  // ---------------------------------------------------------------- port map change

  /** What `cxp_set_port_map` restores on physical port `p`, read from the caches under the old map. */
  datatype Saved = Saved(path: Path, speed: Speed, standard: Standard, acquisition: Acquisition, links: nat)

  function Save(c: Cxp, m: PortMap, p: nat): Saved
    requires Sized(c.ports, c.n) && p < c.n && Log(m, p) < c.n
  {
    var l := Log(m, p);
    Saved(c.ports.path[p], c.ports.speed[p], c.ports.standard[l], c.ports.acquisition[l], c.ports.links[l])
  }

  function SaveEach(c: Cxp, m: PortMap): (r: seq<Saved>)
    requires Sized(c.ports, c.n) && ValidMap(m, c.n)
    ensures |r| == c.n && forall p: nat :: p < c.n ==> r[p] == Save(c, m, p)
  {
    seq(c.n, p requires 0 <= p < c.n => Save(c, m, p))
  }

  /** The five setter calls for one moved port; `cxp_reset_port` makes the same five. Whether the
      second wait of the speed change ends in time affects only its status. */
  function RestoreCalls(p: nat, v: Saved, ready: bool): (r: seq<Call>)
    ensures |r| == 5
  {
    [Path(p, v.path), Speed(p, v.speed, ready, true), Standard(p, v.standard), Acquisition(p, v.acquisition),
        Links(p, v.links)]
  }

  function Restore(c: Cxp, p: nat, v: Saved, ready: bool): (d: Cxp)
    requires Mapped(c) && c.n <= 5
    ensures Mapped(d) && SameMap(c, d)
  {
    SetUpTo(c, RestoreCalls(p, v, ready), 5)
  }

  /** One iteration of the restoring loop: only a port whose logical number changed is restored. */
  function RestoreMoved(c: Cxp, oldMap: PortMap, p: nat, v: Saved, ready: bool): (d: Cxp)
    requires Mapped(c) && c.n <= 5
    ensures Mapped(d) && SameMap(c, d)
  {
    if Log(oldMap, p) != Log(CurMap(c), p) then Restore(c, p, v, ready) else c
  }

  /** The restoring loop, up to physical port `k`. `ready` says which ports answer in time. */
  function RestoreUpTo(c: Cxp, saved: seq<Saved>, oldMap: PortMap, ready: seq<bool>, k: nat): (d: Cxp)
    requires Mapped(c) && c.n <= 5 && k <= c.n == |saved| == |ready|
    ensures Mapped(d) && SameMap(c, d)
  {
    if k == 0 then c
    else RestoreMoved(RestoreUpTo(c, saved, oldMap, ready, k - 1), oldMap, k - 1, saved[k - 1], ready[k - 1])
  }

  /** Position of `m` in the table, or of the terminating invalid entry. */
  function FindMap(maps: seq<PortMap>, m: PortMap, i: nat): (r: nat)
    requires i < |maps| && maps[|maps| - 1] == INVALID_MAP
    ensures i <= r < |maps| && (maps[r] == m || maps[r] == INVALID_MAP)
    decreases |maps| - i
  {
    if maps[i] == m || maps[i] == INVALID_MAP then i else FindMap(maps, m, i + 1)
  }

  /** A table ends with the invalid entry; every other entry is a valid map. */
  predicate Table(maps: seq<PortMap>, n: nat) {
    && |maps| > 0 && maps[|maps| - 1] == INVALID_MAP
    && forall i :: 0 <= i < |maps| - 1 ==> maps[i] != INVALID_MAP && ValidMap(maps[i], n)
  }

  predicate WellFormed(c: Cxp) {
    && 0 < c.n <= 5 && Sized(c.ports, c.n) && Table(c.maps, c.n) && c.index < |c.maps|
  }

  /** `cxp_set_port_map`. */
  function SetPortMap(c: Cxp, m: PortMap, ready: seq<bool>): (r: (Cxp, Status))
    requires WellFormed(c) && |ready| == c.n
    ensures WellFormed(r.0) && r.0.n == c.n && r.0.maps == c.maps
    ensures Mapped(c) ==> Mapped(r.0)
  {
    var oldMap := CurMap(c);
    if m == oldMap then (c, Ok)
    else
      var i := FindMap(c.maps, m, 0);
      if c.maps[i] == INVALID_MAP then (c, InvalidParameter)
      else
        var d := c.(index := i, regs := c.regs[DISCOVERY_CONFIG := FromNat(i, 32)]);
        if oldMap == INVALID_MAP then (d, Ok)
        else
          (RestoreUpTo(d, SaveEach(c, oldMap), oldMap, ready, c.n), Ok)
  }

  // ---------------------------------------------------------------- reset

  const DEFAULTS := Saved(Inactive, S3125, Cxp11, AcquisitionStopped, 1)

  /** `cxp_reset_port` on every port below `k`, without LED and stream id. */
  function ResetPorts(c: Cxp, ready: seq<bool>, k: nat): (d: Cxp)
    requires Mapped(c) && c.n <= 5 && k <= c.n == |ready|
    ensures Mapped(d) && SameMap(c, d)
  {
    if k == 0 then c else Restore(ResetPorts(c, ready, k - 1), k - 1, DEFAULTS, ready[k - 1])
  }

  /** `cxp_reset`: back to the identity map, then every port. */
  function Reset(c: Cxp, mapReady: seq<bool>, ready: seq<bool>): (d: Cxp)
    requires WellFormed(c) && |mapReady| == |ready| == c.n && Mapped(SetPortMap(c, IDENTITY_MAP, mapReady).0)
    ensures WellFormed(d) && Mapped(d) && d.n == c.n && d.maps == c.maps
  {
    ResetPorts(SetPortMap(c, IDENTITY_MAP, mapReady).0, ready, c.n)
  }

  /** `cxp_port_init` for every port; the map index points at the invalid entry. */
  function Fresh(n: nat, maps: seq<PortMap>): Cxp
    requires |maps| > 0
  {
    Cxp(n, maps, |maps| - 1,
        Caches(seq(n, _ => PowerUnknown), seq(n, _ => PathUnknown), seq(n, _ => PathUnknown), seq(n, _ => SpeedUnknown),
               seq(n, _ => UpUnknown), seq(n, _ => StandardUnknown), seq(n, _ => AcquisitionUnknown), seq(n, _ => 1)),
                   map[])
  }
}
