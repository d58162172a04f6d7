/** The caches of the CoaXPress frontend agree with the registers. */
module CxpCoherence {
  import opened Bits
  import opened CxpModel

  /** The register was never written, or holds this value. */
  predicate Holds(c: Cxp, reg: int, w: Bits) { reg in c.regs ==> c.regs[reg] == w }

  predicate PowerReg(c: Cxp) { Holds(c, POWER_CTRL, PowerWord(c.ports.power)) }
  predicate StandardReg(c: Cxp)
    requires Mapped(c)
  {
    Holds(c, STANDARD_CTRL, StandardWord(c.ports.up, c.ports.standard))
  }

  predicate AcquisitionReg(c: Cxp) { Holds(c, ACQUISITION_CTRL, AcquisitionWord(c.ports.acquisition)) }
  predicate DownscaleReg(c: Cxp) { Holds(c, DOWNSCALE_CTRL, DownscaleWord(c.ports.links)) }
  predicate ResetReg(c: Cxp) requires Mapped(c) { Holds(c, RESET_CTRL, ResetWord(c.ports.path, CurMap(c))) }

  ghost predicate DownlinkRegs(c: Cxp) {
    forall p :: 0 <= p < |c.ports.speed| ==> Holds(c, DownlinkReg(p), BitrateWord(c.ports.speed[p]))
  }

  /** A known setting has been written, and a number of links other than one. */
  ghost predicate KnownWritten(c: Cxp) {
    && (POWER_CTRL in c.regs || forall p :: 0 <= p < |c.ports.power| ==> c.ports.power[p] == PowerUnknown)
    && (RESET_CTRL in c.regs || forall p :: 0 <= p < |c.ports.path| ==> c.ports.path[p] == PathUnknown)
    && (STANDARD_CTRL in c.regs || forall l :: 0 <= l < |c.ports.standard| ==> c.ports.standard[l] == StandardUnknown)
    && (ACQUISITION_CTRL in c.regs || forall l :: 0 <= l < |c.ports.acquisition| ==>
        c.ports.acquisition[l] == AcquisitionUnknown)
    && (DOWNSCALE_CTRL in c.regs || forall l :: 0 <= l < |c.ports.links| ==> c.ports.links[l] == 1)
    && (forall p :: 0 <= p < |c.ports.speed| && c.ports.speed[p] != SpeedUnknown ==> DownlinkReg(p) in c.regs)
  }

  /** The two copies of the data path state agree through the map. */
  ghost predicate PathsAgree(c: Cxp)
    requires Mapped(c)
  {
    forall p :: 0 <= p < c.n ==> c.ports.pathLogical[Log(CurMap(c), p)] == c.ports.path[p]
  }

  ghost predicate LinksInRange(c: Cxp) { forall l :: 0 <= l < |c.ports.links| ==> 1 <= c.ports.links[l] <= 4 }

  /** All that does not depend on the port map. */
  ghost predicate Flat(c: Cxp) { SharedFlat(c) && PortsFlat(c) }

  predicate SharedFlat(c: Cxp) { WellFormed(c) && Mapped(c) && SharedRegs(c) }

  ghost predicate PortsFlat(c: Cxp) { DownlinkRegs(c) && KnownWritten(c) && LinksInRange(c) }

  /** The registers with one word for all ports. */
  predicate SharedRegs(c: Cxp)
    requires Mapped(c)
  {
    PowerReg(c) && StandardReg(c) && AcquisitionReg(c) && DownscaleReg(c) &&
        Holds(c, DISCOVERY_CONFIG, FromNat(c.index, 32))
  }

  /** The registers hold what would be computed from scratch from the caches and the map. */
  ghost predicate Coherent(c: Cxp) {
    Flat(c) && ResetReg(c) && PathsAgree(c)
  }

  // ---------------------------------------------------------------- setters

  lemma SetPathFlat(c: Cxp, p: nat, s: Path, d: Cxp)
    requires Flat(c) && d == SetPath(c, p, s).0
    ensures Flat(d)
  {
  }

  lemma SetPathAgrees(c: Cxp, p: nat, s: Path)
    requires Mapped(c) && PathsAgree(c)
    ensures PathsAgree(SetPath(c, p, s).0)
  {
    var d := SetPath(c, p, s).0;
    var m := CurMap(c);
    forall q | 0 <= q < d.n ensures d.ports.pathLogical[Log(m, q)] == d.ports.path[q] {
      assert Phys(m, Log(m, q)) == q;
      if p < c.n { assert Phys(m, Log(m, p)) == p; }
    }
  }

  lemma DownlinkPorts(c: Cxp, p: nat, s: Speed, d: Cxp)
    requires PortsFlat(c) && p < |c.ports.speed| <= 5 && d == Downlink(c, p, s)
    ensures PortsFlat(d)
  {
    forall q | 0 <= q < |d.ports.speed| ensures Holds(d, DownlinkReg(q), BitrateWord(d.ports.speed[q])) {
      assert Holds(c, DownlinkReg(q), BitrateWord(c.ports.speed[q]));
    }
  }

  lemma DownlinkShared(c: Cxp, p: nat, s: Speed, d: Cxp)
    requires SharedFlat(c) && p < c.n && d == Downlink(c, p, s)
    ensures SharedFlat(d)
  {
    assert DownlinkReg(p) !in {POWER_CTRL, STANDARD_CTRL, ACQUISITION_CTRL, DOWNSCALE_CTRL, DISCOVERY_CONFIG};
  }

  lemma DownlinkFlat(c: Cxp, p: nat, s: Speed, d: Cxp)
    requires Flat(c) && p < c.n && d == Downlink(c, p, s)
    ensures Flat(d)
  {
    DownlinkPorts(c, p, s, d);
    DownlinkShared(c, p, s, d);
  }

  lemma UplinkFlat(c: Cxp, l: nat, u: UpSpeed, d: Cxp)
    requires Flat(c) && l < c.n && d == Uplink(c, l, u)
    ensures Flat(d)
  {
  }

  lemma SetSpeedFlat(c: Cxp, p: nat, s: Speed, ready1: bool, ready2: bool, r: Cxp)
    requires Flat(c) && r == SetSpeed(c, p, s, ready1, ready2).0
    ensures Flat(r)
  {
    if r != c {
      var l := Log(CurMap(c), p);
      var d := if s == c.ports.speed[p] then c else Downlink(c, p, s);
      if s != c.ports.speed[p] { DownlinkFlat(c, p, s, d); }
      if UpOf(s) != c.ports.up[l] { UplinkFlat(d, l, UpOf(s), r); }
    }
  }

  lemma SetStandardFlat(c: Cxp, p: nat, s: Standard, d: Cxp)
    requires Flat(c) && d == SetStandard(c, p, s).0
    ensures Flat(d)
  {
  }

  lemma SetAcquisitionFlat(c: Cxp, p: nat, s: Acquisition, d: Cxp)
    requires Flat(c) && d == SetAcquisition(c, p, s).0
    ensures Flat(d)
  {
  }

  lemma SetLinksShared(c: Cxp, p: nat, k: nat, d: Cxp)
    requires SharedFlat(c) && c.n <= 5 && d == SetLinks(c, p, k).0
    ensures SharedFlat(d)
  {
  }

  lemma SetLinksPorts(c: Cxp, p: nat, k: nat, d: Cxp)
    requires Mapped(c) && c.n <= 5 && PortsFlat(c) && d == SetLinks(c, p, k).0
    ensures PortsFlat(d)
  {
  }

  lemma SetLinksFlat(c: Cxp, p: nat, k: nat, d: Cxp)
    requires Flat(c) && d == SetLinks(c, p, k).0
    ensures Flat(d)
  {
    SetLinksShared(c, p, k, d);
    SetLinksPorts(c, p, k, d);
  }

  lemma SetPowerFlat(c: Cxp, p: nat, s: Power, d: Cxp)
    requires Flat(c) && d == SetPower(c, p, s).0
    ensures Flat(d)
  {
  }

  lemma SetFlat(c: Cxp, a: Call, d: Cxp)
    requires Flat(c) && d == Set(c, a).0
    ensures Flat(d)
  {
    match a
    case Power(p, s) => SetPowerFlat(c, p, s, d);
    case Path(p, s) => SetPathFlat(c, p, s, d);
    case Speed(p, s, r1, r2) => SetSpeedFlat(c, p, s, r1, r2, d);
    case Standard(p, s) => SetStandardFlat(c, p, s, d);
    case Acquisition(p, s) => SetAcquisitionFlat(c, p, s, d);
    case Links(p, k) => SetLinksFlat(c, p, k, d);
  }

  lemma SetKeepsPaths(c: Cxp, a: Call)
    requires Mapped(c) && c.n <= 5 && ResetReg(c) && PathsAgree(c)
    ensures ResetReg(Set(c, a).0) && PathsAgree(Set(c, a).0)
  {
    if a.Path? { SetPathAgrees(c, a.port, a.path); }
  }

  /** Skipping a write is sound, and a write recomputes the whole word: every setter keeps the
      registers equal to the recomputed values, also when it fails. */
  lemma SetCoherent(c: Cxp, a: Call)
    requires Coherent(c)
    ensures Coherent(Set(c, a).0)
  {
    SetFlat(c, a, Set(c, a).0);
    SetKeepsPaths(c, a);
  }

  /** Induction over a list of setter calls. */
  lemma {:induction false} CallsInduction(c: Cxp, calls: seq<Call>, k: nat, P: Cxp -> bool)
    requires Mapped(c) && c.n <= 5 && k <= |calls| && P(c)
    requires forall b, a {:trigger Set(b, a)} :: Mapped(b) && SameMap(c, b) && P(b) ==> P(Set(b, a).0)
    ensures P(SetUpTo(c, calls, k))
  {
    if k > 0 { CallsInduction(c, calls, k - 1, P); }
  }

  lemma CallsFlat(c: Cxp, calls: seq<Call>)
    requires Flat(c)
    ensures Flat(SetUpTo(c, calls, |calls|))
  {
    ghost var P := (b: Cxp) => Flat(b);
    forall b, a | Mapped(b) && SameMap(c, b) && P(b) ensures P(Set(b, a).0) { SetFlat(b, a, Set(b, a).0); }
    CallsInduction(c, calls, |calls|, P);
  }

  lemma CallsKeepPaths(c: Cxp, calls: seq<Call>)
    requires Mapped(c) && c.n <= 5 && ResetReg(c) && PathsAgree(c)
    ensures ResetReg(SetUpTo(c, calls, |calls|)) && PathsAgree(SetUpTo(c, calls, |calls|))
  {
    ghost var P := (b: Cxp) => Mapped(b) && ResetReg(b) && PathsAgree(b);
    forall b, a | Mapped(b) && SameMap(c, b) && P(b) ensures P(Set(b, a).0) { SetKeepsPaths(b, a); }
    CallsInduction(c, calls, |calls|, P);
  }
}
