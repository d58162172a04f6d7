/** What holds of the CoaXPress frontend after a reset and any number of setter calls, port map
    changes and further resets. */
module CxpRuns {
  import opened Bits
  import opened CxpModel
  import opened CxpCoherence
  import opened CxpRemap

  // ---------------------------------------------------------------- port map change

  /** The map can be selected: it is in the table. */
  predicate Offered(c: Cxp, m: PortMap) { m != INVALID_MAP && m in c.maps }

  lemma {:induction false} FindMapFinds(maps: seq<PortMap>, m: PortMap, i: nat)
    requires i < |maps| && maps[|maps| - 1] == INVALID_MAP
    ensures maps[FindMap(maps, m, i)] != INVALID_MAP ==> maps[FindMap(maps, m, i)] == m
    ensures maps[FindMap(maps, m, i)] == INVALID_MAP && m != INVALID_MAP ==>
            forall j :: i <= j <= FindMap(maps, m, i) ==> maps[j] != m
    decreases |maps| - i
  {
    if maps[i] != m && maps[i] != INVALID_MAP { FindMapFinds(maps, m, i + 1); }
  }

  /** Exactly the offered maps, and the current one, are accepted; a refused map changes nothing. */
  lemma MapAccepted(c: Cxp, m: PortMap, ready: seq<bool>)
    requires WellFormed(c) && |ready| == c.n && (CurMap(c) == INVALID_MAP || Mapped(c))
    ensures SetPortMap(c, m, ready).1 == (if m == CurMap(c) || Offered(c, m) then Ok else InvalidParameter)
    ensures SetPortMap(c, m, ready).1 == InvalidParameter ==> SetPortMap(c, m, ready).0 == c
  {
    FindMapFinds(c.maps, m, 0);
  }

  function UplinkOf(c: Cxp, p: nat): UpSpeed
    requires Mapped(c) && p < c.n
  {
    c.ports.up[Log(CurMap(c), p)]
  }

  predicate UplinkCarried(c: Cxp, d: Cxp, m: PortMap, ready: bool, p: nat)
    requires Mapped(c) && Mapped(d) && p < c.n == d.n && ValidMap(m, c.n)
  {
    UplinkOf(d, p) == if Moved(CurMap(c), m, p) then UpAfter(c.ports.up[Log(m, p)], c.ports.speed[p], ready)
        else UplinkOf(c, p)
  }

  /** What a port map change to `m` must do to the state. */
  ghost predicate Remapped(c: Cxp, d: Cxp, m: PortMap, ready: seq<bool>)
    requires Mapped(c) && |ready| == c.n && ValidMap(m, c.n)
  {
    && Mapped(d) && d.n == c.n && d.maps == c.maps && CurMap(d) == m
    && d.ports.power == c.ports.power
    && (forall p: nat :: p < c.n ==> Camera(d, p) == Camera(c, p))
    && (forall p: nat :: p < c.n ==> UplinkCarried(c, d, m, ready[p], p))
  }

  /** The state after the multiplexer was switched, before the restoring loop. */
  function Switched(c: Cxp, i: nat): Cxp {
    c.(index := i, regs := c.regs[DISCOVERY_CONFIG := FromNat(i, 32)])
  }

  lemma SwitchedFlat(c: Cxp, i: nat)
    requires Flat(c) && i < |c.maps| && ValidMap(c.maps[i], c.n)
    ensures Flat(Switched(c, i)) && SameReg(c, Switched(c, i))
  {
  }

  lemma Identical(c: Cxp, ready: seq<bool>)
    requires Mapped(c) && |ready| == c.n
    ensures Remapped(c, c, CurMap(c), ready)
  {
  }

  lemma LoopDone(c: Cxp, c1: Cxp, d: Cxp, ready: seq<bool>)
    requires Mapped(c) && |ready| == c.n && c1.maps == c.maps && LoopState(c, c1, ready, d, c.n)
    ensures Remapped(c, d, CurMap(d), ready)
  {
    forall p: nat | p < c.n ensures Camera(d, p) == Camera(c, p) && UplinkCarried(c, d, CurMap(d), ready[p], p) {
      assert Carried(c.ports, c.n, p, Log(CurMap(c), p), d.ports, Log(CurMap(d), p), ready[p]);
    }
  }

  lemma LoopCoherent(c: Cxp, c1: Cxp, d: Cxp, ready: seq<bool>)
    requires Mapped(c) && PathsAgree(c) && ResetReg(c) && |ready| == c.n && LoopState(c, c1, ready, d, c.n)
    ensures ResetReg(d) && PathsAgree(d)
  {
    if !ResetReg(d) {
      NothingToWrite(c, CurMap(d));
      assert false;
    }
    forall p | 0 <= p < d.n ensures d.ports.pathLogical[Log(CurMap(d), p)] == d.ports.path[p] {
      assert Carried(c.ports, c.n, p, Log(CurMap(c), p), d.ports, Log(CurMap(d), p), ready[p]);
    }
  }

  lemma StillKnown(c: Cxp, d: Cxp, m: PortMap, ready: seq<bool>)
    requires Mapped(c) && AllKnown(c) && |ready| == c.n && ValidMap(m, c.n) && Remapped(c, d, m, ready)
    ensures AllKnown(d)
  {
    forall p: nat | p < d.n ensures Known(Camera(d, p)) {
      assert Known(Camera(c, p)) && Camera(d, p) == Camera(c, p);
    }
  }

  lemma RemapLoop(c: Cxp, i: nat, saved: seq<Saved>, ready: seq<bool>, d: Cxp)
    requires Mapped(c) && PathsAgree(c) && ResetReg(c) && c.n <= 5 && AllKnown(c) && |ready| == c.n
    requires i < |c.maps| && ValidMap(c.maps[i], c.n) && AllSaved(c, saved)
    requires d == RestoreUpTo(Switched(c, i), saved, CurMap(c), ready, c.n)
    ensures Remapped(c, d, c.maps[i], ready) && ResetReg(d) && PathsAgree(d) && AllKnown(d)
  {
    RestoreLoop(c, Switched(c, i), saved, ready);
    LoopDone(c, Switched(c, i), d, ready);
    LoopCoherent(c, Switched(c, i), d, ready);
    StillKnown(c, d, c.maps[i], ready);
  }

  lemma RemapFlat(c: Cxp, i: nat, saved: seq<Saved>, ready: seq<bool>)
    requires Flat(c) && i < |c.maps| && ValidMap(c.maps[i], c.n) && c.n == |ready| == |saved|
    ensures Flat(RestoreUpTo(Switched(c, i), saved, CurMap(c), ready, c.n))
  {
    SwitchedFlat(c, i);
    RestoreUpToFlat(Switched(c, i), saved, CurMap(c), ready);
  }

  /** A successful change is the restoring loop on the switched state. */
  lemma RemapIsLoop(c: Cxp, m: PortMap, ready: seq<bool>) returns (i: nat)
    requires WellFormed(c) && Mapped(c) && |ready| == c.n && SetPortMap(c, m, ready).1 == Ok && m != CurMap(c) &&
             CurMap(c) != INVALID_MAP
    ensures i < |c.maps| && c.maps[i] == m && m != INVALID_MAP
    ensures SetPortMap(c, m, ready).0 == RestoreUpTo(Switched(c, i), SaveEach(c, CurMap(c)), CurMap(c), ready, c.n)
  {
    i := FindMap(c.maps, m, 0);
    FindMapFinds(c.maps, m, 0);
  }

  lemma NotInvalid(m: PortMap, n: nat)
    requires 0 < n <= 8 && ValidMap(m, n)
    ensures m != INVALID_MAP
  {
    assert Log(m, 0) < n;
    assert Log(INVALID_MAP, 0) == 15;
  }

  /** Changing the port map keeps data path state, downlink speed, standard version, acquisition state
      and number of links of every physical port and stores them under its new logical number. */
  lemma RemapCarries(c: Cxp, m: PortMap, ready: seq<bool>)
    requires WellFormed(c) && Mapped(c) && PathsAgree(c) && ResetReg(c) && AllKnown(c) && |ready| == c.n &&
             SetPortMap(c, m, ready).1 == Ok
    ensures var d := SetPortMap(c, m, ready).0;
            ValidMap(m, c.n) && Remapped(c, d, m, ready) && ResetReg(d) && PathsAgree(d) && AllKnown(d)
  {
    NotInvalid(CurMap(c), c.n);
    if m == CurMap(c) {
      Identical(c, ready);
    } else {
      var i := RemapIsLoop(c, m, ready);
      RemapLoop(c, i, SaveEach(c, CurMap(c)), ready, SetPortMap(c, m, ready).0);
    }
  }

  /** ... and leaves every register as if computed from scratch. */
  lemma RemapCoherent(c: Cxp, m: PortMap, ready: seq<bool>)
    requires Coherent(c) && AllKnown(c) && |ready| == c.n
    ensures Coherent(SetPortMap(c, m, ready).0) && AllKnown(SetPortMap(c, m, ready).0)
  {
    if SetPortMap(c, m, ready).1 == Ok && m != CurMap(c) {
      RemapCarries(c, m, ready);
      NotInvalid(CurMap(c), c.n);
      var i := RemapIsLoop(c, m, ready);
      RemapFlat(c, i, SaveEach(c, CurMap(c)), ready);
    }
  }

  // ---------------------------------------------------------------- uplink speed

  /** A port with a usable downlink speed has the uplink speed that belongs to it. */
  ghost predicate UplinksMatch(c: Cxp)
    requires Mapped(c)
  {
    forall p: nat :: p < c.n && c.ports.speed[p] != SpeedUnknown ==>
        Settable(c.ports.speed[p]) && UplinkOf(c, p) == UpOf(c.ports.speed[p])
  }

  /** The uplink speed of a port survives a port map change exactly if the port kept its number, its
      speed change was acknowledged in time, or its new slot held the right speed already. */
  lemma UplinkCarriedIff(c: Cxp, m: PortMap, ready: seq<bool>, p: nat)
    requires WellFormed(c) && Mapped(c) && PathsAgree(c) && ResetReg(c) && AllKnown(c) && UplinksMatch(c) &&
             |ready| == c.n && p < c.n && c.ports.speed[p] != SpeedUnknown
    requires SetPortMap(c, m, ready).1 == Ok
    ensures var d := SetPortMap(c, m, ready).0;
            Mapped(d) && d.n == c.n
            && (UplinkOf(d, p) == UplinkOf(c, p) <==>
                Log(m, p) == Log(CurMap(c), p) || ready[p] || c.ports.up[Log(m, p)] == UpOf(c.ports.speed[p]))
  {
    RemapCarries(c, m, ready);
    assert UplinkCarried(c, SetPortMap(c, m, ready).0, m, ready[p], p);
    assert UplinkOf(c, p) == UpOf(c.ports.speed[p]);
  }

  lemma SetKeepsUplinks(c: Cxp, a: Call)
    requires Mapped(c) && c.n <= 5 && UplinksMatch(c)
    ensures UplinksMatch(Set(c, a).0)
  {
    if a.Speed? {
      var d := Set(c, a).0;
      forall p: nat | p < c.n && d.ports.speed[p] != SpeedUnknown
        ensures Settable(d.ports.speed[p]) && UplinkOf(d, p) == UpOf(d.ports.speed[p])
      {
        assert Phys(CurMap(c), Log(CurMap(c), p)) == p;
        if a.port < c.n { assert Phys(CurMap(c), Log(CurMap(c), a.port)) == a.port; }
      }
    }
  }

  // ---------------------------------------------------------------- one camera

  /** What a call does to the settings of the camera on port `q`: only calls for that port change it. */
  function CameraAfter(v: Saved, n: nat, a: Call, q: nat): Saved {
    if a.port != q then v
    else
      match a
      case Power(_, _) => v
      case Path(_, s) => if s == PathUnknown then v else v.(path := s)
      case Speed(_, s, ready1, _) => if Settable(s) && ready1 then v.(speed := s) else v
      case Standard(_, s) => if s == StandardUnknown then v else v.(standard := s)
      case Acquisition(_, s) => if s == AcquisitionUnknown then v else v.(acquisition := s)
      case Links(_, k) => if n == 1 || k == 0 || k > 4 then v else v.(links := k)
  }

  /** A setter changes its setting of the camera it names and nothing else of any camera, although
      half of the caches are indexed by the other port number. */
  lemma SetCamera(c: Cxp, a: Call, q: nat)
    requires Mapped(c) && c.n <= 5 && q < c.n
    ensures Camera(Set(c, a).0, q) == CameraAfter(Camera(c, q), c.n, a, q)
  {
    assert Phys(CurMap(c), Log(CurMap(c), q)) == q;
    if a.port < c.n { assert Phys(CurMap(c), Log(CurMap(c), a.port)) == a.port; }
    match a
    case Power(_, _) =>
    case Path(_, _) =>
    case Speed(_, _, _, _) =>
    case Standard(_, _) =>
    case Acquisition(_, _) =>
    case Links(_, _) =>
  }

  function CameraUpTo(v: Saved, n: nat, calls: seq<Call>, k: nat, q: nat): Saved
    requires k <= |calls|
  {
    if k == 0 then v else CameraAfter(CameraUpTo(v, n, calls, k - 1, q), n, calls[k - 1], q)
  }

  lemma {:induction false} CallsCamera(c: Cxp, calls: seq<Call>, k: nat, q: nat)
    requires Mapped(c) && c.n <= 5 && q < c.n && k <= |calls|
    ensures Camera(SetUpTo(c, calls, k), q) == CameraUpTo(Camera(c, q), c.n, calls, k, q)
  {
    if k > 0 {
      CallsCamera(c, calls, k - 1, q);
      SetCamera(SetUpTo(c, calls, k - 1), calls[k - 1], q);
    }
  }

  lemma SetKeepsKnown(c: Cxp, a: Call)
    requires Mapped(c) && c.n <= 5 && AllKnown(c)
    ensures AllKnown(Set(c, a).0)
  {
    forall p: nat | p < c.n ensures Known(Camera(Set(c, a).0, p)) {
      assert Known(Camera(c, p));
      SetCamera(c, a, p);
    }
  }

  // ---------------------------------------------------------------- reset

  /** A camera's settings after its port was reset. */
  function AfterReset(v: Saved, n: nat, ready: bool): Saved {
    DEFAULTS.(speed := if ready then DEFAULTS.speed else v.speed, links := if n == 1 then v.links else DEFAULTS.links)
  }

  lemma ResetCalls(v: Saved, n: nat, p: nat, ready: bool, q: nat)
    ensures CameraUpTo(v, n, RestoreCalls(p, DEFAULTS, ready), 5, q) == if q == p then AfterReset(v, n, ready) else v
  {
    var calls := RestoreCalls(p, DEFAULTS, ready);
    var v2 := CameraUpTo(v, n, calls, 2, q);
    assert v2 == CameraAfter(CameraAfter(v, n, calls[0], q), n, calls[1], q) by {
      assert CameraUpTo(v, n, calls, 1, q) == CameraAfter(v, n, calls[0], q);
    }
    var v4 := CameraUpTo(v, n, calls, 4, q);
    assert v4 == CameraAfter(CameraAfter(v2, n, calls[2], q), n, calls[3], q) by {
      assert CameraUpTo(v, n, calls, 3, q) == CameraAfter(v2, n, calls[2], q);
    }
  }

  lemma ResetCamera(c: Cxp, p: nat, ready: bool, q: nat)
    requires Mapped(c) && c.n <= 5 && q < c.n
    ensures Camera(Restore(c, p, DEFAULTS, ready), q) == if q == p then AfterReset(Camera(c, q), c.n, ready)
            else Camera(c, q)
  {
    CallsCamera(c, RestoreCalls(p, DEFAULTS, ready), 5, q);
    ResetCalls(Camera(c, q), c.n, p, ready, q);
  }

  /** Induction over the ports of a reset. */
  lemma {:induction false} ResetInduction(c: Cxp, ready: seq<bool>, k: nat, r: Cxp, P: (Cxp, nat) -> bool)
    requires Mapped(c) && c.n <= 5 && k <= c.n == |ready| && P(c, 0) && r == ResetPorts(c, ready, k)
    requires forall b, p {:trigger Restore(b, p, DEFAULTS, ready[p])} ::
               Mapped(b) && SameMap(c, b) && 0 <= p < c.n && P(b, p) ==> P(Restore(b, p, DEFAULTS, ready[p]), p + 1)
    ensures P(r, k)
  {
    if k > 0 {
      var b := ResetPorts(c, ready, k - 1);
      ResetInduction(c, ready, k - 1, b, P);
      assert P(Restore(b, k - 1, DEFAULTS, ready[k - 1]), k - 1 + 1);
    }
  }

  /** The camera on port `q` was reset if the loop has passed it. */
  ghost predicate CameraReset(c: Cxp, b: Cxp, ready: seq<bool>, k: nat, q: nat)
    requires Mapped(c) && q < c.n == |ready|
  {
    Mapped(b) && SameMap(c, b) && Camera(b, q) == if q < k then AfterReset(Camera(c, q), c.n, ready[q])
        else Camera(c, q)
  }

  lemma CameraResetStep(c: Cxp, b: Cxp, ready: seq<bool>, p: nat, q: nat)
    requires Mapped(c) && c.n <= 5 && q < c.n == |ready| && p < c.n && CameraReset(c, b, ready, p, q)
    ensures CameraReset(c, Restore(b, p, DEFAULTS, ready[p]), ready, p + 1, q)
  {
    ResetCamera(b, p, ready[p], q);
  }

  /** `cxp_reset_port` on all ports: every camera gets the default settings. */
  lemma ResetSets(c: Cxp, ready: seq<bool>, q: nat)
    requires Mapped(c) && c.n <= 5 && c.n == |ready| && q < c.n
    ensures Camera(ResetPorts(c, ready, c.n), q) == AfterReset(Camera(c, q), c.n, ready[q])
  {
    ghost var P := (b: Cxp, k: nat) => CameraReset(c, b, ready, k, q);
    forall b, p: nat {:trigger Restore(b, p, DEFAULTS, ready[p])} | Mapped(b) && SameMap(c, b) && p < c.n && P(b, p)
      ensures P(Restore(b, p, DEFAULTS, ready[p]), p + 1)
    {
      CameraResetStep(c, b, ready, p, q);
    }
    ResetInduction(c, ready, c.n, ResetPorts(c, ready, c.n), P);
    assert CameraReset(c, ResetPorts(c, ready, c.n), ready, c.n, q);
  }

  lemma CallsKeepUplinks(c: Cxp, calls: seq<Call>)
    requires Mapped(c) && c.n <= 5 && UplinksMatch(c)
    ensures UplinksMatch(SetUpTo(c, calls, |calls|))
  {
    ghost var P := (b: Cxp) => Mapped(b) && UplinksMatch(b);
    forall b, a | Mapped(b) && SameMap(c, b) && P(b) ensures P(Set(b, a).0) { SetKeepsUplinks(b, a); }
    CallsInduction(c, calls, |calls|, P);
  }

  lemma ResetStepFlat(b: Cxp, p: nat, ready: bool)
    requires Flat(b)
    ensures Flat(Restore(b, p, DEFAULTS, ready))
  {
    CallsFlat(b, RestoreCalls(p, DEFAULTS, ready));
  }

  lemma ResetPortsFlat(c: Cxp, ready: seq<bool>)
    requires Flat(c) && |ready| == c.n
    ensures Flat(ResetPorts(c, ready, c.n))
  {
    ghost var P := (b: Cxp, k: nat) => Flat(b);
    forall b, p: nat {:trigger Restore(b, p, DEFAULTS, ready[p])} | Mapped(b) && SameMap(c, b) && p < c.n && P(b, p)
      ensures P(Restore(b, p, DEFAULTS, ready[p]), p + 1)
    {
      ResetStepFlat(b, p, ready[p]);
    }
    ResetInduction(c, ready, c.n, ResetPorts(c, ready, c.n), P);
  }

  lemma ResetPortsPaths(c: Cxp, ready: seq<bool>)
    requires Mapped(c) && c.n <= 5 && |ready| == c.n && ResetReg(c) && PathsAgree(c)
    ensures ResetReg(ResetPorts(c, ready, c.n)) && PathsAgree(ResetPorts(c, ready, c.n))
  {
    ghost var P := (b: Cxp, k: nat) => Mapped(b) && ResetReg(b) && PathsAgree(b);
    forall b, p: nat {:trigger Restore(b, p, DEFAULTS, ready[p])} | Mapped(b) && SameMap(c, b) && p < c.n && P(b, p)
      ensures P(Restore(b, p, DEFAULTS, ready[p]), p + 1)
    {
      CallsKeepPaths(b, RestoreCalls(p, DEFAULTS, ready[p]));
    }
    ResetInduction(c, ready, c.n, ResetPorts(c, ready, c.n), P);
  }

  lemma ResetPortsUplinks(c: Cxp, ready: seq<bool>)
    requires Mapped(c) && c.n <= 5 && |ready| == c.n && UplinksMatch(c)
    ensures UplinksMatch(ResetPorts(c, ready, c.n))
  {
    ghost var P := (b: Cxp, k: nat) => Mapped(b) && UplinksMatch(b);
    forall b, p: nat {:trigger Restore(b, p, DEFAULTS, ready[p])} | Mapped(b) && SameMap(c, b) && p < c.n && P(b, p)
      ensures P(Restore(b, p, DEFAULTS, ready[p]), p + 1)
    {
      CallsKeepUplinks(b, RestoreCalls(p, DEFAULTS, ready[p]));
    }
    ResetInduction(c, ready, c.n, ResetPorts(c, ready, c.n), P);
  }

  /** Resetting the ports makes every setting known, whatever was known before. */
  lemma ResetPortsKnown(c: Cxp, ready: seq<bool>)
    requires Mapped(c) && c.n <= 5 && |ready| == c.n && LinksInRange(c)
    ensures AllKnown(ResetPorts(c, ready, c.n))
  {
    var d := ResetPorts(c, ready, c.n);
    forall p: nat | p < d.n ensures Known(Camera(d, p)) {
      ResetSets(c, ready, p);
    }
  }

  // ---------------------------------------------------------------- runs

  /** What every reachable state satisfies. */
  ghost predicate Safe(c: Cxp) { Coherent(c) && AllKnown(c) }

  datatype Action =
    | Setter(call: Call)
    | MapChange(portMap: PortMap, ready: seq<bool>)
    | ResetAll(mapReady: seq<bool>, ready: seq<bool>)

  predicate Fits(a: Action, n: nat) {
    (a.MapChange? ==> |a.ready| == n) && (a.ResetAll? ==> |a.ready| == |a.mapReady| == n)
  }

  predicate Operable(c: Cxp, a: Action) { WellFormed(c) && Mapped(c) && Fits(a, c.n) }

  /** Defined on all values to keep runs simple; every state of a run is operable. */
  function Perform(c: Cxp, a: Action): Cxp {
    if !Operable(c, a) then c
    else
      match a
      case Setter(call) => Set(c, call).0
      case MapChange(m, ready) => SetPortMap(c, m, ready).0
      case ResetAll(mapReady, ready) => Reset(c, mapReady, ready)
  }

  /** The state after the first `k` actions. */
  function Run(c: Cxp, actions: seq<Action>, k: nat): Cxp
    requires k <= |actions|
  {
    if k == 0 then c else Perform(Run(c, actions, k - 1), actions[k - 1])
  }

  /** A board whose table offers the identity map. */
  predicate Board(n: nat, maps: seq<PortMap>) { 0 < n <= 5 && Table(maps, n) && IDENTITY_MAP in maps }

  /** The state after construction and the first switch of the multiplexer. */
  lemma FirstSwitch(n: nat, maps: seq<PortMap>, ready: seq<bool>)
    requires Board(n, maps) && |ready| == n
    ensures var c := SetPortMap(Fresh(n, maps), IDENTITY_MAP, ready).0;
            Coherent(c) && UplinksMatch(c)
  {
    FindMapFinds(maps, IDENTITY_MAP, 0);
    FreshSwitched(n, maps, FindMap(maps, IDENTITY_MAP, 0));
  }

  lemma FreshSwitched(n: nat, maps: seq<PortMap>, i: nat)
    requires Board(n, maps) && i < |maps| - 1
    ensures Coherent(Switched(Fresh(n, maps), i)) && UplinksMatch(Switched(Fresh(n, maps), i))
  {
    var c := Switched(Fresh(n, maps), i);
    assert Flat(c);
  }

  /** A reset ends in a safe state, from the constructed state as from any safe one. */
  lemma ResetSafe(c: Cxp, mapReady: seq<bool>, ready: seq<bool>)
    requires WellFormed(c) && |mapReady| == |ready| == c.n
    requires Coherent(SetPortMap(c, IDENTITY_MAP, mapReady).0)
    ensures Safe(Reset(c, mapReady, ready))
  {
    var d := SetPortMap(c, IDENTITY_MAP, mapReady).0;
    ResetPortsFlat(d, ready);
    ResetPortsPaths(d, ready);
    ResetPortsKnown(d, ready);
  }

  lemma PerformSafe(c: Cxp, a: Action)
    requires Safe(c) && Fits(a, c.n)
    ensures Safe(Perform(c, a))
  {
    match a
    case Setter(call) =>
      SetCoherent(c, call);
      SetKeepsKnown(c, call);
    case MapChange(m, ready) =>
      RemapCoherent(c, m, ready);
    case ResetAll(mapReady, ready) =>
      RemapCoherent(c, IDENTITY_MAP, mapReady);
      ResetSafe(c, mapReady, ready);
  }

  lemma {:induction false} RunInduction(c: Cxp, actions: seq<Action>, k: nat, r: Cxp, P: Cxp -> bool)
    requires k <= |actions| && P(c) && r == Run(c, actions, k)
    requires forall b, i {:trigger Perform(b, actions[i])} :: 0 <= i < |actions| && P(b) ==> P(Perform(b, actions[i]))
    ensures P(r)
  {
    if k > 0 {
      var b := Run(c, actions, k - 1);
      RunInduction(c, actions, k - 1, b, P);
      assert P(Perform(b, actions[k - 1]));
    }
  }

  ghost predicate SafeOn(c: Cxp, n: nat) { Safe(c) && c.n == n }

  lemma PerformSafeOn(c: Cxp, a: Action, n: nat)
    requires SafeOn(c, n) && Fits(a, n)
    ensures SafeOn(Perform(c, a), n)
  {
    PerformSafe(c, a);
  }

  /** Safety over whole runs. */
  lemma RunSafe(c: Cxp, actions: seq<Action>, k: nat, r: Cxp)
    requires Safe(c) && k <= |actions| && r == Run(c, actions, k) &&
             forall i :: 0 <= i < |actions| ==> Fits(actions[i], c.n)
    ensures Safe(r) && r.n == c.n
  {
    ghost var P := (b: Cxp) => SafeOn(b, c.n);
    forall b, i {:trigger Perform(b, actions[i])} | 0 <= i < |actions| && P(b) ensures P(Perform(b, actions[i])) {
      PerformSafeOn(b, actions[i], c.n);
    }
    RunInduction(c, actions, k, r, P);
    assert SafeOn(r, c.n);
  }

  /** In a safe state the combined registers have been written and hold the words recomputed from the
      current settings and the current map. */
  lemma RegistersExact(c: Cxp)
    requires Safe(c)
    ensures RESET_CTRL in c.regs && c.regs[RESET_CTRL] == ResetWord(c.ports.path, CurMap(c))
    ensures STANDARD_CTRL in c.regs && c.regs[STANDARD_CTRL] == StandardWord(c.ports.up, c.ports.standard)
    ensures ACQUISITION_CTRL in c.regs && c.regs[ACQUISITION_CTRL] == AcquisitionWord(c.ports.acquisition)
    ensures POWER_CTRL in c.regs ==> c.regs[POWER_CTRL] == PowerWord(c.ports.power)
    ensures DOWNSCALE_CTRL in c.regs ==> c.regs[DOWNSCALE_CTRL] == DownscaleWord(c.ports.links)
    ensures POWER_CTRL in c.regs || forall p :: 0 <= p < c.n ==> c.ports.power[p] == PowerUnknown
    ensures DOWNSCALE_CTRL in c.regs || forall l :: 0 <= l < c.n ==> c.ports.links[l] == 1
  {
    var v := Camera(c, 0);
    var l := Log(CurMap(c), 0);
    assert Known(v);
    assert c.ports.path[0] in c.ports.path && c.ports.standard[l] in c.ports.standard &&
        c.ports.acquisition[l] in c.ports.acquisition;
  }

  /** After the first reset and any actions at all, in any order, also failing ones, skipping writes
      never shows: every combined register is exact. */
  lemma AlwaysExact(n: nat, maps: seq<PortMap>, mapReady: seq<bool>, ready: seq<bool>, actions: seq<Action>)
    requires Board(n, maps) && |mapReady| == |ready| == n && forall i :: 0 <= i < |actions| ==> Fits(actions[i], n)
    ensures var f := Fresh(n, maps);
            Mapped(SetPortMap(f, IDENTITY_MAP, mapReady).0)
            && var c := Run(Reset(f, mapReady, ready), actions, |actions|);
            && Safe(c)
            && RESET_CTRL in c.regs && c.regs[RESET_CTRL] == ResetWord(c.ports.path, CurMap(c))
            && STANDARD_CTRL in c.regs && c.regs[STANDARD_CTRL] == StandardWord(c.ports.up, c.ports.standard)
            && ACQUISITION_CTRL in c.regs && c.regs[ACQUISITION_CTRL] == AcquisitionWord(c.ports.acquisition)
            && (POWER_CTRL in c.regs ==> c.regs[POWER_CTRL] == PowerWord(c.ports.power))
            && (DOWNSCALE_CTRL in c.regs ==> c.regs[DOWNSCALE_CTRL] == DownscaleWord(c.ports.links))
  {
    var f := Fresh(n, maps);
    FirstSwitch(n, maps, mapReady);
    ResetSafe(f, mapReady, ready);
    var c := Run(Reset(f, mapReady, ready), actions, |actions|);
    RunSafe(Reset(f, mapReady, ready), actions, |actions|, c);
    RegistersExact(c);
  }

  // ---------------------------------------------------------------- uplinks over runs

  /** Every port change the action has to wait for is acknowledged in time. */
  predicate Timely(a: Action) {
    match a
    case Setter(_) => true
    case MapChange(_, ready) => forall p :: 0 <= p < |ready| ==> ready[p]
    case ResetAll(mapReady, _) => forall p :: 0 <= p < |mapReady| ==> mapReady[p]
  }

  lemma RemapKeepsUplinks(c: Cxp, m: PortMap, ready: seq<bool>)
    requires Safe(c) && UplinksMatch(c) && |ready| == c.n && forall p :: 0 <= p < |ready| ==> ready[p]
    ensures UplinksMatch(SetPortMap(c, m, ready).0)
  {
    var d := SetPortMap(c, m, ready).0;
    if SetPortMap(c, m, ready).1 == Ok {
      RemapCarries(c, m, ready);
      forall p: nat | p < d.n && d.ports.speed[p] != SpeedUnknown
        ensures Settable(d.ports.speed[p]) && UplinkOf(d, p) == UpOf(d.ports.speed[p])
      {
        assert UplinkCarried(c, d, m, ready[p], p);
        assert Camera(d, p) == Camera(c, p);
        assert UplinkOf(c, p) == UpOf(c.ports.speed[p]);
      }
    }
  }

  lemma PerformKeepsUplinks(c: Cxp, a: Action)
    requires Safe(c) && UplinksMatch(c) && Fits(a, c.n) && Timely(a)
    ensures UplinksMatch(Perform(c, a))
  {
    match a
    case Setter(call) => SetKeepsUplinks(c, call);
    case MapChange(m, ready) => RemapKeepsUplinks(c, m, ready);
    case ResetAll(mapReady, ready) =>
      RemapKeepsUplinks(c, IDENTITY_MAP, mapReady);
      ResetPortsUplinks(SetPortMap(c, IDENTITY_MAP, mapReady).0, ready);
  }

  ghost predicate MatchedOn(c: Cxp, n: nat) { Safe(c) && UplinksMatch(c) && c.n == n }

  lemma PerformMatched(c: Cxp, a: Action, n: nat)
    requires MatchedOn(c, n) && Fits(a, n) && Timely(a)
    ensures MatchedOn(Perform(c, a), n)
  {
    PerformSafe(c, a);
    PerformKeepsUplinks(c, a);
  }

  /** Uplink and downlink speeds of every camera fit together in every run whose map changes are
      acknowledged in time; setters may time out. */
  lemma RunKeepsUplinks(c: Cxp, actions: seq<Action>, k: nat, r: Cxp)
    requires Safe(c) && UplinksMatch(c) && forall i :: 0 <= i < |actions| ==>
             Fits(actions[i], c.n) && Timely(actions[i])
    requires k <= |actions| && r == Run(c, actions, k)
    ensures Safe(r) && UplinksMatch(r)
  {
    ghost var P := (b: Cxp) => MatchedOn(b, c.n);
    forall b, i {:trigger Perform(b, actions[i])} | 0 <= i < |actions| && P(b) ensures P(Perform(b, actions[i])) {
      PerformMatched(b, actions[i], c.n);
    }
    RunInduction(c, actions, k, r, P);
    assert MatchedOn(r, c.n);
  }
}
