/** Changing the port map carries every camera's settings to its new logical port. */
module CxpRemap {
  import opened CxpModel
  import opened CxpCoherence

  /** A saved setting that the setters accept. */
  predicate Known(v: Saved) {
    v.path != PathUnknown && v.standard != StandardUnknown && v.acquisition != AcquisitionUnknown && 1 <= v.links <= 4
  }

  predicate Settable(s: Speed) { s != SpeedUnknown && s != S1000 }

  /** The uplink speed of slot `l` after a camera of speed `s` was restored to it: carried unless the
      speed is unknown or the port did not answer in time. */
  function UpAfter(was: UpSpeed, s: Speed, ready: bool): UpSpeed {
    if Settable(s) && ready then UpOf(s) else was
  }

  /** The caches after restoring port `p` into slot `l`. */
  function Restored(k: Caches, l: nat, v: Saved, ready: bool): Caches
    requires l < |k.pathLogical| == |k.up| == |k.standard| == |k.acquisition| == |k.links|
  {
    k.(pathLogical := k.pathLogical[l := v.path], up := k.up[l := UpAfter(k.up[l], v.speed, ready)],
       standard := k.standard[l := v.standard], acquisition := k.acquisition[l := v.acquisition],
           links := k.links[l := v.links])
  }

  predicate SameReg(c0: Cxp, c: Cxp) {
    (RESET_CTRL in c.regs <==> RESET_CTRL in c0.regs) &&
        (RESET_CTRL in c.regs ==> c.regs[RESET_CTRL] == c0.regs[RESET_CTRL])
  }

  /** Restoring touches only the new slot. */
  lemma RestorePorts(c: Cxp, p: nat, v: Saved, ready: bool)
    requires Mapped(c) && 2 <= c.n <= 5 && p < c.n && Known(v) && v.path == c.ports.path[p] &&
             v.speed == c.ports.speed[p]
    ensures Restore(c, p, v, ready).ports == Restored(c.ports, Log(CurMap(c), p), v, ready)
  {
    RestoreSteps(c, p, v, ready);
    var l := Log(CurMap(c), p);
    var a := SetPath(c, p, v.path).0;
    assert a.ports == c.ports.(pathLogical := c.ports.pathLogical[l := v.path]) by {
      assert c.ports.path[p := v.path] == c.ports.path;
      assert c.ports.pathLogical[l := c.ports.pathLogical[l]] == c.ports.pathLogical;
    }
    var b := SetSpeed(a, p, v.speed, ready, true).0;
    assert b.ports == a.ports.(up := a.ports.up[l := UpAfter(a.ports.up[l], v.speed, ready)]) by {
      assert a.ports.up[l := a.ports.up[l]] == a.ports.up;
    }
    var e := SetStandard(b, p, v.standard).0;
    assert e.ports == b.ports.(standard := b.ports.standard[l := v.standard]) by {
      assert b.ports.standard[l := b.ports.standard[l]] == b.ports.standard;
    }
    var f := SetAcquisition(e, p, v.acquisition).0;
    assert f.ports == e.ports.(acquisition := e.ports.acquisition[l := v.acquisition]) by {
      assert e.ports.acquisition[l := e.ports.acquisition[l]] == e.ports.acquisition;
    }
    var g := SetLinks(f, p, v.links).0;
    assert g.ports == f.ports.(links := f.ports.links[l := v.links]) by {
      assert f.ports.links[l := f.ports.links[l]] == f.ports.links;
    }
  }

  /** It rewrites the reset register only if the slot's cached path state differs. */
  lemma RestoreReset(c: Cxp, p: nat, v: Saved, ready: bool, d: Cxp)
    requires Mapped(c) && 2 <= c.n <= 5 && p < c.n && Known(v) && v.path == c.ports.path[p] &&
             d == Restore(c, p, v, ready)
    ensures var l := Log(CurMap(c), p);
            && (v.path != c.ports.pathLogical[l] ==>
               RESET_CTRL in d.regs && d.regs[RESET_CTRL] == ResetWord(c.ports.path, CurMap(c)))
            && (v.path == c.ports.pathLogical[l] ==> SameReg(c, d))
  {
    RestoreSteps(c, p, v, ready);
    var a := SetPath(c, p, v.path).0;
    assert c.ports.path[p := v.path] == c.ports.path;
    OnlyPathResets(a, Speed(p, v.speed, ready, true));
    var b := SetSpeed(a, p, v.speed, ready, true).0;
    OnlyPathResets(b, Standard(p, v.standard));
    var e := SetStandard(b, p, v.standard).0;
    OnlyPathResets(e, Acquisition(p, v.acquisition));
    OnlyPathResets(SetAcquisition(e, p, v.acquisition).0, Links(p, v.links));
  }

  lemma OnlyPathResets(c: Cxp, a: Call)
    requires Mapped(c) && c.n <= 5 && !a.Path?
    ensures SameReg(c, Set(c, a).0)
  {
  }

  /** The five calls, written out. */
  lemma RestoreSteps(c: Cxp, p: nat, v: Saved, ready: bool)
    requires Mapped(c) && c.n <= 5
    ensures var a := SetPath(c, p, v.path).0;
            var b := SetSpeed(a, p, v.speed, ready, true).0;
            var e := SetStandard(b, p, v.standard).0;
            var f := SetAcquisition(e, p, v.acquisition).0;
            Restore(c, p, v, ready) == SetLinks(f, p, v.links).0
  {
    FiveCalls(c, RestoreCalls(p, v, ready));
  }

  lemma FiveCalls(c: Cxp, calls: seq<Call>)
    requires Mapped(c) && c.n <= 5 && |calls| == 5
    ensures SetUpTo(c, calls, 5) ==
            Set(Set(Set(Set(Set(c, calls[0]).0, calls[1]).0, calls[2]).0, calls[3]).0, calls[4]).0
  {
    assert SetUpTo(c, calls, 1) == Set(c, calls[0]).0;
    assert SetUpTo(c, calls, 2) == Set(SetUpTo(c, calls, 1), calls[1]).0;
    assert SetUpTo(c, calls, 3) == Set(SetUpTo(c, calls, 2), calls[2]).0;
    assert SetUpTo(c, calls, 4) == Set(SetUpTo(c, calls, 3), calls[3]).0;
  }

  predicate Moved(m0: PortMap, m: PortMap, q: nat) { Log(m0, q) != Log(m, q) }

  /** The settings of port `q`, kept in slot `l0` before and in slot `l` now. */
  predicate Carried(a: Caches, n: nat, q: nat, l0: nat, b: Caches, l: nat, ready: bool)
    requires Sized(a, n) && Sized(b, n) && q < n && l0 < n && l < n
  {
    && b.pathLogical[l] == a.path[q]
    && b.standard[l] == a.standard[l0] && b.acquisition[l] == a.acquisition[l0] && b.links[l] == a.links[l0]
    && b.up[l] == if l == l0 then a.up[l] else UpAfter(a.up[l], a.speed[q], ready)
  }

  predicate Untouched(a: Caches, n: nat, b: Caches, l: nat)
    requires Sized(a, n) && Sized(b, n) && l < n
  {
    && b.pathLogical[l] == a.pathLogical[l] && b.up[l] == a.up[l]
    && b.standard[l] == a.standard[l] && b.acquisition[l] == a.acquisition[l] && b.links[l] == a.links[l]
  }

  /** State of the restoring loop: ports below `k` have been carried, the slots of the others still
      hold what they held under the old map. */
  ghost predicate Progress(c0: Cxp, m0: PortMap, c: Cxp, ready: seq<bool>, k: nat)
    requires Sized(c0.ports, c0.n) && Mapped(c) && ValidMap(m0, c0.n) && |ready| == c0.n == c.n
  {
    var m := CurMap(c);
    && c.ports.path == c0.ports.path && c.ports.speed == c0.ports.speed && c.ports.power == c0.ports.power
    && (forall q :: 0 <= q < c.n ==>
          if q < k || !Moved(m0, m, q) then Carried(c0.ports, c.n, q, Log(m0, q), c.ports, Log(m, q), ready[q])
          else Untouched(c0.ports, c.n, c.ports, Log(m, q)))
  }

  lemma ProgressStep(c0: Cxp, m0: PortMap, c: Cxp, d: Cxp, ready: seq<bool>, k: nat)
    requires Sized(c0.ports, c0.n) && Mapped(c) && Mapped(d) && SameMap(c, d) && ValidMap(m0, c0.n) &&
             |ready| == c0.n == c.n
    requires k < c.n && Moved(m0, CurMap(c), k) && Progress(c0, m0, c, ready, k)
    requires d.ports == Restored(c.ports, Log(CurMap(c), k), Save(c0, m0, k), ready[k])
    ensures Progress(c0, m0, d, ready, k + 1)
  {
    var m := CurMap(c);
    forall q | 0 <= q < c.n
      ensures if q < k + 1 || !Moved(m0, m, q) then Carried(c0.ports, c.n, q, Log(m0, q), d.ports, Log(m, q), ready[q])
              else Untouched(c0.ports, c.n, d.ports, Log(m, q))
    {
      if q != k {
        assert Phys(m, Log(m, q)) == q && Phys(m, Log(m, k)) == k;
        assert Log(m, q) != Log(m, k);
      }
    }
  }

  /** The reset register during the loop: already recomputed for the new map, or not yet written
      because every slot visited so far held the right path state by chance. */
  ghost predicate ResetProgress(c0: Cxp, c: Cxp, k: nat)
    requires Mapped(c0) && Mapped(c) && c.n == c0.n
  {
    ResetReg(c) || (SameReg(c0, c) && NothingYet(c0, CurMap(c), k))
  }

  ghost predicate NothingYet(c0: Cxp, m: PortMap, k: nat)
    requires Mapped(c0) && ValidMap(m, c0.n)
  {
    forall q :: 0 <= q < k && q < c0.n && Moved(CurMap(c0), m, q) ==>
        c0.ports.pathLogical[Log(m, q)] == c0.ports.path[q]
  }

  /** If nothing was written, nothing had to be: both maps give the same word. */
  lemma NothingToWrite(c0: Cxp, m: PortMap)
    requires Mapped(c0) && PathsAgree(c0) && ValidMap(m, c0.n) && NothingYet(c0, m, c0.n)
    ensures ResetWord(c0.ports.path, CurMap(c0)) == ResetWord(c0.ports.path, m)
  {
    var m0 := CurMap(c0);
    forall l: nat | l < c0.n
      ensures Phys(m0, l) < c0.n && Phys(m, l) < c0.n && c0.ports.path[Phys(m0, l)] == c0.ports.path[Phys(m, l)]
    {
      var q, q0 := Phys(m, l), Phys(m0, l);
      assert Log(m, q) == l && Log(m0, q0) == l;
      assert c0.ports.pathLogical[Log(m0, q0)] == c0.ports.path[q0];
      if Moved(m0, m, q) {
        assert c0.ports.pathLogical[Log(m, q)] == c0.ports.path[q];
      } else {
        assert Phys(m0, Log(m0, q)) == q;
      }
    }
    var a, b := ResetWord(c0.ports.path, m0), ResetWord(c0.ports.path, m);
    forall k | 0 <= k < 32 ensures a[k] == b[k] {
      if k / 5 < c0.n { assert c0.ports.path[Phys(m0, k / 5)] == c0.ports.path[Phys(m, k / 5)]; }
    }
  }

  /** The settings of the camera on physical port `p`, as its driver sees them. */
  function Camera(c: Cxp, p: nat): Saved
    requires Mapped(c) && p < c.n
  {
    Save(c, CurMap(c), p)
  }

  /** Path state, standard version and acquisition state of every camera are known, as after a reset. */
  ghost predicate AllKnown(c: Cxp)
    requires Mapped(c)
  {
    forall p: nat :: p < c.n ==> Known(Camera(c, p))
  }

  /** One moved port. */
  lemma MovedStep(c0: Cxp, b: Cxp, d: Cxp, v: Saved, ready: seq<bool>, k: nat)
    requires Mapped(c0) && Mapped(b) && 2 <= b.n <= 5 && |ready| == c0.n == b.n && k < b.n
    requires Moved(CurMap(c0), CurMap(b), k) && v == Save(c0, CurMap(c0), k) && Known(v)
    requires Progress(c0, CurMap(c0), b, ready, k) && ResetProgress(c0, b, k)
    requires d == Restore(b, k, v, ready[k])
    ensures Progress(c0, CurMap(c0), d, ready, k + 1) && ResetProgress(c0, d, k + 1)
  {
    RestorePorts(b, k, v, ready[k]);
    RestoreReset(b, k, v, ready[k], d);
    ProgressStep(c0, CurMap(c0), b, d, ready, k);
    assert Untouched(c0.ports, b.n, b.ports, Log(CurMap(b), k));
  }

  lemma StayedStep(c0: Cxp, b: Cxp, ready: seq<bool>, k: nat)
    requires Mapped(c0) && Mapped(b) && |ready| == c0.n == b.n && k < b.n
    requires !Moved(CurMap(c0), CurMap(b), k) && Progress(c0, CurMap(c0), b, ready, k) && ResetProgress(c0, b, k)
    ensures Progress(c0, CurMap(c0), b, ready, k + 1) && ResetProgress(c0, b, k + 1)
  {
  }

  lemma LoopStart(c0: Cxp, c1: Cxp, ready: seq<bool>)
    requires Mapped(c0) && PathsAgree(c0) && Mapped(c1) && c1.n == c0.n == |ready| && c1.ports == c0.ports &&
             SameReg(c0, c1)
    ensures Progress(c0, CurMap(c0), c1, ready, 0) && ResetProgress(c0, c1, 0)
  {
  }

  /** Induction over the restoring loop. */
  lemma {:induction false} LoopInduction(c: Cxp, saved: seq<Saved>, m0: PortMap, ready: seq<bool>, k: nat,
      P: (Cxp, nat) -> bool)
    requires Mapped(c) && c.n <= 5 && k <= c.n == |saved| == |ready| && P(c, 0)
    requires forall b, p {:trigger RestoreMoved(b, m0, p, saved[p], ready[p])} ::
               Mapped(b) && SameMap(c, b) && 0 <= p < c.n && P(b, p) ==>
                   P(RestoreMoved(b, m0, p, saved[p], ready[p]), p + 1)
    ensures P(RestoreUpTo(c, saved, m0, ready, k), k)
  {
    if k > 0 {
      LoopInduction(c, saved, m0, ready, k - 1, P);
      var b := RestoreUpTo(c, saved, m0, ready, k - 1);
      assert P(RestoreMoved(b, m0, k - 1, saved[k - 1], ready[k - 1]), k - 1 + 1);
    }
  }

  lemma RestoreUpToFlat(c: Cxp, saved: seq<Saved>, m0: PortMap, ready: seq<bool>)
    requires Flat(c) && c.n == |saved| == |ready|
    ensures Flat(RestoreUpTo(c, saved, m0, ready, c.n))
  {
    ghost var P := (b: Cxp, p: nat) => Flat(b);
    forall b, p | Mapped(b) && SameMap(c, b) && 0 <= p < c.n && P(b, p)
      ensures P(RestoreMoved(b, m0, p, saved[p], ready[p]), p + 1)
    {
      CallsFlat(b, RestoreCalls(p, saved[p], ready[p]));
    }
    LoopInduction(c, saved, m0, ready, c.n, P);
  }

  ghost predicate AllSaved(c0: Cxp, saved: seq<Saved>)
    requires Mapped(c0)
  {
    |saved| == c0.n && forall p: nat :: p < c0.n ==> saved[p] == Save(c0, CurMap(c0), p)
  }

  ghost predicate LoopState(c0: Cxp, c1: Cxp, ready: seq<bool>, b: Cxp, p: nat)
    requires Mapped(c0) && |ready| == c0.n
  {
    Mapped(b) && SameMap(c1, b) && b.n == c0.n && Progress(c0, CurMap(c0), b, ready, p) && ResetProgress(c0, b, p)
  }

  lemma LoopStep(c0: Cxp, c1: Cxp, saved: seq<Saved>, ready: seq<bool>, b: Cxp, p: nat)
    requires Mapped(c0) && AllKnown(c0) && AllSaved(c0, saved) && p < c0.n == |ready| && c0.n <= 5
    requires LoopState(c0, c1, ready, b, p)
    ensures LoopState(c0, c1, ready, RestoreMoved(b, CurMap(c0), p, saved[p], ready[p]), p + 1)
  {
    if Moved(CurMap(c0), CurMap(b), p) {
      assert Known(Camera(c0, p));
      MovedStep(c0, b, Restore(b, p, saved[p], ready[p]), saved[p], ready, p);
    } else {
      StayedStep(c0, b, ready, p);
    }
  }

  /** The loop, from the state right after the multiplexer was switched. */
  lemma RestoreLoop(c0: Cxp, c1: Cxp, saved: seq<Saved>, ready: seq<bool>)
    requires Mapped(c0) && PathsAgree(c0) && AllKnown(c0)
    requires Mapped(c1) && c1.n <= 5 && c1.n == c0.n == |ready| && c1.ports == c0.ports && SameReg(c0, c1) &&
             AllSaved(c0, saved)
    ensures LoopState(c0, c1, ready, RestoreUpTo(c1, saved, CurMap(c0), ready, c0.n), c0.n)
  {
    LoopStart(c0, c1, ready);
    ghost var P := (b: Cxp, p: nat) => LoopState(c0, c1, ready, b, p);
    forall b, p | Mapped(b) && SameMap(c1, b) && 0 <= p < c1.n && P(b, p)
      ensures P(RestoreMoved(b, CurMap(c0), p, saved[p], ready[p]), p + 1)
    {
      LoopStep(c0, c1, saved, ready, b, p);
    }
    LoopInduction(c1, saved, CurMap(c0), ready, c0.n, P);
  }
}
