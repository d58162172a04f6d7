/** Which frame `men_wait_dmaimg` waits for. Frame counters are 64 bits wide; a 32-bit process can
    name only the low 31 bits of one. */
module FrameWindow {

  const U64: int := 0x1_0000_0000_0000_0000
  const WINDOW: int := 0x8000_0000
  const THRESHOLD: int := 0x3fff_ffff // INT32_MAX / 2

  /** The 31-bit window that holds `v`: its bits above bit 30. */
  function WindowOf(v: nat): nat { v - v % WINDOW }

  /** `img` is positive for an absolute frame number and otherwise relative to `latest`. On the
      32-bit path it has at most 31 bits, so merging it into a window is an addition. */
  function WaitTarget(latest: nat, img: int, is32bit: bool): (w: nat)
    requires latest < U64 && -0x8000_0000_0000_0000 <= img < 0x8000_0000_0000_0000
    requires is32bit && img > 0 ==> img < WINDOW
  {
    if img <= 0 then
      var w := (latest - img) % U64;
      if w < latest then w + 1 else w
    else if !is32bit then img
    else
      var w := img + WindowOf(latest);
      if w < latest && latest - w > THRESHOLD then (w + WINDOW) % U64 else w
  }

  /** The frames whose low bits lead back to them, seen from `latest`. */
  predicate Reaches(latest: nat, t: nat) {
    || (WindowOf(t) == WindowOf(latest) && latest - t <= THRESHOLD)
    || (WindowOf(t) == (WindowOf(latest) + WINDOW) % U64 && (t - latest) % U64 <= THRESHOLD + 1)
  }

  /** The low 31 bits of a frame number identify it exactly when it is in reach. Low bits that are
      all zero mean "the current frame" instead. */
  lemma RebuiltIff(latest: nat, t: nat)
    requires latest < U64 && t < U64
    ensures WaitTarget(latest, t % WINDOW, true) == t <==> if t % WINDOW == 0 then t == latest else Reaches(latest, t)
  {
    var q, p := t / WINDOW, latest / WINDOW;
    assert t == q * WINDOW + t % WINDOW && latest == p * WINDOW + latest % WINDOW;
    assert WindowOf(t) == q * WINDOW && WindowOf(latest) == p * WINDOW;
    if t % WINDOW != 0 {
      var w := t % WINDOW + p * WINDOW;
      assert (w + WINDOW) % U64 == if w + WINDOW < U64 then w + WINDOW else w + WINDOW - U64;
      assert (p * WINDOW + WINDOW) % U64 == if p * WINDOW + WINDOW < U64 then p * WINDOW + WINDOW else 0;
      assert (t - latest) % U64 == if t >= latest then t - latest else t - latest + U64;
    }
  }

  /** Every frame up to 2^30 ahead is in reach. */
  lemma Rebuilt(latest: nat, t: nat)
    requires latest <= t <= latest + 0x4000_0000 && t < U64 && t % WINDOW != 0
    ensures WaitTarget(latest, t % WINDOW, true) == t
  {
    assert t == t / WINDOW * WINDOW + t % WINDOW && latest == latest / WINDOW * WINDOW + latest % WINDOW;
    RebuiltIff(latest, t);
  }

  /** However old the number is, the wait is for a frame near the current one. */
  lemma TargetNear(latest: nat, img: int)
    requires 0 < img < WINDOW && latest + WINDOW <= U64
    ensures latest - THRESHOLD <= WaitTarget(latest, img, true) <= latest + WINDOW - 1
    ensures WaitTarget(latest, img, true) % WINDOW == img
  {
    var p := latest / WINDOW;
    assert WindowOf(latest) == p * WINDOW;
    assert (img + p * WINDOW) % WINDOW == img && (img + (p + 1) * WINDOW) % WINDOW == img;
  }

  /** A relative wait is for that many frames after the current one; the number zero is skipped when
      the counter wraps. */
  lemma RelativeTarget(latest: nat, n: int, is32bit: bool)
    requires latest < U64 && 0 <= n <= 0x8000_0000_0000_0000
    ensures WaitTarget(latest, -n, is32bit) == if latest + n < U64 then latest + n else latest + n - U64 + 1
  {
    if latest + n >= U64 { assert (latest + n) % U64 == latest + n - U64; }
  }

  /** A 64-bit process names the frame itself. */
  lemma AbsoluteTarget(latest: nat, img: int)
    requires latest < U64 && 0 < img < 0x8000_0000_0000_0000
    ensures WaitTarget(latest, img, false) == img
  {
  }
}
