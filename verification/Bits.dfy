/** Machine words as sequences of bits, least significant bit first, with the operators and the
    mask macros the driver is written in. */
module Bits {
  import opened Arith

  type Bits = seq<bool>

  /** A 64-bit word. */
  type Word = w: Bits | |w| == 64 witness Zeros(64)

  type Byte = b: Bits | |b| == 8 witness Zeros(8)

  function Zeros(n: nat): (r: Bits) ensures |r| == n { seq(n, _ => false) }
  function Ones(n: nat): (r: Bits) ensures |r| == n { seq(n, _ => true) }

  function Shl(w: Bits, k: nat): (r: Bits)
    ensures |r| == |w|
  {
    seq(|w|, i requires 0 <= i < |w| => i >= k && w[i - k])
  }

  function Shr(w: Bits, k: nat): (r: Bits)
    ensures |r| == |w|
  {
    seq(|w|, i requires 0 <= i < |w| => i + k < |w| && w[i + k])
  }

  function And(a: Bits, b: Bits): (r: Bits)
    requires |a| == |b|
    ensures |r| == |a|
  {
    seq(|a|, i requires 0 <= i < |a| => a[i] && b[i])
  }

  function Or(a: Bits, b: Bits): (r: Bits)
    requires |a| == |b|
    ensures |r| == |a|
  {
    seq(|a|, i requires 0 <= i < |a| => a[i] || b[i])
  }

  function Not(a: Bits): (r: Bits)
    ensures |r| == |a|
  {
    seq(|a|, i requires 0 <= i < |a| => !a[i])
  }

  /** `GEN_MASK`: the ones from `from` to `to`, by two shifts of an all-ones word. */
  function GenMask(n: nat, from: nat, to: nat): (r: Bits)
    requires from <= to < n
    ensures |r| == n
    ensures forall i :: 0 <= i < n ==> r[i] == (from <= i <= to)
  {
    And(Shr(Ones(n), n - (to + 1)), Shl(Ones(n), from))
  }

  /** `GET_BITS`. */
  function GetBits(w: Bits, from: nat, to: nat): (r: Bits)
    requires from <= to < |w|
    ensures |r| == |w|
    ensures forall i :: 0 <= i < |w| ==> r[i] == (i <= to - from && w[from + i])
  {
    Shr(And(w, GenMask(|w|, from, to)), from)
  }

  /** `SET_BITS`. */
  function SetBits(w: Bits, val: Bits, from: nat, to: nat): (r: Bits)
    requires from <= to < |w| == |val|
    ensures |r| == |w|
    ensures forall i :: 0 <= i < |w| ==> r[i] == if from <= i <= to then val[i - from] else w[i]
  {
    var mask := GenMask(|w|, from, to);
    Or(And(w, Not(mask)), And(Shl(val, from), mask))
  }

  // ---------------------------------------------------------------- numbers

  function ToNat(b: Bits): nat {
    if b == [] then 0 else (if b[0] then 1 else 0) + 2 * ToNat(b[1..])
  }

  function FromNat(n: nat, len: nat): (r: Bits)
    ensures |r| == len
  {
    if len == 0 then [] else [n % 2 == 1] + FromNat(n / 2, len - 1)
  }

  function Pow2(k: nat): (r: nat)
    ensures r >= 1
  {
    if k == 0 then 1 else 2 * Pow2(k - 1)
  }

  /** A number that fits survives the trip through its bits. */
  lemma {:induction false} ToFrom(n: nat, len: nat)
    requires n < Pow2(len)
    ensures ToNat(FromNat(n, len)) == n
  {
    if len > 0 {
      ToFrom(n / 2, len - 1);
      assert FromNat(n, len)[1..] == FromNat(n / 2, len - 1);
    }
  }

  lemma {:induction false} FromTo(b: Bits)
    ensures ToNat(b) < Pow2(|b|) && FromNat(ToNat(b), |b|) == b
  {
    if b != [] { FromTo(b[1..]); }
  }

  /** A multiple of `2^k` has `k` low zero bits. */
  lemma {:induction false} LowZeros(n: nat, k: nat, len: nat)
    requires k <= len && n % Pow2(k) == 0
    ensures forall i :: 0 <= i < k ==> !FromNat(n, len)[i]
  {
    if k > 0 {
      HalfMultiple(n, Pow2(k - 1));
      LowZeros(n / 2, k - 1, len - 1);
    }
  }

  lemma HalfMultiple(n: nat, p: nat)
    requires p >= 1 && n % (2 * p) == 0
    ensures n % 2 == 0 && (n / 2) % p == 0
  {
    var q := n / (2 * p);
    var m := p * q;
    assert n == 2 * m by { assert n == (2 * p) * q; MulAssoc(p, q); }
    DivModUnique(m, p, q, 0);
  }

  lemma MulAssoc(p: int, q: int)
    ensures (2 * p) * q == 2 * (p * q)
  {
  }

  /** Bits beyond the size of a small number are zero. */
  lemma {:induction false} HighZeros(n: nat, k: nat, len: nat)
    requires k <= len && n < Pow2(k)
    ensures forall i :: k <= i < len ==> !FromNat(n, len)[i]
    ensures FromNat(n, len)[..k] == FromNat(n, k)
  {
    if len > 0 {
      if k > 0 {
        HighZeros(n / 2, k - 1, len - 1);
      } else {
        HighZeros(0, 0, len - 1);
      }
    }
  }
}
