/** Port maps as the 64-bit words of the driver's tables: sixteen 4-bit numbers, the low eight from
    logical to physical, the high eight back. */
module CxpTables {
  import opened CxpModel
  import opened CxpCoherence
  import opened CxpRemap
  import opened CxpRuns

  /** `(w >> (4 * k)) & 0xf`. */
  function Nibble(w: nat, k: nat): (r: nat)
    ensures r < 16
  {
    if k == 0 then w % 16 else Nibble(w / 16, k - 1)
  }

  /** The two translation functions on one word. */
  function FromCode(w: nat): PortMap {
    PortMap(seq(8, l requires 0 <= l < 8 => Nibble(w, l)), seq(8, p requires 0 <= p < 8 => Nibble(w, 8 + p)))
  }

  function Pow16(k: nat): (r: nat) ensures r > 0 { if k == 0 then 1 else 16 * Pow16(k - 1) }

  lemma {:induction false} NibblesDecide(a: nat, b: nat, k: nat)
    requires a < Pow16(k) && b < Pow16(k) && forall i :: 0 <= i < k ==> Nibble(a, i) == Nibble(b, i)
    ensures a == b
  {
    if k > 0 {
      assert Nibble(a, 0) == Nibble(b, 0);
      forall i | 0 <= i < k - 1 ensures Nibble(a / 16, i) == Nibble(b / 16, i) {
        assert Nibble(a, i + 1) == Nibble(b, i + 1);
      }
      NibblesDecide(a / 16, b / 16, k - 1);
    }
  }

  /** Two words are the same map only if they are the same word, so comparing maps is comparing words. */
  lemma CodeInjective(a: nat, b: nat)
    requires a < Pow16(16) && b < Pow16(16) && FromCode(a) == FromCode(b)
    ensures a == b
  {
    forall i | 0 <= i < 16 ensures Nibble(a, i) == Nibble(b, i) {
      if i < 8 {
        assert FromCode(a).phys[i] == FromCode(b).phys[i];
      } else {
        assert FromCode(a).log[i - 8] == FromCode(b).log[i - 8];
      }
    }
    NibblesDecide(a, b, 16);
  }

  // ---------------------------------------------------------------- encoding

  /** Half a word from its eight numbers. */
  function Half(s: seq<nat>): nat
    requires |s| == 8
  {
    s[0] + 16 * (s[1] + 16 * (s[2] + 16 * (s[3] + 16 * (s[4] + 16 * (s[5] + 16 * (s[6] + 16 * s[7]))))))
  }

  function ToCode(m: PortMap): nat
    requires |m.phys| == |m.log| == 8
  {
    Half(m.phys) + 0x1_0000_0000 * Half(m.log)
  }

  lemma Peel(w: nat, a: nat, rest: nat, k: nat)
    requires w == a + 16 * rest && a < 16
    ensures Nibble(w, 0) == a && Nibble(w, k + 1) == Nibble(rest, k)
  {
  }

  lemma HalfNibbles(s: seq<nat>, hi: nat, k: nat)
    requires |s| == 8 && (forall i :: 0 <= i < 8 ==> s[i] < 16)
    ensures k < 8 ==> Nibble(Half(s) + 0x1_0000_0000 * hi, k) == s[k]
    ensures Nibble(Half(s) + 0x1_0000_0000 * hi, 8 + k) == Nibble(hi, k)
  {
    var w7 := s[7] + 16 * hi;
    var w6 := s[6] + 16 * w7;
    var w5 := s[5] + 16 * w6;
    var w4 := s[4] + 16 * w5;
    var w3 := s[3] + 16 * w4;
    var w2 := s[2] + 16 * w3;
    var w1 := s[1] + 16 * w2;
    var w0 := s[0] + 16 * w1;
    assert w0 == Half(s) + 0x1_0000_0000 * hi;
    var f := k + 8;
    Peel(w0, s[0], w1, f - 1); Peel(w1, s[1], w2, f - 2); Peel(w2, s[2], w3, f - 3); Peel(w3, s[3], w4, f - 4);
    Peel(w4, s[4], w5, f - 5); Peel(w5, s[5], w6, f - 6); Peel(w6, s[6], w7, f - 7); Peel(w7, s[7], hi, f - 8);
    if k < 8 { NibbleOfEight(w0, w1, w2, w3, w4, w5, w6, w7, k); }
  }

  lemma NibbleOfFour(w0: nat, w1: nat, w2: nat, w3: nat, k: nat)
    requires w0 / 16 == w1 && w1 / 16 == w2 && w2 / 16 == w3 && k < 4
    ensures Nibble(w0, k) == [w0 % 16, w1 % 16, w2 % 16, w3 % 16][k]
  {
    if k == 2 { assert Nibble(w1, 1) == Nibble(w2, 0); }
    if k == 3 { assert Nibble(w1, 2) == Nibble(w2, 1) == Nibble(w3, 0); }
  }

  /** Skipping `k` nibbles one by one. */
  lemma NibbleOfEight(w0: nat, w1: nat, w2: nat, w3: nat, w4: nat, w5: nat, w6: nat, w7: nat, k: nat)
    requires w0 / 16 == w1 && w1 / 16 == w2 && w2 / 16 == w3 && w3 / 16 == w4 && w4 / 16 == w5 && w5 / 16 == w6 &&
             w6 / 16 == w7 && k < 8
    ensures Nibble(w0, k) == [w0 % 16, w1 % 16, w2 % 16, w3 % 16, w4 % 16, w5 % 16, w6 % 16, w7 % 16][k]
  {
    if k >= 4 {
      assert Nibble(w0, k) == Nibble(w1, k - 1) == Nibble(w2, k - 2) == Nibble(w3, k - 3) == Nibble(w4, k - 4);
      NibbleOfFour(w4, w5, w6, w7, k - 4);
    } else {
      NibbleOfFour(w0, w1, w2, w3, k);
    }
  }

  /** Encoding and decoding a map are inverse. */
  lemma CodeRoundTrip(m: PortMap)
    requires |m.phys| == |m.log| == 8 && forall i :: 0 <= i < 8 ==> m.phys[i] < 16 && m.log[i] < 16
    ensures FromCode(ToCode(m)) == m
  {
    var d := FromCode(ToCode(m));
    forall i | 0 <= i < 8 ensures d.phys[i] == m.phys[i] && d.log[i] == m.log[i] {
      HalfNibbles(m.phys, Half(m.log), i);
      HalfNibbles(m.log, 0, i);
    }
  }

  const INVALID_CODE: nat := 0xffff_ffff_ffff_ffff
  const IDENTITY_CODE: nat := 0x7654_3210_7654_3210

  /** The two words the driver compares with by name. */
  lemma SpecialCodes()
    ensures FromCode(INVALID_CODE) == INVALID_MAP && FromCode(IDENTITY_CODE) == IDENTITY_MAP
  {
    assert ToCode(INVALID_MAP) == 0xffff_ffff_ffff_ffff;
    CodeRoundTrip(INVALID_MAP);
    assert ToCode(IDENTITY_MAP) == 0x7654_3210_7654_3210;
    CodeRoundTrip(IDENTITY_MAP);
  }

  // ---------------------------------------------------------------- the tables

  /** An entry that permutes the first four ports. */
  function Four(a: nat, b: nat, c: nat, d: nat, e: nat, f: nat, g: nat, h: nat): PortMap {
    PortMap([a, b, c, d, 4, 5, 6, 7], [e, f, g, h, 4, 5, 6, 7])
  }

  const MAPS_1 := [IDENTITY_MAP, INVALID_MAP]
  const MAPS_2 := [IDENTITY_MAP, Four(1, 0, 2, 3, 1, 0, 2, 3), INVALID_MAP]
  const MAPS_4_A := [Four(0, 1, 2, 3, 0, 1, 2, 3), Four(0, 1, 3, 2, 0, 1, 3, 2), Four(0, 2, 1, 3, 0, 2, 1, 3)]
  const MAPS_4_B := [Four(0, 2, 3, 1, 0, 3, 1, 2), Four(0, 3, 1, 2, 0, 2, 3, 1), Four(0, 3, 2, 1, 0, 3, 2, 1)]
  const MAPS_4_C := [Four(1, 0, 2, 3, 1, 0, 2, 3), Four(1, 0, 3, 2, 1, 0, 3, 2), Four(1, 2, 0, 3, 2, 0, 1, 3)]
  const MAPS_4_D := [Four(1, 2, 3, 0, 3, 0, 1, 2), Four(1, 3, 0, 2, 2, 0, 3, 1), Four(1, 3, 2, 0, 3, 0, 2, 1)]
  const MAPS_4_E := [Four(2, 0, 1, 3, 1, 2, 0, 3), Four(2, 0, 3, 1, 1, 3, 0, 2), Four(2, 1, 0, 3, 2, 1, 0, 3)]
  const MAPS_4_F := [Four(2, 1, 3, 0, 3, 1, 0, 2), Four(2, 3, 0, 1, 2, 3, 0, 1), Four(2, 3, 1, 0, 3, 2, 0, 1)]
  const MAPS_4_G := [Four(3, 0, 1, 2, 1, 2, 3, 0), Four(3, 0, 2, 1, 1, 3, 2, 0), Four(3, 1, 0, 2, 2, 1, 3, 0)]
  const MAPS_4_H := [Four(3, 1, 2, 0, 3, 1, 2, 0), Four(3, 2, 0, 1, 2, 3, 1, 0), Four(3, 2, 1, 0, 3, 2, 1, 0)]
  const MAPS_4 :=
    (MAPS_4_A + MAPS_4_B + (MAPS_4_C + MAPS_4_D)) + (MAPS_4_E + MAPS_4_F + (MAPS_4_G + MAPS_4_H)) + [INVALID_MAP]

  /** The words of the tables, group by group. */
  const CODES_4_A: seq<nat> := [0x7654_3210_7654_3210, 0x7654_2310_7654_2310, 0x7654_3120_7654_3120]
  const CODES_4_B: seq<nat> := [0x7654_2130_7654_1320, 0x7654_1320_7654_2130, 0x7654_1230_7654_1230]
  const CODES_4_C: seq<nat> := [0x7654_3201_7654_3201, 0x7654_2301_7654_2301, 0x7654_3102_7654_3021]
  const CODES_4_D: seq<nat> := [0x7654_2103_7654_0321, 0x7654_1302_7654_2031, 0x7654_1203_7654_0231]
  const CODES_4_E: seq<nat> := [0x7654_3021_7654_3102, 0x7654_2031_7654_1302, 0x7654_3012_7654_3012]
  const CODES_4_F: seq<nat> := [0x7654_2013_7654_0312, 0x7654_1032_7654_1032, 0x7654_1023_7654_0132]
  const CODES_4_G: seq<nat> := [0x7654_0321_7654_2103, 0x7654_0231_7654_1203, 0x7654_0312_7654_2013]
  const CODES_4_H: seq<nat> := [0x7654_0213_7654_0213, 0x7654_0132_7654_1023, 0x7654_0123_7654_0123]
  const CODES_1: seq<nat> := [IDENTITY_CODE, INVALID_CODE]
  const CODES_2: seq<nat> := [IDENTITY_CODE, 0x7654_3201_7654_3201, INVALID_CODE]
  const CODES_4: seq<nat> :=
    (CODES_4_A + CODES_4_B + (CODES_4_C + CODES_4_D)) +
    (CODES_4_E + CODES_4_F + (CODES_4_G + CODES_4_H)) + [INVALID_CODE]

  /** Every word decodes to its map, and the map is a valid one. */
  predicate Entries(codes: seq<nat>, maps: seq<PortMap>, n: nat) {
    |codes| == |maps| && forall i :: 0 <= i < |maps| ==> Entry(codes[i], maps[i], n)
  }

  predicate Entry(code: nat, m: PortMap, n: nat) { FromCode(code) == m && m != INVALID_MAP && ValidMap(m, n) }

  /** Half a word that permutes the first four ports. */
  function FourHalf(a: nat, b: nat, c: nat, d: nat): nat {
    a + 0x10 * b + 0x100 * c + 0x1000 * d + 0x7654_0000
  }

  lemma FourHalfIs(a: nat, b: nat, c: nat, d: nat)
    ensures Half([a, b, c, d, 4, 5, 6, 7]) == FourHalf(a, b, c, d)
  {
  }

  function Pick(a: nat, b: nat, c: nat, d: nat, i: nat): nat {
    if i == 0 then a else if i == 1 then b else if i == 2 then c else d
  }

  /** First one half, then the other, for the first four ports. */
  function Through(a: nat, b: nat, c: nat, d: nat, e: nat, f: nat, g: nat, h: nat): (nat, nat, nat, nat) {
    (Pick(a, b, c, d, e), Pick(a, b, c, d, f), Pick(a, b, c, d, g), Pick(a, b, c, d, h))
  }

  lemma FourValid(a: nat, b: nat, c: nat, d: nat, e: nat, f: nat, g: nat, h: nat)
    requires a < 4 && b < 4 && c < 4 && d < 4 && e < 4 && f < 4 && g < 4 && h < 4
    requires Through(a, b, c, d, e, f, g, h) == Through(e, f, g, h, a, b, c, d) == (0, 1, 2, 3)
    ensures ValidMap(Four(a, b, c, d, e, f, g, h), 4)
  {
    var m := Four(a, b, c, d, e, f, g, h);
    forall p {:trigger Log(m, p)} | 0 <= p < 4 ensures Log(m, p) < 4 && Phys(m, Log(m, p)) == p {
      Picked(m.phys, a, b, c, d, Log(m, p));
    }
    forall l {:trigger Phys(m, l)} | 0 <= l < 4 ensures Phys(m, l) < 4 && Log(m, Phys(m, l)) == l {
      Picked(m.log, e, f, g, h, Phys(m, l));
    }
  }

  lemma Picked(s: seq<nat>, a: nat, b: nat, c: nat, d: nat, i: nat)
    requires s == [a, b, c, d, 4, 5, 6, 7]
    ensures i < 4 ==> s[i] == Pick(a, b, c, d, i)
  {
  }

  lemma FourCode(a: nat, b: nat, c: nat, d: nat, e: nat, f: nat, g: nat, h: nat, code: nat)
    requires a < 4 && b < 4 && c < 4 && d < 4 && e < 4 && f < 4 && g < 4 && h < 4
    requires code == FourHalf(a, b, c, d) + 0x1_0000_0000 * FourHalf(e, f, g, h)
    ensures FromCode(code) == Four(a, b, c, d, e, f, g, h)
  {
    FourHalfIs(a, b, c, d);
    FourHalfIs(e, f, g, h);
    CodeRoundTrip(Four(a, b, c, d, e, f, g, h));
  }

  /** An entry, given by the eight numbers that are not fixed. */
  lemma FourEntry(a: nat, b: nat, c: nat, d: nat, e: nat, f: nat, g: nat, h: nat, code: nat)
    requires a < 4 && b < 4 && c < 4 && d < 4 && e < 4 && f < 4 && g < 4 && h < 4
    requires Through(a, b, c, d, e, f, g, h) == Through(e, f, g, h, a, b, c, d) == (0, 1, 2, 3)
    requires code == FourHalf(a, b, c, d) + 0x1_0000_0000 * FourHalf(e, f, g, h)
    ensures Entry(code, Four(a, b, c, d, e, f, g, h), 4)
  {
    FourCode(a, b, c, d, e, f, g, h, code);
    FourValid(a, b, c, d, e, f, g, h);
    assert Four(a, b, c, d, e, f, g, h).phys[0] != INVALID_MAP.phys[0];
  }

  lemma Join(a: seq<nat>, b: seq<nat>, s: seq<PortMap>, t: seq<PortMap>, n: nat)
    requires Entries(a, s, n) && Entries(b, t, n)
    ensures Entries(a + b, s + t, n)
  {
  }

  /** A table of words and the maps they decode to, both ended by the invalid entry. */
  predicate Decoded(codes: seq<nat>, maps: seq<PortMap>) {
    |codes| == |maps| && forall i :: 0 <= i < |maps| ==> FromCode(codes[i]) == maps[i]
  }

  lemma BoardOf(codes: seq<nat>, maps: seq<PortMap>, n: nat)
    requires 0 < n <= 5 && Entries(codes, maps, n) && |maps| > 0 && maps[0] == IDENTITY_MAP
    ensures Board(n, maps + [INVALID_MAP]) && Decoded(codes + [INVALID_CODE], maps + [INVALID_MAP])
  {
    SpecialCodes();
    assert (maps + [INVALID_MAP])[0] == IDENTITY_MAP;
  }

  lemma FirstSix()
    ensures Entries(CODES_4_A, MAPS_4_A, 4) && Entries(CODES_4_B, MAPS_4_B, 4)
  {
    FourEntry(0, 1, 2, 3, 0, 1, 2, 3, CODES_4_A[0]);
    FourEntry(0, 1, 3, 2, 0, 1, 3, 2, CODES_4_A[1]);
    FourEntry(0, 2, 1, 3, 0, 2, 1, 3, CODES_4_A[2]);
    FourEntry(0, 2, 3, 1, 0, 3, 1, 2, CODES_4_B[0]);
    FourEntry(0, 3, 1, 2, 0, 2, 3, 1, CODES_4_B[1]);
    FourEntry(0, 3, 2, 1, 0, 3, 2, 1, CODES_4_B[2]);
  }

  lemma SecondSix()
    ensures Entries(CODES_4_C, MAPS_4_C, 4) && Entries(CODES_4_D, MAPS_4_D, 4)
  {
    FourEntry(1, 0, 2, 3, 1, 0, 2, 3, CODES_4_C[0]);
    FourEntry(1, 0, 3, 2, 1, 0, 3, 2, CODES_4_C[1]);
    FourEntry(1, 2, 0, 3, 2, 0, 1, 3, CODES_4_C[2]);
    FourEntry(1, 2, 3, 0, 3, 0, 1, 2, CODES_4_D[0]);
    FourEntry(1, 3, 0, 2, 2, 0, 3, 1, CODES_4_D[1]);
    FourEntry(1, 3, 2, 0, 3, 0, 2, 1, CODES_4_D[2]);
  }

  lemma ThirdSix()
    ensures Entries(CODES_4_E, MAPS_4_E, 4) && Entries(CODES_4_F, MAPS_4_F, 4)
  {
    FourEntry(2, 0, 1, 3, 1, 2, 0, 3, CODES_4_E[0]);
    FourEntry(2, 0, 3, 1, 1, 3, 0, 2, CODES_4_E[1]);
    FourEntry(2, 1, 0, 3, 2, 1, 0, 3, CODES_4_E[2]);
    FourEntry(2, 1, 3, 0, 3, 1, 0, 2, CODES_4_F[0]);
    FourEntry(2, 3, 0, 1, 2, 3, 0, 1, CODES_4_F[1]);
    FourEntry(2, 3, 1, 0, 3, 2, 0, 1, CODES_4_F[2]);
  }

  lemma LastSix()
    ensures Entries(CODES_4_G, MAPS_4_G, 4) && Entries(CODES_4_H, MAPS_4_H, 4)
  {
    FourEntry(3, 0, 1, 2, 1, 2, 3, 0, CODES_4_G[0]);
    FourEntry(3, 0, 2, 1, 1, 3, 2, 0, CODES_4_G[1]);
    FourEntry(3, 1, 0, 2, 2, 1, 3, 0, CODES_4_G[2]);
    FourEntry(3, 1, 2, 0, 3, 1, 2, 0, CODES_4_H[0]);
    FourEntry(3, 2, 0, 1, 2, 3, 1, 0, CODES_4_H[1]);
    FourEntry(3, 2, 1, 0, 3, 2, 1, 0, CODES_4_H[2]);
  }

  lemma FourTable()
    ensures Board(4, MAPS_4) && Decoded(CODES_4, MAPS_4)
  {
    FirstSix();
    SecondSix();
    Join(CODES_4_A, CODES_4_B, MAPS_4_A, MAPS_4_B, 4);
    Join(CODES_4_C, CODES_4_D, MAPS_4_C, MAPS_4_D, 4);
    var first, maps := CODES_4_A + CODES_4_B + (CODES_4_C + CODES_4_D), MAPS_4_A + MAPS_4_B + (MAPS_4_C + MAPS_4_D);
    Join(CODES_4_A + CODES_4_B, CODES_4_C + CODES_4_D, MAPS_4_A + MAPS_4_B, MAPS_4_C + MAPS_4_D, 4);
    ThirdSix();
    LastSix();
    Join(CODES_4_E, CODES_4_F, MAPS_4_E, MAPS_4_F, 4);
    Join(CODES_4_G, CODES_4_H, MAPS_4_G, MAPS_4_H, 4);
    var last, more := CODES_4_E + CODES_4_F + (CODES_4_G + CODES_4_H), MAPS_4_E + MAPS_4_F + (MAPS_4_G + MAPS_4_H);
    Join(CODES_4_E + CODES_4_F, CODES_4_G + CODES_4_H, MAPS_4_E + MAPS_4_F, MAPS_4_G + MAPS_4_H, 4);
    Join(first, last, maps, more, 4);
    BoardOf(first + last, maps + more, 4);
  }

  lemma OneTable()
    ensures Board(1, MAPS_1) && Decoded(CODES_1, MAPS_1)
  {
    SpecialCodes();
    assert MAPS_1[0] == IDENTITY_MAP && MAPS_1[0].phys[0] != INVALID_MAP.phys[0];
  }

  lemma TwoTable()
    ensures Board(2, MAPS_2) && Decoded(CODES_2, MAPS_2)
  {
    SpecialCodes();
    FourCode(1, 0, 2, 3, 1, 0, 2, 3, CODES_2[1]);
    assert MAPS_2[0] == IDENTITY_MAP && MAPS_2[1].phys[0] != INVALID_MAP.phys[0];
  }

  /** The 64-bit words of the tables for boards with one, two and four ports decode to valid maps only, the identity
      among them, up to the invalid word at the end. */
  lemma TablesValid()
    ensures Board(1, MAPS_1) && Decoded(CODES_1, MAPS_1)
    ensures Board(2, MAPS_2) && Decoded(CODES_2, MAPS_2)
    ensures Board(4, MAPS_4) && Decoded(CODES_4, MAPS_4)
  {
    OneTable();
    TwoTable();
    FourTable();
  }

  // ---------------------------------------------------------------- a speed change that is not acknowledged

  lemma SwitchedToIdentity(n: nat, maps: seq<PortMap>, ready: seq<bool>)
    requires Board(n, maps) && |ready| == n
    ensures CurMap(SetPortMap(Fresh(n, maps), IDENTITY_MAP, ready).0) == IDENTITY_MAP
  {
    FindMapFinds(maps, IDENTITY_MAP, 0);
  }

  /** A board with two ports after a reset. */
  function AfterFirstReset(): Cxp
    requires Board(2, MAPS_2) && Mapped(SetPortMap(Fresh(2, MAPS_2), IDENTITY_MAP, [true, true]).0)
  {
    Reset(Fresh(2, MAPS_2), [true, true], [true, true])
  }

  lemma FirstReset() returns (c: Cxp)
    ensures Board(2, MAPS_2) && Mapped(SetPortMap(Fresh(2, MAPS_2), IDENTITY_MAP, [true, true]).0)
    ensures c == AfterFirstReset() && Safe(c) && UplinksMatch(c) && c.n == 2 && c.maps == MAPS_2 &&
            CurMap(c) == IDENTITY_MAP
    ensures Camera(c, 0).speed == Camera(c, 1).speed == S3125
  {
    TwoTable();
    FirstSwitch(2, MAPS_2, [true, true]);
    var d := SetPortMap(Fresh(2, MAPS_2), IDENTITY_MAP, [true, true]).0;
    SwitchedToIdentity(2, MAPS_2, [true, true]);
    c := AfterFirstReset();
    ResetSafe(Fresh(2, MAPS_2), [true, true], [true, true]);
    ResetPortsUplinks(d, [true, true]);
    ResetSets(d, [true, true], 0);
    ResetSets(d, [true, true], 1);
  }

  lemma OneSetter(b: Cxp, call: Call, c: Cxp)
    requires Safe(b) && UplinksMatch(b) && c == Set(b, call).0
    ensures c == Run(b, [Setter(call)], 1) && Safe(c) && UplinksMatch(c) && SameMap(b, c)
  {
    SetCoherent(b, call);
    SetKeepsKnown(b, call);
    SetKeepsUplinks(b, call);
    OneAction(b, Setter(call));
  }

  lemma OneAction(b: Cxp, a: Action)
    ensures Run(b, [a], 1) == Perform(b, a)
  {
    assert Run(b, [a], 0) == b;
  }

  /** After a reset, one camera is set to a speed with the other uplink. */
  lemma TwoSpeeds() returns (c: Cxp)
    ensures Board(2, MAPS_2) && Mapped(SetPortMap(Fresh(2, MAPS_2), IDENTITY_MAP, [true, true]).0)
    ensures c == Run(AfterFirstReset(), [Setter(Speed(0, S12500, true, true))], 1)
    ensures Safe(c) && UplinksMatch(c) && c.n == 2 && c.maps == MAPS_2 && CurMap(c) == IDENTITY_MAP
    ensures Camera(c, 0).speed == S12500 && Camera(c, 1).speed == S3125
  {
    var b := FirstReset();
    var call := Speed(0, S12500, true, true);
    c := Set(b, call).0;
    OneSetter(b, call, c);
    FasterCamera(b, c);
  }

  lemma FasterCamera(b: Cxp, c: Cxp)
    requires Mapped(b) && b.n == 2 && Camera(b, 1).speed == S3125 && c == Set(b, Speed(0, S12500, true, true)).0
    ensures Camera(c, 0).speed == S12500 && Camera(c, 1).speed == S3125
  {
    SetCamera(b, Speed(0, S12500, true, true), 0);
    SetCamera(b, Speed(0, S12500, true, true), 1);
  }

  lemma SwapFound(c: Cxp, m: PortMap, ready: seq<bool>)
    requires WellFormed(c) && Mapped(c) && c.maps == MAPS_2 && m == MAPS_2[1] && |ready| == c.n
    ensures SetPortMap(c, m, ready).1 == Ok
  {
    assert m in c.maps && m.phys[0] != INVALID_MAP.phys[0];
    MapAccepted(c, m, ready);
  }

  lemma SwapUplinks(c: Cxp, d: Cxp, m: PortMap, ready: seq<bool>)
    requires Mapped(c) && UplinksMatch(c) && c.n == 2 && CurMap(c) == IDENTITY_MAP && m == MAPS_2[1] &&
             ready == [false, false]
    requires Camera(c, 0).speed == S12500 && Camera(c, 1).speed == S3125
    requires ValidMap(m, 2) && Remapped(c, d, m, ready)
    ensures UplinkOf(d, 0) == UpLow && UplinkOf(d, 1) == UpHigh
  {
    assert UplinkOf(c, 0) == UpHigh && UplinkOf(c, 1) == UpLow;
    assert UplinkCarried(c, d, m, ready[0], 0) && UplinkCarried(c, d, m, ready[1], 1);
  }

  /** A run that ends with both cameras at the other one's uplink speed: a reset, a speed change, and a swap of the two
      ports that reports success although neither answered in time. */
  lemma SwapLosesUplink() returns (c: Cxp, d: Cxp)
    ensures Board(2, MAPS_2) && Mapped(SetPortMap(Fresh(2, MAPS_2), IDENTITY_MAP, [true, true]).0)
    ensures c == Run(AfterFirstReset(), [Setter(Speed(0, S12500, true, true))], 1) && Safe(c) && UplinksMatch(c) &&
            c.n == 2
    ensures SetPortMap(c, MAPS_2[1], [false, false]) == (d, Ok) && Mapped(d) && d.n == 2
    ensures Camera(d, 0).speed == S12500 && UplinkOf(d, 0) == UpLow
    ensures Camera(d, 1).speed == S3125 && UplinkOf(d, 1) == UpHigh
  {
    c := TwoSpeeds();
    var m, ready := MAPS_2[1], [false, false];
    SwapFound(c, m, ready);
    RemapCarries(c, m, ready);
    d := SetPortMap(c, m, ready).0;
    SwapUplinks(c, d, m, ready);
    assert Camera(d, 0) == Camera(c, 0) && Camera(d, 1) == Camera(c, 1);
  }
}
