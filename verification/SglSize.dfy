/** The size word of a scatter-gather entry: how many PCI transfers, and the length of the last one.
    Three encoders compute it; the hardware reads a zero field as the largest value. */
module SglSize {
  import opened Arith

  const MAX_TRANSFERS: nat := 0x8000 // BIT(15)
  const MAX_LAST: nat := 0x100       // BIT(8), in 32-bit words

  predicate Payload(p: nat) { p == 128 || p == 256 || p == 512 || p == 1024 }

  /** Bytes until the first payload boundary. */
  function First(offset: nat, payload: nat): (f: nat)
    requires payload > 0
    ensures 0 < f <= payload
  {
    payload - offset % payload
  }

  /** Number of transfers and length of the last one, as both exact encoders compute them. */
  function Transfers(offset: nat, size: nat, payload: nat): nat
    requires payload > 0
  {
    if size <= First(offset, payload) then 1
    else 1 + (size - First(offset, payload) + payload - 1) / payload
  }

  function LastTransfer(offset: nat, size: nat, payload: nat): nat
    requires payload > 0
  {
    if size <= First(offset, payload) then size
    else if (size - First(offset, payload)) % payload == 0 then payload
    else (size - First(offset, payload)) % payload
  }

  /** The two fields; `transferLimit` is the number of values of the lower one. */
  function Pack(transfers: nat, lastWords: nat, transferLimit: nat): nat
    requires transferLimit > 0
  {
    transfers % transferLimit + lastWords % MAX_LAST * MAX_TRANSFERS
  }

  /** `me6_sgl_size`, up to its BUG_ON. */
  function KernelSize(offset: nat, size: nat, payload: nat): nat
    requires payload > 0
  {
    var first := FirstTransfer(offset, payload);
    if size <= first then Pack(1, size / 4, MAX_TRANSFERS) else BeyondFirst(size - first, payload)
  }

  function FirstTransfer(offset: nat, payload: nat): (f: nat)
    requires payload > 0
    ensures 0 < f <= payload
  {
    if offset % payload == 0 then payload else payload - offset % payload
  }

  function BeyondFirst(rest: nat, payload: nat): nat
    requires payload > 0
  {
    var n := 1 + rest / payload;
    var last := rest % payload;
    if last == 0 then Pack(n, payload / 4, MAX_TRANSFERS) else Pack(n + 1, last / 4, MAX_TRANSFERS)
  }

  /** `men_generate_page_group_size` for the device-to-host layout: the transfer count gets only as
      many bits as the field for the last transfer has, which is 8. */
  function LibrarySize(offset: nat, size: nat, payload: nat): nat
    requires payload > 0
  {
    Pack(Transfers(offset, size, payload), LastTransfer(offset, size, payload) / 4, 0x100)
  }

  /** `compute_group_size`. The payload size is a power of two, so its mask is a remainder. */
  function GroupSize(offset: nat, size: nat, payload: nat): nat
    requires payload > 0
  {
    var aligned := size + offset % payload;
    var last := if aligned % payload == 0 then payload else aligned % payload;
    Pack((aligned + payload - 1) / payload, last / 4, MAX_TRANSFERS)
  }

  /** What the hardware transfers for a size word at a given offset. */
  function Decode(word: nat, offset: nat, payload: nat): nat
    requires payload > 0
  {
    var transfers := if word % MAX_TRANSFERS == 0 then MAX_TRANSFERS else word % MAX_TRANSFERS;
    var words := word / MAX_TRANSFERS % MAX_LAST;
    var last := 4 * (if words == 0 then MAX_LAST else words);
    if transfers == 1 then last else First(offset, payload) + (transfers - 2) * payload + last
  }

  /** The hardware format can express this many transfers. Lengths need not be whole words. */
  predicate Fits(offset: nat, size: nat, payload: nat)
    requires payload > 0
  {
    size > 0 && offset % 4 == 0 && Transfers(offset, size, payload) <= MAX_TRANSFERS
  }

  /** What the engine makes of a last transfer of so many bytes: a length in words loses the rest, and
      a length below one word reads as the greatest. */
  function InWords(last: nat): nat {
    if last < 4 then 4 * MAX_LAST else last - last % 4
  }

  /** The greatest chunk that the second library builder merges. */
  function MaxChunk(payload: nat): nat { MAX_TRANSFERS * payload }

  lemma CeilDiv(x: nat, p: nat)
    requires p > 0
    ensures (x + p - 1) / p == if x % p == 0 then x / p else x / p + 1
  {
    var q := x / p;
    if x % p == 0 { DivModUnique(x + p - 1, p, q, p - 1); }
    else {
      assert x + p - 1 == p * (q + 1) + (x % p - 1) by { assert p * (q + 1) == p * q + p; }
      DivModUnique(x + p - 1, p, q + 1, x % p - 1);
    }
  }

  /** The kernel's sums are the common ones. */
  lemma KernelSizeIs(offset: nat, size: nat, payload: nat)
    requires payload > 0
    ensures KernelSize(offset, size, payload) ==
            Pack(Transfers(offset, size, payload), LastTransfer(offset, size, payload) / 4, MAX_TRANSFERS)
  {
    if size > First(offset, payload) { CeilDiv(size - First(offset, payload), payload); }
  }

  /** All but the first and last transfer are full. */
  lemma TransfersAddUp(offset: nat, size: nat, payload: nat)
    requires Payload(payload) && size > 0
    ensures size == if Transfers(offset, size, payload) == 1 then LastTransfer(offset, size, payload)
                    else First(offset, payload) + (Transfers(offset, size, payload) - 2) * payload +
                         LastTransfer(offset, size, payload)
    ensures 1 <= LastTransfer(offset, size, payload) <= payload
    ensures Transfers(offset, size, payload) == 1 <==> size <= First(offset, payload)
  {
    if size > First(offset, payload) {
      var rest := size - First(offset, payload);
      CeilDiv(rest, payload);
      assert rest == rest / payload * payload + rest % payload;
    }
  }

  lemma FirstAligned(offset: nat, payload: nat)
    requires Payload(payload) && offset % 4 == 0
    ensures First(offset, payload) % 4 == 0
  {
    Mod4(offset, payload);
  }

  lemma LastRest(offset: nat, size: nat, payload: nat)
    requires Payload(payload) && offset % 4 == 0
    ensures LastTransfer(offset, size, payload) % 4 == size % 4
  {
    FirstAligned(offset, payload);
    if size > First(offset, payload) {
      LessWords(size, First(offset, payload));
      RestInWords(size - First(offset, payload), payload);
    }
  }

  lemma LessWords(size: nat, first: nat)
    requires first <= size && first % 4 == 0
    ensures (size - first) % 4 == size % 4
  {
  }

  lemma RestInWords(x: nat, p: nat)
    requires Payload(p)
    ensures x % p % 4 == x % 4
  {
    var q, r := x / p, x % p;
    assert x == 4 * (p / 4 * q + r / 4) + r % 4 by { assert x == p * q + r && p == 4 * (p / 4); }
    DivModUnique(x, 4, p / 4 * q + r / 4, r % 4);
  }

  lemma Mod4(x: nat, p: nat)
    requires Payload(p) && x % 4 == 0
    ensures x % p % 4 == 0
  {
  }

  lemma PackFields(n: nat, words: nat)
    requires 1 <= n <= MAX_TRANSFERS && words <= MAX_LAST
    ensures var w := Pack(n, words, MAX_TRANSFERS);
            && (if w % MAX_TRANSFERS == 0 then MAX_TRANSFERS else w % MAX_TRANSFERS) == n
            && (if w / MAX_TRANSFERS % MAX_LAST == 0 then MAX_LAST else w / MAX_TRANSFERS % MAX_LAST) ==
               if words == 0 then MAX_LAST else words
  {
  }

  lemma DecodePacked(n: nat, last: nat, offset: nat, payload: nat)
    requires Payload(payload) && 1 <= n <= MAX_TRANSFERS && last <= payload
    ensures Decode(Pack(n, last / 4, MAX_TRANSFERS), offset, payload) ==
            if n == 1 then InWords(last) else First(offset, payload) + (n - 2) * payload + InWords(last)
  {
    PackFields(n, last / 4);
  }

  /** What the kernel's size word makes the engine transfer: the exact length if and only if that is a
      whole number of words, and never too much if and only if the last transfer has a word at least. */
  lemma KernelDecodes(offset: nat, size: nat, payload: nat)
    requires Payload(payload) && Fits(offset, size, payload)
    ensures var got := Decode(KernelSize(offset, size, payload), offset, payload);
            var last := LastTransfer(offset, size, payload);
            && got == size - last + InWords(last)
            && (got == size <==> size % 4 == 0)
            && (got <= size <==> last >= 4)
  {
    KernelSizeIs(offset, size, payload);
    TransfersAddUp(offset, size, payload);
    LastRest(offset, size, payload);
    DecodePacked(Transfers(offset, size, payload), LastTransfer(offset, size, payload), offset, payload);
  }

  lemma NarrowCount(n: nat, words: nat)
    requires 1 <= n <= MAX_TRANSFERS
    ensures Pack(n, words, 0x100) == Pack(n, words, MAX_TRANSFERS) <==> n < 0x100 || n == MAX_TRANSFERS
  {
    if n < MAX_TRANSFERS { assert n % MAX_TRANSFERS == n; }
  }

  /** The library encoder agrees exactly when the transfer count is below 256 or is the maximum. */
  lemma LibraryIff(offset: nat, size: nat, payload: nat)
    requires Payload(payload) && Fits(offset, size, payload)
    ensures LibrarySize(offset, size, payload) == KernelSize(offset, size, payload) <==>
            Transfers(offset, size, payload) < 0x100 || Transfers(offset, size, payload) == MAX_TRANSFERS
  {
    KernelSizeIs(offset, size, payload);
    assert 1 <= Transfers(offset, size, payload);
    NarrowCount(Transfers(offset, size, payload), LastTransfer(offset, size, payload) / 4);
  }

  /** Entries that stay within a page have few transfers. */
  lemma PageBounded(offset: nat, size: nat, payload: nat)
    requires Payload(payload) && size > 0 && offset % 4 == 0 && offset + size <= 4096
    ensures Fits(offset, size, payload)
    ensures LibrarySize(offset, size, payload) == KernelSize(offset, size, payload)
  {
    TransfersAddUp(offset, size, payload);
    assert Transfers(offset, size, payload) <= 34;
    LibraryIff(offset, size, payload);
  }

  /** Last transfer as `compute_group_size` sees it: counted from the payload boundary before the chunk. */
  function GroupLast(offset: nat, size: nat, payload: nat): nat
    requires payload > 0
  {
    LastTransfer(offset, size, payload) + if size > First(offset, payload) then 0 else offset % payload
  }

  /** `compute_group_size` has the right transfer count, but counts the offset into the first
      transfer when that is also the last one. */
  lemma GroupSizeIs(offset: nat, size: nat, payload: nat)
    requires payload > 0 && size > 0
    ensures GroupSize(offset, size, payload) ==
            Pack(Transfers(offset, size, payload), GroupLast(offset, size, payload) / 4, MAX_TRANSFERS)
  {
    var aligned := size + offset % payload;
    if size > First(offset, payload) {
      var rest := size - First(offset, payload);
      assert aligned == rest + payload;
      ModAddSelf(rest, payload);
      ModAddSelf(rest + payload - 1, payload);
    } else if aligned < payload {
      ModSmall(aligned, payload);
      DivModUnique(aligned + payload - 1, payload, 1, aligned - 1);
    } else {
      DivModUnique(aligned, payload, 1, 0);
      DivModUnique(aligned + payload - 1, payload, 1, payload - 1);
    }
  }

  lemma PackInjective(n: nat, a: nat, b: nat)
    requires a <= b < a + MAX_LAST
    ensures Pack(n, a, MAX_TRANSFERS) == Pack(n, b, MAX_TRANSFERS) <==> a == b
  {
  }

  lemma GroupLastBounds(offset: nat, size: nat, payload: nat)
    requires Payload(payload) && size > 0 && offset % 4 == 0
    ensures 1 <= GroupLast(offset, size, payload) <= payload && offset % payload % 4 == 0
  {
    TransfersAddUp(offset, size, payload);
    Mod4(offset, payload);
  }

  /** The second library encoder agrees exactly when the chunk starts on a payload boundary or
      reaches beyond the first one. */
  lemma GroupSizeIff(offset: nat, size: nat, payload: nat)
    requires Payload(payload) && Fits(offset, size, payload)
    ensures GroupSize(offset, size, payload) == KernelSize(offset, size, payload) <==>
            offset % payload == 0 || size > First(offset, payload)
  {
    KernelSizeIs(offset, size, payload);
    GroupSizeIs(offset, size, payload);
    GroupLastBounds(offset, size, payload);
    if size <= First(offset, payload) {
      PackInjective(Transfers(offset, size, payload), size / 4, GroupLast(offset, size, payload) / 4);
    }
  }

  /** The number of transfers is one too many for the format exactly when the chunk reaches beyond 2^15
      payloads, counted from the payload boundary before it. */
  lemma TransfersOverflow(offset: nat, size: nat, payload: nat)
    requires Payload(payload) && 0 < size <= MaxChunk(payload)
    ensures Transfers(offset, size, payload) == MAX_TRANSFERS + 1 <==> offset % payload + size > MaxChunk(payload)
    ensures Transfers(offset, size, payload) <= MAX_TRANSFERS + 1
  {
    TransfersAddUp(offset, size, payload);
  }

  /** The size word stands for the chunk: whole words, at most 2^15 payloads from the boundary before it,
      and starting on a boundary or reaching beyond the next one. */
  predicate Expressible(offset: nat, size: nat, payload: nat)
    requires payload > 0
  {
    && size % 4 == 0 && offset % payload + size <= MaxChunk(payload)
    && (offset % payload == 0 || size > First(offset, payload))
  }

  lemma OverflowWord(last: nat)
    requires last <= 4 * MAX_LAST
    ensures Pack(MAX_TRANSFERS + 1, last / 4, MAX_TRANSFERS) == Pack(1, last / 4, MAX_TRANSFERS)
  {
  }

  /** What the engine makes of a chunk of any length that the merging loop can produce. Beyond 2^15
      payloads the transfer count wraps to one; within the first payload the offset is counted in. */
  lemma GroupSizeDecodes(offset: nat, size: nat, payload: nat)
    requires Payload(payload) && 0 < size <= MaxChunk(payload) && offset % 4 == 0
    ensures Decode(GroupSize(offset, size, payload), offset, payload) ==
            if offset % payload + size > MaxChunk(payload) then InWords(LastTransfer(offset, size, payload))
            else if size <= First(offset, payload) then InWords(offset % payload + size)
            else size - LastTransfer(offset, size, payload) + InWords(LastTransfer(offset, size, payload))
  {
    var n, last := Transfers(offset, size, payload), GroupLast(offset, size, payload);
    GroupSizeIs(offset, size, payload);
    TransfersAddUp(offset, size, payload);
    TransfersOverflow(offset, size, payload);
    GroupLastBounds(offset, size, payload);
    if n == MAX_TRANSFERS + 1 { OverflowWord(last); }
    DecodePacked(if n == MAX_TRANSFERS + 1 then 1 else n, last, offset, payload);
  }

  /** So the length is right if and only if the chunk is expressible. */
  lemma GroupSizeDecodesIff(offset: nat, size: nat, payload: nat)
    requires Payload(payload) && 0 < size <= MaxChunk(payload) && offset % 4 == 0
    ensures Decode(GroupSize(offset, size, payload), offset, payload) == size <==> Expressible(offset, size, payload)
  {
    GroupSizeDecodes(offset, size, payload);
    TransfersAddUp(offset, size, payload);
    GroupLastBounds(offset, size, payload);
    LastRest(offset, size, payload);
  }

  lemma PagePayload(addr: nat, pages: nat, payload: nat)
    requires Payload(payload) && addr / 4096 == pages
    ensures addr % 4096 % payload == addr % payload
  {
    assert addr == 4096 * pages + addr % 4096;
    var q := 4096 / payload;
    var a := addr % 4096;
    assert addr == payload * (q * pages + a / payload) + a % payload;
    DivModUnique(addr, payload, q * pages + a / payload, a % payload);
  }

  /** The offset matters only within a payload, hence only within a page. */
  lemma DecodeInPage(word: nat, addr: nat, payload: nat)
    requires Payload(payload)
    ensures Decode(word, addr % 4096, payload) == Decode(word, addr, payload)
  {
    PagePayload(addr, addr / 4096, payload);
    SameOffset(word, addr % 4096, addr, payload);
  }

  lemma SameOffset(word: nat, a: nat, b: nat, payload: nat)
    requires payload > 0 && a % payload == b % payload
    ensures Decode(word, a, payload) == Decode(word, b, payload)
  {
  }
}
