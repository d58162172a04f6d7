/** The second library builder: adjacent page descriptors are merged into chunks, and the chunks are
    laid out five to a block. */
module SglMerge {
  import opened Arith
  import opened Bits
  import opened SglEntry
  import opened SglSize
  import opened SglChain

  // ---------------------------------------------------------------- merging

  /** The guard of the merging loop: does descriptor `j` continue a chunk at `addr` of `len` bytes?
      Addresses are 64-bit words; after a wrap-around nothing is adjacent. */
  predicate Continues(descs: seq<Segment>, j: nat, addr: nat, len: nat, payload: nat) {
    && j < |descs|
    && descs[j].addr == (addr + len) % SPACE
    && (addr + len) % SPACE > addr
    && len + descs[j].len <= MaxChunk(payload)
  }

  /** First descriptor behind the chunk, and the chunk's length. */
  function Extend(descs: seq<Segment>, j: nat, addr: nat, len: nat, payload: nat): (r: (nat, nat))
    requires j <= |descs|
    ensures j <= r.0 <= |descs|
    decreases |descs| - j
  {
    if Continues(descs, j, addr, len, payload) then Extend(descs, j + 1, addr, len + descs[j].len, payload)
    else (j, len)
  }

  function Chunks(descs: seq<Segment>, i: nat, payload: nat): seq<Segment>
    requires i <= |descs|
    decreases |descs| - i
  {
    if i == |descs| then []
    else
      var (next, len) := Extend(descs, i + 1, descs[i].addr, descs[i].len, payload);
      [Segment(descs[i].addr, len)] + Chunks(descs, next, payload)
  }

  /** The bytes of a list of segments, in order. */
  function Covered(s: seq<Segment>): seq<nat> {
    if s == [] then [] else Range(s[0].addr, s[0].len) + Covered(s[1..])
  }

  function Range(addr: nat, len: nat): (r: seq<nat>)
    ensures |r| == len
  {
    seq(len, i requires 0 <= i < len => addr + i)
  }

  ghost predicate Descriptors(descs: seq<Segment>, payload: nat) {
    Payload(payload) && forall k :: 0 <= k < |descs| ==> descs[k].addr < SPACE && descs[k].len <= 4096
  }

  /** The guard means what it should: adjacent, and not across the end of the address space. */
  lemma ContinuesIff(descs: seq<Segment>, j: nat, addr: nat, len: nat, payload: nat)
    requires addr < SPACE && len < SPACE
    ensures Continues(descs, j, addr, len, payload) <==>
            j < |descs| && len > 0 && addr + len < SPACE && descs[j].addr == addr + len &&
                len + descs[j].len <= MaxChunk(payload)
  {
    if addr + len < SPACE { ModSmall(addr + len, SPACE); }
    else { DivModUnique(addr + len, SPACE, 1, addr + len - SPACE); }
  }

  lemma RangeJoins(addr: nat, a: nat, b: nat)
    ensures Range(addr, a + b) == Range(addr, a) + Range(addr + a, b)
  {
  }

  lemma {:induction false} ExtendCovers(descs: seq<Segment>, j: nat, addr: nat, len: nat, payload: nat)
    requires Descriptors(descs, payload) && j <= |descs| && addr < SPACE && len <= MaxChunk(payload)
    ensures var (next, total) := Extend(descs, j, addr, len, payload);
            && Range(addr, len) + Covered(descs[j..]) == Range(addr, total) + Covered(descs[next..])
            && len <= total <= MaxChunk(payload)
            && (total > len ==> addr + len < SPACE)
    decreases |descs| - j
  {
    ContinuesIff(descs, j, addr, len, payload);
    if Continues(descs, j, addr, len, payload) {
      var m := descs[j].len;
      ExtendCovers(descs, j + 1, addr, len + m, payload);
      assert descs[j..][1..] == descs[j + 1..];
      RangeJoins(addr, len, m);
      var tail := Covered(descs[j + 1..]);
      assert Range(addr, len) + (Range(addr + len, m) + tail) == (Range(addr, len) + Range(addr + len, m)) + tail;
    }
  }

  /** Merging keeps exactly the bytes, in exactly the order. */
  lemma {:induction false} ChunksCover(descs: seq<Segment>, i: nat, payload: nat)
    requires Descriptors(descs, payload) && i <= |descs|
    ensures Covered(Chunks(descs, i, payload)) == Covered(descs[i..])
    decreases |descs| - i
  {
    if i < |descs| {
      var (next, len) := Extend(descs, i + 1, descs[i].addr, descs[i].len, payload);
      ExtendCovers(descs, i + 1, descs[i].addr, descs[i].len, payload);
      ChunksCover(descs, next, payload);
      assert descs[i..][1..] == descs[i + 1..];
      assert Chunks(descs, i, payload)[1..] == Chunks(descs, next, payload);
    }
  }

  /** The chunk is at most 2^15 payloads long, and starts with a descriptor from `i` on that it covers. */
  ghost predicate Bounded(descs: seq<Segment>, i: nat, payload: nat, c: Segment) {
    c.len <= MaxChunk(payload) && exists k :: i <= k < |descs| && descs[k].addr == c.addr && descs[k].len <= c.len
  }

  lemma BoundedFrom(descs: seq<Segment>, i: nat, j: nat, payload: nat, c: Segment)
    requires i <= j && Bounded(descs, j, payload, c)
    ensures Bounded(descs, i, payload, c)
  {
    var k :| j <= k < |descs| && descs[k].addr == c.addr && descs[k].len <= c.len;
  }

  lemma {:induction false} ChunkBounds(descs: seq<Segment>, i: nat, payload: nat)
    requires Descriptors(descs, payload) && i <= |descs|
    ensures forall c :: c in Chunks(descs, i, payload) ==> Bounded(descs, i, payload, c)
    decreases |descs| - i
  {
    if i < |descs| {
      var (next, len) := Extend(descs, i + 1, descs[i].addr, descs[i].len, payload);
      ExtendCovers(descs, i + 1, descs[i].addr, descs[i].len, payload);
      ChunkBounds(descs, next, payload);
      var first, tail := Segment(descs[i].addr, len), Chunks(descs, next, payload);
      forall c | c in Chunks(descs, i, payload) ensures Bounded(descs, i, payload, c) {
        if c in tail { BoundedFrom(descs, i, next, payload, c); } else { assert c == first; }
      }
    }
  }

  lemma {:induction false} ExtendStops(descs: seq<Segment>, j: nat, addr: nat, len: nat, payload: nat)
    requires j <= |descs|
    ensures var (next, total) := Extend(descs, j, addr, len, payload); !Continues(descs, next, addr, total, payload)
    decreases |descs| - j
  {
    if Continues(descs, j, addr, len, payload) { ExtendStops(descs, j + 1, addr, len + descs[j].len, payload); }
  }

  /** Chunk `b` starts with a descriptor that chunk `a` could not take: not adjacent, or too long. */
  ghost predicate Parted(descs: seq<Segment>, a: Segment, b: Segment, payload: nat) {
    exists k :: 0 <= k < |descs| && descs[k].addr == b.addr && descs[k].len <= b.len &&
                (a.len == 0 || a.addr + a.len != b.addr || a.len + descs[k].len > MaxChunk(payload))
  }

  lemma NextParted(descs: seq<Segment>, i: nat, next: nat, len: nat, payload: nat)
    requires Descriptors(descs, payload) && i < |descs| && next < |descs|
    requires Extend(descs, i + 1, descs[i].addr, descs[i].len, payload) == (next, len)
    ensures Parted(descs, Segment(descs[i].addr, len), Chunks(descs, next, payload)[0], payload)
  {
    ExtendCovers(descs, i + 1, descs[i].addr, descs[i].len, payload);
    ExtendStops(descs, i + 1, descs[i].addr, descs[i].len, payload);
    ContinuesIff(descs, next, descs[i].addr, len, payload);
    ExtendCovers(descs, next + 1, descs[next].addr, descs[next].len, payload);
    assert descs[next].addr == Chunks(descs, next, payload)[0].addr;
  }

  /** Merging goes as far as it can. */
  lemma {:induction false} ChunksParted(descs: seq<Segment>, i: nat, payload: nat, r: seq<Segment>)
    requires Descriptors(descs, payload) && i <= |descs| && r == Chunks(descs, i, payload)
    ensures forall n :: 0 < n < |r| ==> Parted(descs, r[n - 1], r[n], payload)
    decreases |descs| - i
  {
    if i < |descs| {
      var (next, len) := Extend(descs, i + 1, descs[i].addr, descs[i].len, payload);
      var tail := Chunks(descs, next, payload);
      ChunksParted(descs, next, payload, tail);
      if next < |descs| { NextParted(descs, i, next, len, payload); }
      assert r == [Segment(descs[i].addr, len)] + tail;
    }
  }

  // ---------------------------------------------------------------- layout

  /** The block and entry that chunk `n` (of `total`) goes to, and the link made before that. */
  function Place(blocks: seq<Block>, phys: seq<nat>, chunks: seq<Segment>, n: nat, payload: nat): (r: seq<Block>)
    requires n < |chunks| && n < ENTRIES * |blocks| && |blocks| == |phys| && payload > 0
    ensures |r| == |blocks|
  {
    var k := n / ENTRIES;
    var linked := if n % ENTRIES == 0 && k > 0 then blocks[k - 1 := blocks[k - 1].(next := Link(phys[k]))] else blocks;
    var c := chunks[n];
    linked[k := linked[k].(data := WriteEntry(linked[k].data, n % ENTRIES, FromNat(c.addr, 64),
                                              FromNat(GroupSize(c.addr, c.len, payload), 64), n == |chunks| - 1))]
  }

  function Laid(blocks: seq<Block>, phys: seq<nat>, chunks: seq<Segment>, n: nat, payload: nat): (r: seq<Block>)
    requires n <= |chunks| && n <= ENTRIES * |blocks| && |blocks| == |phys| && payload > 0
    ensures |r| == |blocks|
  {
    if n == 0 then blocks else Place(Laid(blocks, phys, chunks, n - 1, payload), phys, chunks, n - 1, payload)
  }

  function ChunkEntry(chunks: seq<Segment>, n: nat, payload: nat): Entry
    requires n < |chunks| && payload > 0
  {
    Entry(FromNat(chunks[n].addr, 64), FromNat(GroupSize(chunks[n].addr, chunks[n].len, payload), 64)[..23],
          n == |chunks| - 1)
  }

  /** The entries of the first `n` chunks can be read back. */
  ghost predicate ChunksRead(r: seq<Block>, chunks: seq<Segment>, n: nat, payload: nat) {
    && n <= |chunks| && payload > 0
    && forall m: nat {:trigger r[m / ENTRIES]} :: m < n ==>
         m / ENTRIES < |r| && ReadEntry(r[m / ENTRIES].data, m % ENTRIES) == ChunkEntry(chunks, m, payload)
  }

  /** Each block in use links to the next one in use; the other links are as before. */
  ghost predicate ChunksLinked(blocks: seq<Block>, r: seq<Block>, phys: seq<nat>, n: nat) {
    && |r| == |blocks| == |phys| && n <= ENTRIES * |r|
    && forall k: nat {:trigger r[k].next} :: k < |r| ==>
         r[k].next == if (k + 1) * ENTRIES < n then Link(phys[k + 1]) else blocks[k].next
  }

  /** Blocks that are not in use are as before. */
  ghost predicate OthersKept(blocks: seq<Block>, r: seq<Block>, n: nat) {
    |r| == |blocks| && forall k: nat {:trigger r[k]} :: k < |r| && k * ENTRIES >= n ==> r[k] == blocks[k]
  }

  /** After `n` chunks: their entries read back, each block in use links to the next one in use, and
      nothing else changed. */
  lemma {:induction false} LaidReads(blocks: seq<Block>, phys: seq<nat>, chunks: seq<Segment>, n: nat, payload: nat,
      r: seq<Block>)
    requires n <= |chunks| && n <= ENTRIES * |blocks| && |blocks| == |phys| && payload > 0
    requires r == Laid(blocks, phys, chunks, n, payload) && forall c :: c in chunks ==> c.addr % 4 == 0
    ensures ChunksRead(r, chunks, n, payload) && ChunksLinked(blocks, r, phys, n) && OthersKept(blocks, r, n)
  {
    if n > 0 {
      var q := Laid(blocks, phys, chunks, n - 1, payload);
      LaidReads(blocks, phys, chunks, n - 1, payload, q);
      PlaceAll(blocks, q, phys, chunks, n - 1, payload, r);
    }
  }

  lemma PlaceAll(blocks: seq<Block>, q: seq<Block>, phys: seq<nat>, chunks: seq<Segment>, n: nat, payload: nat,
      r: seq<Block>)
    requires n < |chunks| && n < ENTRIES * |q| && |q| == |phys| && payload > 0 && chunks[n].addr % 4 == 0
    requires ChunksRead(q, chunks, n, payload) && ChunksLinked(blocks, q, phys, n) && OthersKept(blocks, q, n)
    requires r == Place(q, phys, chunks, n, payload)
    ensures ChunksRead(r, chunks, n + 1, payload) && ChunksLinked(blocks, r, phys, n + 1) &&
            OthersKept(blocks, r, n + 1)
  {
    PlaceReads(q, phys, chunks, n, payload);
    PlaceLinks(blocks, q, phys, chunks, n, payload);
    PlaceKeeps(blocks, q, phys, chunks, n, payload);
  }

  lemma PlaceKeeps(blocks: seq<Block>, q: seq<Block>, phys: seq<nat>, chunks: seq<Segment>, n: nat, payload: nat)
    requires n < |chunks| && n < ENTRIES * |q| && |q| == |phys| && payload > 0 && OthersKept(blocks, q, n)
    ensures OthersKept(blocks, Place(q, phys, chunks, n, payload), n + 1)
  {
    var r := Place(q, phys, chunks, n, payload);
    forall k: nat | k < |r| && k * ENTRIES >= n + 1 ensures r[k] == blocks[k] {
      assert k > n / ENTRIES && q[k] == blocks[k];
    }
  }

  lemma PlaceLinks(blocks: seq<Block>, q: seq<Block>, phys: seq<nat>, chunks: seq<Segment>, n: nat, payload: nat)
    requires n < |chunks| && n < ENTRIES * |q| && payload > 0 && ChunksLinked(blocks, q, phys, n)
    ensures ChunksLinked(blocks, Place(q, phys, chunks, n, payload), phys, n + 1)
  {
    var r := Place(q, phys, chunks, n, payload);
    forall k: nat | k < |r|
      ensures r[k].next == if (k + 1) * ENTRIES < n + 1 then Link(phys[k + 1]) else blocks[k].next
    {
      assert q[k].next == if (k + 1) * ENTRIES < n then Link(phys[k + 1]) else blocks[k].next;
    }
  }

  lemma PlaceReads(q: seq<Block>, phys: seq<nat>, chunks: seq<Segment>, n: nat, payload: nat)
    requires n < |chunks| && n < ENTRIES * |q| && |q| == |phys| && payload > 0 && chunks[n].addr % 4 == 0
    requires ChunksRead(q, chunks, n, payload)
    ensures ChunksRead(Place(q, phys, chunks, n, payload), chunks, n + 1, payload)
  {
    var r := Place(q, phys, chunks, n, payload);
    var b, c := n / ENTRIES, chunks[n];
    var addr, size := FromNat(c.addr, 64), FromNat(GroupSize(c.addr, c.len, payload), 64);
    AlignedWord(c.addr);
    forall m: nat | m < n + 1
      ensures m / ENTRIES < |r| && ReadEntry(r[m / ENTRIES].data, m % ENTRIES) == ChunkEntry(chunks, m, payload)
    {
      if m == n {
        ReadWritten(q[b].data, n % ENTRIES, addr, size, n == |chunks| - 1);
      } else if m / ENTRIES == b {
        ReadOther(q[b].data, n % ENTRIES, m % ENTRIES, addr, size, n == |chunks| - 1);
      }
    }
  }

  /** The inner loop of `men_create_sgl_v2`: merges what continues descriptor `i`. */
  method MergeAdjacent(descs: seq<Segment>, i: nat, payload: nat) returns (last: nat, len: nat)
    requires i < |descs|
    ensures (last + 1, len) == Extend(descs, i + 1, descs[i].addr, descs[i].len, payload)
  {
    var addr := descs[i].addr;
    len := descs[i].len;
    last := i;
    var j := i + 1;
    while j < |descs| && descs[j].addr == (addr + len) % SPACE && (addr + len) % SPACE > addr &&
        len + descs[j].len <= MaxChunk(payload)
      invariant j == last + 1 <= |descs|
      invariant Extend(descs, j, addr, len, payload) == Extend(descs, i + 1, addr, descs[i].len, payload)
      decreases |descs| - j
    {
      len := len + descs[j].len;
      j := j + 1;
      last := last + 1;
    }
  }

  /** The size word always fits its field, so `set_bits` never refuses it. */
  lemma GroupSizeSmall(offset: nat, size: nat, payload: nat)
    requires payload > 0
    ensures GroupSize(offset, size, payload) < 0x80_0000
    ensures forall i :: 23 <= i < 64 ==> !FromNat(GroupSize(offset, size, payload), 64)[i]
    ensures ToNat(FromNat(GroupSize(offset, size, payload), 64)[..23]) == GroupSize(offset, size, payload)
  {
    PowersOfTwo();
    HighZeros(GroupSize(offset, size, payload), 23, 64);
    ToFrom(GroupSize(offset, size, payload), 23);
  }

  /** The link and the entry for chunk `n`. */
  method PlaceChunk(blocks: array<Block>, phys: seq<nat>, ghost chunks: seq<Segment>, ghost n: nat, block: nat,
      entry: nat, chunk: Segment, last: bool, payload: nat)
    requires n < |chunks| && chunk == chunks[n] && last == (n == |chunks| - 1) && payload > 0
    requires n / ENTRIES == block < blocks.Length == |phys| && entry == n % ENTRIES
    modifies blocks
    ensures blocks[..] == Place(old(blocks[..]), phys, chunks, n, payload)
  {
    if entry == 0 && block > 0 {
      blocks[block - 1] := blocks[block - 1].(next := Link(phys[block]));
    }
    var size := FromNat(GroupSize(chunk.addr, chunk.len, payload), 64);
    GroupSizeSmall(chunk.addr, chunk.len, payload);
    var d := EncodeV2(blocks[block].data, entry, FromNat(chunk.addr, 64), size, last);
    blocks[block] := blocks[block].(data := d);
  }

  lemma NextPlace(block: nat, entry: nat)
    requires entry < ENTRIES
    ensures var e := (entry + 1) % ENTRIES;
            0 <= e < ENTRIES && (if e == 0 then block + 1 else block) * ENTRIES + e == block * ENTRIES + entry + 1
  {
  }

  /** One round: merges from descriptor `i` on and places the chunk. */
  method AddChunk(descs: seq<Segment>, i: nat, payload: nat, blocks: array<Block>, phys: seq<nat>, block: nat,
      entry: nat, ghost all: seq<Segment>, ghost n: nat) returns (next: nat)
    requires i < |descs| && n <= |all| <= ENTRIES * |phys| && Chunks(descs, i, payload) == all[n..]
    requires payload > 0 && blocks.Length == |phys| && entry < ENTRIES && n == block * ENTRIES + entry
    modifies blocks
    ensures i < next <= |descs| && n < |all| && Chunks(descs, next, payload) == all[n + 1..]
    ensures blocks[..] == Place(old(blocks[..]), phys, all, n, payload)
  {
    var last, len := MergeAdjacent(descs, i, payload);
    NextChunk(descs, i, last + 1, len, payload, all, n);
    PlaceChunk(blocks, phys, all, n, block, entry, Segment(descs[i].addr, len), last == |descs| - 1, payload);
    next := last + 1;
  }

  /** `men_create_sgl_v2`, on blocks and block addresses that suffice for all chunks. */
  method CreateSglV2(descs: seq<Segment>, payload: nat, blocks: array<Block>, phys: seq<nat>) returns (used: nat)
    requires payload > 0 && blocks.Length == |phys|
    requires |Chunks(descs, 0, payload)| <= ENTRIES * |phys|
    modifies blocks
    ensures blocks[..] == Laid(old(blocks[..]), phys, Chunks(descs, 0, payload), |Chunks(descs, 0, payload)|, payload)
    ensures used == |Chunks(descs, 0, payload)| / ENTRIES + 1
  {
    ghost var was, all := blocks[..], Chunks(descs, 0, payload);
    var block, entry, i := 0, 0, 0;
    ghost var n := 0;
    while i < |descs|
      invariant 0 <= i <= |descs| && 0 <= n && 0 <= block && 0 <= entry < ENTRIES && n == block * ENTRIES + entry
      invariant n <= |all| && Chunks(descs, i, payload) == all[n..]
      invariant blocks[..] == Laid(was, phys, all, n, payload)
    {
      i := AddChunk(descs, i, payload, blocks, phys, block, entry, all, n);
      NextPlace(block, entry);
      n := n + 1;
      entry := (entry + 1) % ENTRIES;
      if entry == 0 { block := block + 1; }
    }
    AllPlaced(descs, payload, all, n);
    used := block + 1;
  }

  lemma AllPlaced(descs: seq<Segment>, payload: nat, all: seq<Segment>, n: nat)
    requires n <= |all| && Chunks(descs, |descs|, payload) == all[n..]
    ensures n == |all|
  {
  }

  lemma NextChunk(descs: seq<Segment>, i: nat, next: nat, len: nat, payload: nat, all: seq<Segment>, n: nat)
    requires i < |descs| && n <= |all| && Chunks(descs, i, payload) == all[n..]
    requires (next, len) == Extend(descs, i + 1, descs[i].addr, descs[i].len, payload)
    ensures n < |all| && all[n] == Segment(descs[i].addr, len) && Chunks(descs, next, payload) == all[n + 1..]
    ensures next == |descs| <==> n == |all| - 1
  {
    assert all[n..][0] == Segment(descs[i].addr, len);
    assert all[n..][1..] == all[n + 1..];
  }

  /** What the engine makes of a chunk's entry: its start always, its length exactly when it is
      expressible. */
  lemma ChunkEntryMeans(chunks: seq<Segment>, n: nat, payload: nat)
    requires n < |chunks| && Payload(payload)
    requires chunks[n].addr < SPACE && chunks[n].addr % 4 == 0 && 0 < chunks[n].len <= MaxChunk(payload)
    ensures var t, c := Transfer(ChunkEntry(chunks, n, payload), payload), chunks[n];
            t.addr == c.addr && (t.len == c.len <==> Expressible(c.addr, c.len, payload))
  {
    var c := chunks[n];
    PowersOfTwo();
    ToFrom(c.addr, 64);
    GroupSizeSmall(c.addr, c.len, payload);
    GroupSizeDecodesIff(c.addr, c.len, payload);
  }

  // ---------------------------------------------------------------- what the engine transfers

  /** Descriptors of a word-aligned buffer. */
  ghost predicate Aligned(descs: seq<Segment>) {
    forall k :: 0 <= k < |descs| ==> descs[k].addr % 4 == 0 && descs[k].len > 0
  }

  /** The first `n` blocks with their bus addresses. */
  function ChainOf(blocks: seq<Block>, phys: seq<nat>, n: nat): (r: Chain)
    requires n <= |blocks| == |phys|
    ensures |r| == n
  {
    seq(n, k requires 0 <= k < n => Node(phys[k], blocks[k]))
  }

  lemma ChainJoined(blocks: seq<Block>, r: seq<Block>, phys: seq<nat>, total: nat, used: nat)
    requires ChunksLinked(blocks, r, phys, total) && total > 0 && used == (total - 1) / ENTRIES + 1 &&
             PoolAddresses(phys)
    ensures used <= |r| && Joined(ChainOf(r, phys, used)) && PoolAddresses(Addresses(ChainOf(r, phys, used)))
  {
    var chain := ChainOf(r, phys, used);
    forall k {:trigger chain[k].block.next} | 0 <= k < used - 1
      ensures chain[k].block.next == Link(chain[k + 1].address)
    {
      assert (k + 1) * ENTRIES < total && chain[k].block == r[k];
      assert r[k].next == Link(phys[k + 1]);
    }
    var s := Addresses(chain);
    assert forall k :: 0 <= k < |s| ==> s[k] == phys[k];
  }

  lemma ChainMarked(r: seq<Block>, phys: seq<nat>, chunks: seq<Segment>, payload: nat, used: nat)
    requires ChunksRead(r, chunks, |chunks|, payload) && |r| == |phys| && chunks != [] &&
             used == (|chunks| - 1) / ENTRIES + 1 <= |r|
    ensures Marked(ChainOf(r, phys, used), |chunks|)
    ensures forall n: nat :: n < |chunks| ==>
            n / ENTRIES < used && EntryAt(ChainOf(r, phys, used), n) == ChunkEntry(chunks, n, payload)
  {
    var chain := ChainOf(r, phys, used);
    forall n: nat {:trigger EntryAt(chain, n)} | n < |chunks|
      ensures n / ENTRIES < |chain| && EntryAt(chain, n) == ChunkEntry(chunks, n, payload)
    {
      assert ReadEntry(r[n / ENTRIES].data, n % ENTRIES) == ChunkEntry(chunks, n, payload);
    }
  }

  lemma ChunksUsable(descs: seq<Segment>, payload: nat, c: Segment)
    requires Descriptors(descs, payload) && Aligned(descs) && c in Chunks(descs, 0, payload)
    ensures c.addr < SPACE && c.addr % 4 == 0 && 0 < c.len <= MaxChunk(payload)
  {
    ChunkBounds(descs, 0, payload);
  }

  /** The engine, started at the first block in any memory that holds the blocks the builder wrote, reads one
      entry per chunk. */
  lemma EngineReadsChunks(mem: Memory, was: seq<Block>, phys: seq<nat>, descs: seq<Segment>, payload: nat,
      r: seq<Block>)
    returns (es: seq<Entry>)
    requires Descriptors(descs, payload) && Aligned(descs) && descs != [] && |was| == |phys| && PoolAddresses(phys)
    requires |Chunks(descs, 0, payload)| <= ENTRIES * |phys|
    requires r == Laid(was, phys, Chunks(descs, 0, payload), |Chunks(descs, 0, payload)|, payload)
    requires forall k :: 0 <= k < |r| ==> phys[k] in mem && mem[phys[k]] == r[k]
    ensures Engine(mem, phys[0], {}) == Done(es) && |es| == |Chunks(descs, 0, payload)|
    ensures forall n: nat :: n < |es| ==> es[n] == ChunkEntry(Chunks(descs, 0, payload), n, payload)
  {
    var chunks := Chunks(descs, 0, payload);
    var used := (|chunks| - 1) / ENTRIES + 1;
    forall c | c in chunks ensures c.addr % 4 == 0 { ChunksUsable(descs, payload, c); }
    LaidReads(was, phys, chunks, |chunks|, payload, r);
    ChainJoined(was, r, phys, |chunks|, used);
    ChainMarked(r, phys, chunks, payload, used);
    var chain := ChainOf(r, phys, used);
    EngineReads(mem, chain, |chunks|);
    es := EntriesOf(chain, |chunks|);
    forall n: nat | n < |es| ensures es[n] == ChunkEntry(chunks, n, payload) {
      assert EntryAt(chain, n) == ChunkEntry(chunks, n, payload);
    }
  }

  /** It transfers exactly the chunks if and only if each of them is expressible, and then exactly the bytes
      of the descriptors, in order. */
  lemma MergedTransfersIff(es: seq<Entry>, descs: seq<Segment>, payload: nat)
    requires Descriptors(descs, payload) && Aligned(descs) && |es| == |Chunks(descs, 0, payload)|
    requires forall n: nat :: n < |es| ==> es[n] == ChunkEntry(Chunks(descs, 0, payload), n, payload)
    ensures Transferred(es, payload) == Chunks(descs, 0, payload) <==>
            forall c :: c in Chunks(descs, 0, payload) ==> Expressible(c.addr, c.len, payload)
    ensures (forall c :: c in Chunks(descs, 0, payload) ==> Expressible(c.addr, c.len, payload)) ==>
            Covered(Transferred(es, payload)) == Covered(descs)
  {
    var chunks, t := Chunks(descs, 0, payload), Transferred(es, payload);
    forall n: nat | n < |chunks|
      ensures t[n].addr == chunks[n].addr && (t[n].len == chunks[n].len <==>
              Expressible(chunks[n].addr, chunks[n].len, payload))
    {
      ChunksUsable(descs, payload, chunks[n]);
      ChunkEntryMeans(chunks, n, payload);
    }
    if forall c :: c in chunks ==> Expressible(c.addr, c.len, payload) {
      assert forall n: nat :: n < |chunks| ==> chunks[n] in chunks && t[n] == chunks[n];
      assert t == chunks;
      ChunksCover(descs, 0, payload);
      assert descs[0..] == descs;
    } else {
      var c :| c in chunks && !Expressible(c.addr, c.len, payload);
      var n: nat :| n < |chunks| && chunks[n] == c;
      assert t[n] != chunks[n];
    }
  }

  // ---------------------------------------------------------------- a buffer that is too long

  /** A contiguous buffer of 2^15 payloads that starts 64 bytes into a page, page by page. */
  function LongBuffer(payload: nat): (r: seq<Segment>)
    ensures |r| == 8 * payload + 1
  {
    seq(8 * payload + 1, k requires 0 <= k < 8 * payload + 1 =>
      if k == 0 then Segment(64, 4032) else Segment(4096 * k, if k < 8 * payload then 4096 else 64))
  }

  lemma {:induction false} LongBufferMerges(payload: nat, j: nat)
    requires Payload(payload) && 1 <= j <= 8 * payload + 1
    ensures var len := if j <= 8 * payload then 4096 * j - 64 else MaxChunk(payload);
            Extend(LongBuffer(payload), j, 64, len, payload) == (8 * payload + 1, MaxChunk(payload))
    decreases 8 * payload + 1 - j
  {
    if j <= 8 * payload {
      ModSmall(4096 * j, SPACE);
      LongBufferMerges(payload, j + 1);
    }
  }

  lemma PageAligned(k: nat)
    ensures 4096 * k % 4 == 0
  {
    DivModUnique(4096 * k, 4, 1024 * k, 0);
  }

  lemma LongAligned(payload: nat)
    ensures Aligned(LongBuffer(payload))
  {
    var descs := LongBuffer(payload);
    forall k | 0 <= k < |descs| ensures descs[k].addr % 4 == 0 && descs[k].len > 0 {
      if k > 0 { PageAligned(k); }
    }
  }

  lemma LongSize(payload: nat, size: nat)
    requires Payload(payload) && size == MaxChunk(payload)
    ensures Decode(GroupSize(64, size, payload), 64, payload) == 64
  {
    ModSmall(64, payload);
    DivModUnique(size - First(64, payload), payload, 0x7fff, 64);
    GroupSizeDecodes(64, size, payload);
  }

  lemma LongEntry(chunks: seq<Segment>, payload: nat)
    requires Payload(payload) && chunks == [Segment(64, MaxChunk(payload))]
    ensures Transfer(ChunkEntry(chunks, 0, payload), payload) == Segment(64, 64)
  {
    ChunkEntryMeans(chunks, 0, payload);
    GroupSizeSmall(64, MaxChunk(payload), payload);
    LongSize(payload, MaxChunk(payload));
  }

  /** Its pages are merged into one chunk, whose size word stands for the last 64 bytes only. */
  lemma LongBufferLost(payload: nat)
    requires Payload(payload)
    ensures Descriptors(LongBuffer(payload), payload) && Aligned(LongBuffer(payload))
    ensures var chunks := Chunks(LongBuffer(payload), 0, payload);
            chunks == [Segment(64, MaxChunk(payload))] &&
                Transfer(ChunkEntry(chunks, 0, payload), payload) == Segment(64, 64)
  {
    var descs := LongBuffer(payload);
    LongAligned(payload);
    LongBufferMerges(payload, 1);
    OneChunk(descs, Segment(64, MaxChunk(payload)), payload);
    LongEntry([Segment(64, MaxChunk(payload))], payload);
  }

  /** For every payload size: a buffer of 32 bytes that starts 64 bytes behind a payload boundary. Its entry stands for
      96 bytes. */
  lemma ShortBufferOverruns(payload: nat)
    requires Payload(payload)
    ensures Descriptors([Segment(64, 32)], payload) && Aligned([Segment(64, 32)])
    ensures var chunks := Chunks([Segment(64, 32)], 0, payload);
            chunks == [Segment(64, 32)] && Transfer(ChunkEntry(chunks, 0, payload), payload) == Segment(64, 96)
  {
    ShortChunk([Segment(64, 32)], payload);
    ShortEntry([Segment(64, 32)], payload);
  }

  lemma ShortChunk(descs: seq<Segment>, payload: nat)
    requires Payload(payload) && descs == [Segment(64, 32)]
    ensures Descriptors(descs, payload) && Aligned(descs) && Chunks(descs, 0, payload) == descs
  {
    OneChunk(descs, descs[0], payload);
  }

  lemma ShortEntry(chunks: seq<Segment>, payload: nat)
    requires Payload(payload) && chunks == [Segment(64, 32)]
    ensures Transfer(ChunkEntry(chunks, 0, payload), payload) == Segment(64, 96)
  {
    ChunkEntryMeans(chunks, 0, payload);
    GroupSizeSmall(64, 32, payload);
    ShortSize(payload);
  }

  lemma ShortSize(payload: nat)
    requires Payload(payload)
    ensures Decode(GroupSize(64, 32, payload), 64, payload) == 96
  {
    ModSmall(64, payload);
    GroupSizeDecodes(64, 32, payload);
  }

  lemma OneChunk(descs: seq<Segment>, c: Segment, payload: nat)
    requires descs != [] && c.addr == descs[0].addr &&
             Extend(descs, 1, c.addr, descs[0].len, payload) == (|descs|, c.len)
    ensures Chunks(descs, 0, payload) == [c]
  {
    assert Chunks(descs, |descs|, payload) == [];
  }

  /** The returned number of blocks is right unless the last block is full; then it is one too high. */
  lemma UsedIff(total: nat)
    requires total > 0
    ensures total / ENTRIES + 1 == (total - 1) / ENTRIES + 1 + (if total % ENTRIES == 0 then 1 else 0)
  {
  }
}
