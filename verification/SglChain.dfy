/** Building and releasing the chain of scatter-gather blocks of one buffer.

    A chain is the sequence of its blocks in list order; `address` is the bus address under which the
    pool handed a block out. */
module SglChain {
  import opened Bits
  import opened SglEntry
  import opened SglSize

  datatype Block = Block(next: Word, data: Data)
  datatype Node = Node(address: nat, block: Block)
  type Chain = seq<Node>

  /** One mapped piece of the buffer. */
  datatype Segment = Segment(addr: nat, len: nat)

  const SPACE: nat := 0x1_0000_0000_0000_0000 // 2^64

  // ---------------------------------------------------------------- links

  lemma PowersOfTwo()
    ensures Pow2(2) == 4 && Pow2(23) == 0x80_0000 && Pow2(64) == SPACE
  {
    assert Pow2(16) == 0x1_0000;
    PowAdd(16, 16);
    PowAdd(32, 32);
  }

  lemma PowAdd(a: nat, b: nat)
    ensures Pow2(a + b) == Pow2(a) * Pow2(b)
  {
    if a > 0 {
      PowAdd(a - 1, b);
      MulAssoc(Pow2(a - 1), Pow2(b));
    }
  }

  /** The link word to a block: its address shifted right by one, with a valid flag. */
  function Link(address: nat): Word {
    Or(Shr(FromNat(address, 64), 1), Bit(0))
  }

  /** How `me6_free_sgl` reads a link word back. */
  function Unlink(next: Word): Word {
    And(Shl(next, 1), Not(Or(Bit(0), Bit(1))))
  }

  lemma LinkReadsBack(address: nat)
    requires address % 4 == 0
    ensures Unlink(Link(address)) == FromNat(address, 64)
  {
    var a := FromNat(address, 64);
    PowersOfTwo();
    LowZeros(address, 2, 64);
    forall b | 0 <= b < 64 ensures Unlink(Link(address))[b] == a[b] {
    }
  }

  lemma SameNumber(a: nat, b: nat)
    requires a < SPACE && b < SPACE
    ensures FromNat(a, 64) == FromNat(b, 64) <==> a == b
  {
    PowersOfTwo();
    ToFrom(a, 64);
    ToFrom(b, 64);
  }

  /** The zero word links to address zero. */
  lemma NoLink()
    ensures Unlink(Zeros(64)) == FromNat(0, 64) == Zeros(64)
  {
    HighZeros(0, 0, 64);
    assert Unlink(Zeros(64)) == Zeros(64);
    assert FromNat(0, 64) == Zeros(64);
  }

  /** Every block that has a successor links to it. */
  ghost predicate Joined(chain: Chain) {
    forall k {:trigger chain[k].block.next} :: 0 <= k < |chain| - 1 ==>
        chain[k].block.next == Link(chain[k + 1].address)
  }

  /** Valid links on exactly the blocks that have a successor. */
  ghost predicate Linked(chain: Chain) {
    Joined(chain) && (chain != [] ==> chain[|chain| - 1].block.next == Zeros(64))
  }

  /** What the DMA pool, and the layout of an array of blocks, guarantee: word-aligned, pairwise different addresses. */
  ghost predicate PoolAddresses(s: seq<nat>) {
    && (forall k :: 0 <= k < |s| ==> s[k] % 4 == 0 && s[k] < SPACE)
    && (forall j, k :: 0 <= j < k < |s| ==> s[j] != s[k])
  }

  function Addresses(chain: Chain): (s: seq<nat>)
    ensures |s| == |chain|
  {
    seq(|chain|, k requires 0 <= k < |chain| => chain[k].address)
  }

  // ---------------------------------------------------------------- release

  /** The blocks given back, each with the address it is given back under. */
  datatype Freed = Freed(block: nat, address: Word)

  function AllFreed(chain: Chain): (r: seq<Freed>)
    ensures |r| == |chain|
  {
    seq(|chain|, k requires 0 <= k < |chain| => Freed(k, FromNat(chain[k].address, 64)))
  }

  lemma AllFreedMeans(chain: Chain, k: nat)
    requires k < |chain| && chain[k].address < SPACE
    ensures AllFreed(chain)[k].block == k && ToNat(AllFreed(chain)[k].address) == chain[k].address
  {
    PowersOfTwo();
    ToFrom(chain[k].address, 64);
  }

  /** The last block is kept back when its own address is zero: its empty link then looks like the
      self-link of a dummy buffer. */
  ghost function ReleasedBlocks(chain: Chain): nat {
    if chain != [] && chain[|chain| - 1].address == 0 then |chain| - 1 else |chain|
  }

  /** `me6_free_sgl`. It gives back every block once, under its own address, if and only if the last
      one does not live at address zero. */
  method FreeSgl(chain: Chain) returns (freed: seq<Freed>)
    requires Linked(chain) && PoolAddresses(Addresses(chain))
    ensures freed == AllFreed(chain)[..ReleasedBlocks(chain)]
    ensures freed == AllFreed(chain) <==> chain == [] || chain[|chain| - 1].address != 0
  {
    freed := [];
    if chain == [] { return; }
    ghost var all := AllFreed(chain);
    var res: nat := 0;
    var dma: Word := FromNat(chain[0].address, 64);
    while res < |chain|
      invariant res <= |chain| && (res < |chain| ==> Freed(res, dma) == all[res])
      invariant freed == all[..res]
      invariant res == |chain| ==> ReleasedBlocks(chain) == |chain|
    {
      var ndma := Unlink(chain[res].block.next);
      NextAddress(chain, res, ndma);
      if dma == ndma { break; }
      freed := freed + [Freed(res, dma)];
      OneMoreFreed(all, res);
      res := res + 1;
      dma := ndma;
    }
    assert |all[..res]| == res;
  }

  lemma OneMoreFreed(all: seq<Freed>, k: nat)
    requires k < |all|
    ensures all[..k + 1] == all[..k] + [all[k]]
  {
  }

  lemma NextAddress(chain: Chain, k: nat, n: Word)
    requires Linked(chain) && PoolAddresses(Addresses(chain)) && k < |chain| && n == Unlink(chain[k].block.next)
    ensures k + 1 < |chain| ==> Freed(k + 1, n) == AllFreed(chain)[k + 1]
    ensures Freed(k, n) == AllFreed(chain)[k] <==> k + 1 == |chain| && chain[k].address == 0
  {
    var s := Addresses(chain);
    assert s[k] == chain[k].address;
    if k + 1 < |chain| {
      assert s[k + 1] == chain[k + 1].address;
      InnerLink(s[k], s[k + 1]);
    } else {
      NoLink();
      SameNumber(s[k], 0);
    }
  }

  lemma InnerLink(a: nat, b: nat)
    requires a != b && a < SPACE && b < SPACE && b % 4 == 0
    ensures Unlink(Link(b)) == FromNat(b, 64) != FromNat(a, 64)
  {
    LinkReadsBack(b);
    SameNumber(a, b);
  }

  // ---------------------------------------------------------------- the engine

  /** Memory as the engine sees it: blocks by bus address. */
  type Memory = map<nat, Block>

  /** The list the engine gathers. It faults where there is no block, where the list goes on without a
      valid link, and where it has been before. */
  datatype Fetched = Done(entries: seq<Entry>) | Fault(entries: seq<Entry>)

  function After(es: seq<Entry>, f: Fetched): Fetched {
    match f
    case Done(more) => Done(es + more)
    case Fault(more) => Fault(es + more)
  }

  /** The entries the engine reads from one block, from entry `i` on. */
  function BlockEntries(d: Data, i: nat): (r: seq<Entry>)
    requires i < ENTRIES
    ensures |r| > 0
    decreases ENTRIES - i
  {
    var e := ReadEntry(d, i);
    if e.last || i + 1 == ENTRIES then [e] else [e] + BlockEntries(d, i + 1)
  }

  /** The engine reads the block at an address and stops at the first entry marked last; else it needs the
      valid bit and goes to the address in the link word. */
  function Engine(mem: Memory, address: nat, seen: set<nat>): Fetched
    decreases mem.Keys - seen
  {
    if address !in mem || address in seen then Fault([])
    else
      var b := mem[address];
      var es := BlockEntries(b.data, 0);
      if es[|es| - 1].last then Done(es)
      else if !b.next[0] then Fault(es)
      else
        assert address in mem.Keys - seen && address !in mem.Keys - (seen + {address});
        After(es, Engine(mem, ToNat(Unlink(b.next)), seen + {address}))
  }

  /** Without a valid link, and without an end, the engine goes nowhere. */
  lemma EngineNeedsLink(mem: Memory, address: nat, seen: set<nat>)
    requires address in mem && address !in seen && !mem[address].next[0]
    requires forall i :: 0 <= i < ENTRIES ==> !ReadEntry(mem[address].data, i).last
    ensures Engine(mem, address, seen).Fault? && |Engine(mem, address, seen).entries| == ENTRIES
  {
    var d := mem[address].data;
    BlockPart(d, ENTRIES, 0);
    assert BlockEntries(d, 0)[4] == ReadEntry(d, 4);
  }

  /** The blocks of a chain are where their addresses say. */
  ghost predicate Holds(mem: Memory, chain: Chain) {
    forall k :: 0 <= k < |chain| ==> chain[k].address in mem && mem[chain[k].address] == chain[k].block
  }

  function MemoryOf(chain: Chain): Memory {
    if chain == [] then map[]
        else MemoryOf(chain[..|chain| - 1])[chain[|chain| - 1].address := chain[|chain| - 1].block]
  }

  lemma {:induction false} MemoryHolds(chain: Chain)
    requires PoolAddresses(Addresses(chain))
    ensures Holds(MemoryOf(chain), chain)
  {
    if chain != [] {
      var n := |chain| - 1;
      assert Addresses(chain[..n]) == Addresses(chain)[..n];
      MemoryHolds(chain[..n]);
      forall k | 0 <= k < n ensures chain[k].address != chain[n].address {
        assert Addresses(chain)[k] != Addresses(chain)[n];
      }
    }
  }

  function EntryAt(chain: Chain, n: nat): Entry
    requires n / ENTRIES < |chain|
  {
    ReadEntry(chain[n / ENTRIES].block.data, n % ENTRIES)
  }

  /** Exactly the first `total` entries are in use, and only the last of them is marked. */
  ghost predicate Marked(chain: Chain, total: nat) {
    && total > 0 && |chain| == (total - 1) / ENTRIES + 1
    && forall n: nat {:trigger EntryAt(chain, n)} :: n < total ==>
       n / ENTRIES < |chain| && EntryAt(chain, n).last == (n == total - 1)
  }

  /** All entries in use, in list order. */
  function EntriesOf(chain: Chain, total: nat): (r: seq<Entry>)
    requires total <= ENTRIES * |chain|
    ensures |r| == total
  {
    seq(total, i requires 0 <= i < total => EntryAt(chain, i))
  }

  /** A block with `n` entries in use. */
  function FirstEntries(d: Data, i: nat, n: nat): (r: seq<Entry>)
    requires i <= n <= ENTRIES
  {
    seq(n - i, j requires 0 <= j < n - i => ReadEntry(d, i + j))
  }

  /** The engine takes the entries of a block up to the one marked last. */
  lemma {:induction false} BlockPart(d: Data, n: nat, i: nat)
    requires i < n <= ENTRIES
    requires forall j :: i <= j < n - 1 ==> !ReadEntry(d, j).last
    requires n == ENTRIES || ReadEntry(d, n - 1).last
    ensures BlockEntries(d, i) == FirstEntries(d, i, n)
    decreases n - i
  {
    if i < n - 1 {
      BlockPart(d, n, i + 1);
      assert FirstEntries(d, i, n) == [ReadEntry(d, i)] + FirstEntries(d, i + 1, n);
    }
  }

  lemma EntryInBlock(chain: Chain, k: nat, j: nat)
    requires k < |chain| && j < ENTRIES
    ensures EntryAt(chain, ENTRIES * k + j) == ReadEntry(chain[k].block.data, j)
  {
    assert (ENTRIES * k + j) / ENTRIES == k && (ENTRIES * k + j) % ENTRIES == j;
  }

  /** What the engine gathers from block `k`, of whose entries `n` are in use. */
  lemma BlockReads(chain: Chain, total: nat, k: nat, n: nat)
    requires Marked(chain, total) && k < |chain| && n == if k == |chain| - 1 then total - ENTRIES * k else ENTRIES
    ensures 0 < n <= ENTRIES
    ensures var es := BlockEntries(chain[k].block.data, 0);
            es == FirstEntries(chain[k].block.data, 0, n) && (es[|es| - 1].last <==> k == |chain| - 1)
  {
    var d := chain[k].block.data;
    forall j: nat | j < n ensures ReadEntry(d, j).last == (ENTRIES * k + j == total - 1) {
      EntryInBlock(chain, k, j);
      assert EntryAt(chain, ENTRIES * k + j).last == (ENTRIES * k + j == total - 1);
    }
    BlockPart(d, n, 0);
  }

  lemma EntriesJoin(chain: Chain, total: nat, k: nat, n: nat, from: nat, es: seq<Entry>, all: seq<Entry>)
    requires total <= ENTRIES * |chain| && k < |chain| && n <= ENTRIES && from == ENTRIES * k && from + n <= total
    requires es == FirstEntries(chain[k].block.data, 0, n) && all == EntriesOf(chain, total)
    ensures es + all[from + n..] == all[from..]
  {
    forall j: nat | j < n ensures es[j] == all[from + j] { EntryInBlock(chain, k, j); }
    assert all[from..from + n] == es;
  }

  /** A link word with the valid bit leads to the address it was made from. */
  lemma LinkLeads(address: nat)
    requires address % 4 == 0 && address < SPACE
    ensures Link(address)[0] && ToNat(Unlink(Link(address))) == address
    ensures forall k :: 0 < k < 64 ==> Link(address)[k] == (k < 63 && FromNat(address, 64)[k + 1])
  {
    LinkReadsBack(address);
    PowersOfTwo();
    ToFrom(address, 64);
  }

  lemma EngineEnds(mem: Memory, a: nat, seen: set<nat>, es: seq<Entry>)
    requires a in mem && a !in seen && es == BlockEntries(mem[a].data, 0) && es[|es| - 1].last
    ensures Engine(mem, a, seen) == Done(es)
  {
  }

  lemma EngineGoesOn(mem: Memory, a: nat, seen: set<nat>, es: seq<Entry>, b: nat, rest: Fetched)
    requires a in mem && a !in seen && es == BlockEntries(mem[a].data, 0) && !es[|es| - 1].last
    requires mem[a].next == Link(b) && b % 4 == 0 && b < SPACE && rest == Engine(mem, b, seen + {a})
    ensures Engine(mem, a, seen) == After(es, rest)
  {
    LinkLeads(b);
  }

  /** The addresses of the blocks before block `k`. */
  function SeenBefore(chain: Chain, k: nat): set<nat>
    requires k <= |chain|
  {
    set j | 0 <= j < k :: chain[j].address
  }

  lemma SeenNext(chain: Chain, k: nat)
    requires PoolAddresses(Addresses(chain)) && k < |chain|
    ensures chain[k].address !in SeenBefore(chain, k)
    ensures SeenBefore(chain, k + 1) == SeenBefore(chain, k) + {chain[k].address}
    ensures chain[k].address % 4 == 0 && chain[k].address < SPACE
  {
    var s := Addresses(chain);
    assert s[k] == chain[k].address;
    forall j | 0 <= j < k ensures chain[j].address != chain[k].address { assert s[j] != s[k]; }
  }

  /** An inner block: all its entries, then the next block. */
  lemma InnerBlock(mem: Memory, chain: Chain, total: nat, k: nat, seen: set<nat>, next: nat, rest: Fetched)
    returns (es: seq<Entry>)
    requires Marked(chain, total) && Joined(chain) && Holds(mem, chain) && k + 1 < |chain| && chain[k].address !in seen
    requires next == chain[k + 1].address && next % 4 == 0 && next < SPACE &&
             rest == Engine(mem, next, seen + {chain[k].address})
    ensures es == FirstEntries(chain[k].block.data, 0, ENTRIES) &&
            Engine(mem, chain[k].address, seen) == After(es, rest)
  {
    BlockReads(chain, total, k, ENTRIES);
    es := BlockEntries(chain[k].block.data, 0);
    EngineGoesOn(mem, chain[k].address, seen, es, next, rest);
  }

  lemma LastBlock(mem: Memory, chain: Chain, total: nat, k: nat, n: nat, seen: set<nat>) returns (es: seq<Entry>)
    requires Marked(chain, total) && Holds(mem, chain) && k + 1 == |chain| && chain[k].address !in seen &&
             n == total - ENTRIES * k
    ensures 0 < n <= ENTRIES
    ensures es == FirstEntries(chain[k].block.data, 0, n) && Engine(mem, chain[k].address, seen) == Done(es)
  {
    BlockReads(chain, total, k, n);
    es := BlockEntries(chain[k].block.data, 0);
    EngineEnds(mem, chain[k].address, seen, es);
  }

  lemma Inside(chain: Chain, total: nat, k: nat)
    requires Marked(chain, total) && k < |chain|
    ensures ENTRIES * k < total <= ENTRIES * |chain|
    ensures k + 1 < |chain| ==> ENTRIES * k + ENTRIES < total
  {
  }

  /** The engine at block `k`, given what it reads from block `k + 1` on. */
  lemma EngineStep(mem: Memory, chain: Chain, total: nat, k: nat, from: nat, seen: set<nat>, all: seq<Entry>)
    requires Marked(chain, total) && Joined(chain) && Holds(mem, chain) && total <= ENTRIES * |chain| &&
             all == EntriesOf(chain, total)
    requires k < |chain| && from == ENTRIES * k < total && chain[k].address !in seen
    requires k + 1 < |chain| ==>
             from + ENTRIES < total && chain[k + 1].address % 4 == 0 && chain[k + 1].address < SPACE
    requires k + 1 < |chain| ==>
             Engine(mem, chain[k + 1].address, seen + {chain[k].address}) == Done(all[from + ENTRIES..])
    ensures Engine(mem, chain[k].address, seen) == Done(all[from..])
  {
    if k + 1 == |chain| {
      var es := LastBlock(mem, chain, total, k, total - from, seen);
      EntriesJoin(chain, total, k, total - from, from, es, all);
      assert all[total..] == [];
    } else {
      var es := InnerBlock(mem, chain, total, k, seen, chain[k + 1].address, Done(all[from + ENTRIES..]));
      EntriesJoin(chain, total, k, ENTRIES, from, es, all);
    }
  }

  /** A chain in memory with distinct addresses and its entries marked. */
  ghost predicate Readable(mem: Memory, chain: Chain, total: nat, all: seq<Entry>) {
    && Marked(chain, total) && Joined(chain) && PoolAddresses(Addresses(chain)) && Holds(mem, chain)
    && total <= ENTRIES * |chain| && all == EntriesOf(chain, total)
  }

  /** From block `k` on, having been at the blocks before, the engine reads the remaining entries. */
  ghost predicate ReadsFrom(mem: Memory, chain: Chain, all: seq<Entry>, k: nat) {
    k < |chain| && ENTRIES * k <= |all| && Engine(mem, chain[k].address, SeenBefore(chain, k)) ==
        Done(all[ENTRIES * k..])
  }

  lemma ReadsStep(mem: Memory, chain: Chain, total: nat, all: seq<Entry>, k: nat)
    requires Readable(mem, chain, total, all) && k < |chain| && (k + 1 < |chain| ==> ReadsFrom(mem, chain, all, k + 1))
    ensures ReadsFrom(mem, chain, all, k)
  {
    Inside(chain, total, k);
    SeenNext(chain, k);
    if k + 1 < |chain| { SeenNext(chain, k + 1); }
    EngineStep(mem, chain, total, k, ENTRIES * k, SeenBefore(chain, k), all);
  }

  lemma {:induction false} ReadsAll(mem: Memory, chain: Chain, total: nat, all: seq<Entry>, k: nat)
    requires Readable(mem, chain, total, all) && k < |chain|
    ensures ReadsFrom(mem, chain, all, k)
    decreases |chain| - k
  {
    if k + 1 < |chain| { ReadsAll(mem, chain, total, all, k + 1); }
    ReadsStep(mem, chain, total, all, k);
  }

  /** Whatever else is in memory, the engine reads exactly the entries in use, in order. */
  lemma EngineReads(mem: Memory, chain: Chain, total: nat)
    requires Marked(chain, total) && Joined(chain) && PoolAddresses(Addresses(chain)) && Holds(mem, chain)
    ensures total <= ENTRIES * |chain| && Engine(mem, chain[0].address, {}) == Done(EntriesOf(chain, total))
  {
    Inside(chain, total, 0);
    var all := EntriesOf(chain, total);
    ReadsAll(mem, chain, total, all, 0);
    assert all[0..] == all && SeenBefore(chain, 0) == {};
  }

  /** One entry: where the engine writes, and how much. */
  function Transfer(e: Entry, payload: nat): Segment
    requires payload > 0
  {
    Segment(ToNat(e.addr), Decode(ToNat(e.size), ToNat(e.addr), payload))
  }

  function Transferred(es: seq<Entry>, payload: nat): (r: seq<Segment>)
    requires payload > 0
    ensures |r| == |es|
  {
    seq(|es|, k requires 0 <= k < |es| => Transfer(es[k], payload))
  }

  // ---------------------------------------------------------------- construction

  /** Bytes in the first `k` segments. */
  function Total(sg: seq<Segment>, k: nat): nat
    requires k <= |sg|
  {
    if k == 0 then 0 else Total(sg, k - 1) + sg[k - 1].len
  }

  /** What the driver gets from mapping a word-aligned buffer. Lengths need not be whole words. */
  ghost predicate Mappable(sg: seq<Segment>, payload: nat) {
    Payload(payload) && forall k :: 0 <= k < |sg| ==>
      sg[k].addr < SPACE && sg[k].addr % 4 == 0 && Fits(sg[k].addr % 4096, sg[k].len, payload)
  }

  /** The entry that describes segment `k` of `n`. */
  function Wanted(sg: seq<Segment>, payload: nat, k: nat): Entry
    requires k < |sg| && payload > 0
  {
    Entry(FromNat(sg[k].addr, 64), FromNat(KernelSize(sg[k].addr % 4096, sg[k].len, payload), 64)[..23], k == |sg| - 1)
  }

  lemma KernelSizeSmall(offset: nat, size: nat, payload: nat)
    requires Payload(payload)
    ensures KernelSize(offset, size, payload) < 0x80_0000
  {
    KernelSizeIs(offset, size, payload);
  }

  /** Length of the last transfer of segment `k`. */
  function LastOf(sg: seq<Segment>, payload: nat, k: nat): nat
    requires k < |sg| && payload > 0
  {
    LastTransfer(sg[k].addr % 4096, sg[k].len, payload)
  }

  /** An entry stands for its segment: the length is right for whole words, and too great exactly if the
      last transfer is shorter than a word. */
  lemma WantedMeans(sg: seq<Segment>, payload: nat, k: nat)
    requires Mappable(sg, payload) && k < |sg|
    ensures var t := Transfer(Wanted(sg, payload, k), payload);
            && t.addr == sg[k].addr
            && t.len == sg[k].len - LastOf(sg, payload, k) + InWords(LastOf(sg, payload, k))
            && (t.len == sg[k].len <==> sg[k].len % 4 == 0)
            && (t.len <= sg[k].len <==> LastOf(sg, payload, k) >= 4)
  {
    var s := KernelSize(sg[k].addr % 4096, sg[k].len, payload);
    PowersOfTwo();
    ToFrom(sg[k].addr, 64);
    KernelSizeSmall(sg[k].addr % 4096, sg[k].len, payload);
    HighZeros(s, 23, 64);
    ToFrom(s, 23);
    KernelDecodes(sg[k].addr % 4096, sg[k].len, payload);
    DecodeInPage(s, sg[k].addr, payload);
  }

  lemma AlignedWord(addr: nat)
    requires addr % 4 == 0
    ensures !FromNat(addr, 64)[0] && !FromNat(addr, 64)[1]
  {
    PowersOfTwo();
    LowZeros(addr, 2, 64);
  }

  lemma TotalGrows(sg: seq<Segment>, k: nat)
    requires k <= |sg|
    ensures Total(sg, k) <= Total(sg, |sg|)
    decreases |sg| - k
  {
    if k < |sg| { TotalGrows(sg, k + 1); }
  }

  datatype Outcome = Built(chain: Chain) | NoMemory(freed: seq<Freed>)

  /** The chain with the block under construction as its last one. */
  function WithCurrent(chain: Chain, address: nat, data: Data): Chain {
    chain + [Node(address, Block(Zeros(64), data))]
  }

  /** The first `n` entries are as wanted. */
  ghost predicate Encoded(chain: Chain, sg: seq<Segment>, payload: nat, n: nat) {
    payload > 0 && forall k: nat {:trigger EntryAt(chain, k)} :: k < n && k < |sg| ==>
      k / ENTRIES < |chain| && EntryAt(chain, k) == Wanted(sg, payload, k)
  }

  /** Blocks come from the pool in order, and all but the last are linked to their successor. */
  ghost predicate FromPool(chain: Chain, pool: seq<nat>) {
    |chain| <= |pool| && Linked(chain) && forall k :: 0 <= k < |chain| ==> chain[k].address == pool[k]
  }

  lemma PoolPrefix(chain: Chain, pool: seq<nat>)
    requires FromPool(chain, pool) && PoolAddresses(pool)
    ensures PoolAddresses(Addresses(chain))
  {
    var s := Addresses(chain);
    assert forall k :: 0 <= k < |s| ==> s[k] == pool[k];
  }

  /** One more entry in the current block. */
  lemma EncodeStep(chain: Chain, address: nat, data: Data, sg: seq<Segment>, payload: nat, e: nat)
    requires e < ENTRIES && ENTRIES * |chain| + e < |sg| && Mappable(sg, payload)
    requires Encoded(WithCurrent(chain, address, data), sg, payload, ENTRIES * |chain| + e)
    ensures var k := ENTRIES * |chain| + e;
            var size := FromNat(KernelSize(sg[k].addr % 4096, sg[k].len, payload), 64);
            Encoded(WithCurrent(chain, address, WriteEntry(data, e, FromNat(sg[k].addr, 64), size, k == |sg| - 1)),
                sg, payload, k + 1)
  {
    var k := ENTRIES * |chain| + e;
    var size := FromNat(KernelSize(sg[k].addr % 4096, sg[k].len, payload), 64);
    var addr := FromNat(sg[k].addr, 64);
    AlignedWord(sg[k].addr);
    var d2 := WriteEntry(data, e, addr, size, k == |sg| - 1);
    var c1, c2 := WithCurrent(chain, address, data), WithCurrent(chain, address, d2);
    forall n: nat {:trigger EntryAt(c2, n)} | n <= k
      ensures n / ENTRIES < |c2| && EntryAt(c2, n) == Wanted(sg, payload, n)
    {
      if n == k {
        assert n / ENTRIES == |chain| && n % ENTRIES == e;
        ReadWritten(data, e, addr, size, k == |sg| - 1);
      } else {
        assert EntryAt(c1, n) == Wanted(sg, payload, n);
        if n / ENTRIES == |chain| { ReadOther(data, e, n % ENTRIES, addr, size, k == |sg| - 1); }
      }
    }
  }

  /** Closing the current block and opening the next one. */
  lemma LinkStep(chain: Chain, address: nat, data: Data, next: nat, empty: Data, sg: seq<Segment>, payload: nat,
      pool: seq<nat>)
    requires Encoded(WithCurrent(chain, address, data), sg, payload, ENTRIES * |chain| + ENTRIES)
    requires FromPool(WithCurrent(chain, address, data), pool)
    requires |chain| + 1 < |pool| && next == pool[|chain| + 1]
    ensures var closed := chain + [Node(address, Block(Link(next), data))];
            && Encoded(WithCurrent(closed, next, empty), sg, payload, ENTRIES * |closed|)
            && FromPool(WithCurrent(closed, next, empty), pool)
  {
    var closed := chain + [Node(address, Block(Link(next), data))];
    var c1, c2 := WithCurrent(chain, address, data), WithCurrent(closed, next, empty);
    forall n: nat {:trigger EntryAt(c2, n)} | n < ENTRIES * |closed| && n < |sg|
      ensures n / ENTRIES < |c2| && EntryAt(c2, n) == Wanted(sg, payload, n)
    {
      assert EntryAt(c1, n) == Wanted(sg, payload, n);
    }
    forall k | 0 <= k < |c2| - 1 ensures c2[k].block.next == Link(c2[k + 1].address) {
      if k < |chain| { assert c1[k].block.next == Link(c1[k + 1].address); assert c2[k] == c1[k]; }
    }
    forall k | 0 <= k < |c2| ensures c2[k].address == pool[k] {
      if k <= |chain| { assert c1[k].address == pool[k]; }
    }
  }

  lemma EncodedMarks(chain: Chain, sg: seq<Segment>, payload: nat)
    requires Encoded(chain, sg, payload, |sg|) && |sg| > 0 && |chain| == (|sg| - 1) / ENTRIES + 1
    ensures Marked(chain, |sg|)
  {
    forall n: nat {:trigger EntryAt(chain, n)} | n < |sg|
      ensures n / ENTRIES < |chain| && EntryAt(chain, n).last == (n == |sg| - 1)
    {
      assert n / ENTRIES < |chain| && EntryAt(chain, n) == Wanted(sg, payload, n);
    }
  }

  function PoolFreed(pool: seq<nat>): (r: seq<Freed>)
    ensures |r| == |pool|
  {
    seq(|pool|, k requires 0 <= k < |pool| => Freed(k, FromNat(pool[k], 64)))
  }

  /** Giving back a chain that used up the pool gives back the whole pool. */
  lemma FreesPool(chain: Chain, pool: seq<nat>)
    requires FromPool(chain, pool) && |chain| == |pool| > 0 && PoolAddresses(pool) && 0 !in pool
    ensures PoolAddresses(Addresses(chain)) && chain[|chain| - 1].address != 0 && AllFreed(chain) == PoolFreed(pool)
  {
    PoolPrefix(chain, pool);
    assert chain[|chain| - 1].address == pool[|pool| - 1] && pool[|pool| - 1] in pool;
  }

  /** The `fail` path of `me6_create_userbuf`. */
  method GiveBack(chain: Chain, ghost pool: seq<nat>) returns (freed: seq<Freed>)
    requires FromPool(chain, pool) && |chain| == |pool| > 0 && PoolAddresses(pool) && 0 !in pool
    ensures freed == PoolFreed(pool)
  {
    FreesPool(chain, pool);
    freed := FreeSgl(chain);
  }

  /** The state of the construction before segment `b`, with `e` entries in the current block. */
  ghost predicate Building(chain: Chain, address: nat, data: Data, sg: seq<Segment>, payload: nat, pool: seq<nat>,
      b: nat, e: nat) {
    && ENTRIES * |chain| + e == b <= |sg| && e <= ENTRIES
    && ReservedClear(data)
    && FromPool(WithCurrent(chain, address, data), pool)
    && Encoded(WithCurrent(chain, address, data), sg, payload, b)
  }

  lemma BuildStart(address: nat, data: Data, sg: seq<Segment>, payload: nat, pool: seq<nat>)
    requires payload > 0 && pool != [] && address == pool[0] && ReservedClear(data)
    ensures Building([], address, data, sg, payload, pool, 0, 0)
  {
  }

  lemma BuildNext(chain: Chain, address: nat, data: Data, next: nat, empty: Data, sg: seq<Segment>, payload: nat,
      pool: seq<nat>, b: nat)
    requires Building(chain, address, data, sg, payload, pool, b, ENTRIES) && ReservedClear(empty)
    requires |chain| + 1 < |pool| && next == pool[|chain| + 1]
    ensures Building(chain + [Node(address, Block(Link(next), data))], next, empty, sg, payload, pool, b, 0)
  {
    LinkStep(chain, address, data, next, empty, sg, payload, pool);
  }

  /** Encodes segment `b` into the current block. */
  method EncodeSegment(data: array<Word>, ghost chain: Chain, ghost address: nat, sg: seq<Segment>, len: nat,
      payload: nat, ghost pool: seq<nat>, b: nat, e: nat)
    requires data.Length == 7 && e < ENTRIES && b < |sg| && Mappable(sg, payload) && len == sg[b].len
    requires Building(chain, address, data[..], sg, payload, pool, b, e)
    modifies data
    ensures Building(chain, address, data[..], sg, payload, pool, b + 1, e + 1)
  {
    ghost var d := data[..];
    EncodeStep(chain, address, d, sg, payload, e);
    SetSglEntry(data, e, FromNat(sg[b].addr, 64), FromNat(KernelSize(sg[b].addr % 4096, len, payload), 64),
                b + 1 == |sg|);
    SamePool(chain, address, d, data[..], pool);
  }

  lemma SamePool(chain: Chain, address: nat, d: Data, d2: Data, pool: seq<nat>)
    requires FromPool(WithCurrent(chain, address, d), pool)
    ensures FromPool(WithCurrent(chain, address, d2), pool)
  {
    var c1, c2 := WithCurrent(chain, address, d), WithCurrent(chain, address, d2);
    forall k | 0 <= k < |c2| - 1 ensures c2[k].block.next == Link(c2[k + 1].address) {
      assert c1[k].block.next == Link(c1[k + 1].address);
    }
    forall k | 0 <= k < |c2| ensures c2[k].address == pool[k] { assert c1[k].address == pool[k]; }
  }

  /** Links a full block to a new one and starts filling that. */
  method OpenBlock(chain: Chain, address: nat, data: array<Word>, ghost sg: seq<Segment>, ghost payload: nat,
      pool: seq<nat>, ghost b: nat)
    returns (longer: Chain, next: nat, empty: array<Word>)
    requires data.Length == 7 && Building(chain, address, data[..], sg, payload, pool, b, ENTRIES)
    requires |chain| + 1 < |pool|
    ensures fresh(empty) && empty.Length == 7 && |longer| == |chain| + 1
    ensures Building(longer, next, empty[..], sg, payload, pool, b, 0)
  {
    next := pool[|chain| + 1];
    empty := new Word[7](_ => Zeros(64));
    BuildNext(chain, address, data[..], next, empty[..], sg, payload, pool, b);
    longer := chain + [Node(address, Block(Link(next), data[..]))];
  }

  /** One round of the loop: encodes segment `b`, and opens a new block if this one is full and there is
      more to come. Fails if the pool has no block left. */
  method AddSegment(chain: Chain, address: nat, data: array<Word>, sg: seq<Segment>, len: nat, payload: nat,
      pool: seq<nat>, b: nat, e: nat)
    returns (ok: bool, longer: Chain, next: nat, block: array<Word>, used: nat)
    requires data.Length == 7 && e < ENTRIES && b < |sg| && Mappable(sg, payload) && len == sg[b].len
    requires Building(chain, address, data[..], sg, payload, pool, b, e)
    modifies data
    ensures (block == data || fresh(block)) && block.Length == 7
    ensures ok ==> Building(longer, next, block[..], sg, payload, pool, b + 1, used)
    ensures ok ==> (b + 1 == |sg| ==> used > 0) && (used == ENTRIES ==> b + 1 == |sg|)
    ensures !ok ==>
            ENTRIES * |pool| < |sg| && |longer| + 1 == |pool| && FromPool(WithCurrent(longer, next, block[..]), pool)
  {
    ok, longer, next, block, used := true, chain, address, data, e + 1;
    EncodeSegment(data, chain, address, sg, len, payload, pool, b, e);
    if used == ENTRIES && b + 1 < |sg| {
      if |chain| + 1 == |pool| { return false, chain, address, data, used; }
      longer, next, block := OpenBlock(chain, address, data, sg, payload, pool, b + 1);
      used := 0;
    }
  }

  /** The loop of `me6_create_userbuf`: fills blocks until the segments or the pool are used up. */
  method BuildBlocks(sg: seq<Segment>, bufLength: nat, payload: nat, pool: seq<nat>)
    returns (ok: bool, chain: Chain, address: nat, data: array<Word>)
    requires sg != [] && pool != [] && Mappable(sg, payload) && Total(sg, |sg|) <= bufLength
    ensures fresh(data) && data.Length == 7
    ensures ok ==>
            ENTRIES * |chain| < |sg| &&
            Building(chain, address, data[..], sg, payload, pool, |sg|, |sg| - ENTRIES * |chain|)
    ensures !ok ==>
            ENTRIES * |pool| < |sg| && |chain| + 1 == |pool| && FromPool(WithCurrent(chain, address, data[..]), pool)
  {
    var remaining := bufLength;
    chain, address, data := [], pool[0], new Word[7](_ => Zeros(64));
    var b: nat, e: nat := 0, 0;
    BuildStart(address, data[..], sg, payload, pool);
    ok := true;
    while b < |sg| && ok
      invariant b <= |sg| && (b == |sg| ==> e > 0) && (e == ENTRIES ==> b == |sg|)
      invariant fresh(data) && data.Length == 7
      invariant ok ==> Building(chain, address, data[..], sg, payload, pool, b, e)
      invariant !ok ==>
                ENTRIES * |pool| < |sg| && |chain| + 1 == |pool| &&
                FromPool(WithCurrent(chain, address, data[..]), pool)
      invariant remaining == bufLength - Total(sg, b)
      decreases |sg| - b, ok
    {
      var len := sg[b].len;
      TotalGrows(sg, b + 1);
      if len > remaining { len := remaining; }
      var used: nat;
      ok, chain, address, data, used := AddSegment(chain, address, data, sg, len, payload, pool, b, e);
      if ok {
        remaining := remaining - len;
        b, e := b + 1, used;
      }
    }
  }

  /** `me6_create_userbuf`. `pool` holds the addresses of the allocations that succeed; the one after
      them fails, and then everything allocated is given back, once and under its own address. */
  method CreateUserBuffer(sg: seq<Segment>, bufLength: nat, payload: nat, pool: seq<nat>) returns (r: Outcome)
    requires sg != [] && Mappable(sg, payload) && Total(sg, |sg|) <= bufLength
    requires PoolAddresses(pool) && 0 !in pool
    ensures r.Built? <==> |pool| > (|sg| - 1) / ENTRIES
    ensures r.Built? ==> FromPool(r.chain, pool) && Marked(r.chain, |sg|) && Encoded(r.chain, sg, payload, |sg|)
    ensures r.NoMemory? ==> r.freed == PoolFreed(pool)
  {
    if pool == [] { return NoMemory([]); }
    var ok, chain, address, data := BuildBlocks(sg, bufLength, payload, pool);
    if ok {
      EncodedMarks(WithCurrent(chain, address, data[..]), sg, payload);
      r := Built(WithCurrent(chain, address, data[..]));
    } else {
      var freed := GiveBack(WithCurrent(chain, address, data[..]), pool);
      r := NoMemory(freed);
    }
  }

  /** The engine, started at the first block of a built chain in a memory that holds it, follows the links
      and reads one entry per segment, in order, the last one marked. */
  lemma ChainDecodes(mem: Memory, chain: Chain, pool: seq<nat>, sg: seq<Segment>, payload: nat) returns (es: seq<Entry>)
    requires Mappable(sg, payload) && Holds(mem, chain) && PoolAddresses(pool)
    requires FromPool(chain, pool) && Marked(chain, |sg|) && Encoded(chain, sg, payload, |sg|)
    ensures Engine(mem, pool[0], {}) == Done(es) && |es| == |sg|
    ensures forall k: nat :: k < |sg| ==> es[k] == Wanted(sg, payload, k)
  {
    PoolPrefix(chain, pool);
    EngineReads(mem, chain, |sg|);
    es := EntriesOf(chain, |sg|);
    forall k: nat | k < |sg| ensures es[k] == Wanted(sg, payload, k) {
      assert EntryAt(chain, k) == Wanted(sg, payload, k);
    }
  }

  /** So the engine transfers exactly the scatter list, if and only if all lengths are whole words; and it
      stays within every segment if and only if no last transfer is shorter than a word. */
  lemma ChainTransfersIff(es: seq<Entry>, sg: seq<Segment>, payload: nat)
    requires Mappable(sg, payload) && |es| == |sg| && forall k: nat :: k < |sg| ==> es[k] == Wanted(sg, payload, k)
    ensures forall k: nat :: k < |sg| ==> Transferred(es, payload)[k].addr == sg[k].addr
    ensures Transferred(es, payload) == sg <==> forall k: nat :: k < |sg| ==> sg[k].len % 4 == 0
    ensures (forall k: nat :: k < |sg| ==> Transferred(es, payload)[k].len <= sg[k].len) <==>
            (forall k: nat :: k < |sg| ==> LastOf(sg, payload, k) >= 4)
  {
    var t := Transferred(es, payload);
    forall k: nat | k < |sg|
      ensures t[k].addr == sg[k].addr && (t[k].len == sg[k].len <==> sg[k].len % 4 == 0) &&
              (t[k].len <= sg[k].len <==> LastOf(sg, payload, k) >= 4)
    {
      WantedMeans(sg, payload, k);
    }
    if forall k: nat :: k < |sg| ==> sg[k].len % 4 == 0 {
      assert forall k: nat :: k < |sg| ==> t[k] == sg[k];
    }
  }
}
