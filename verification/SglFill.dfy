/** The first library builder: a buffer that is contiguous in virtual memory is cut at page ends, and the
    pieces are appended to the blocks, batch after batch. */
module SglFill {
  import opened Bits
  import opened Lists
  import opened SglEntry
  import opened SglSize
  import opened SglChain
  import opened SglMerge

  const PAGE_SIZE: nat := 4096

  // ---------------------------------------------------------------- pieces

  /** `get_bus_address`: `frames` holds the bus address of every page of the buffer. */
  function Bus(frames: seq<nat>, v: nat): nat
    requires v / PAGE_SIZE < |frames|
  {
    frames[v / PAGE_SIZE] + v % PAGE_SIZE
  }

  ghost predicate PageTable(frames: seq<nat>) {
    forall k :: 0 <= k < |frames| ==> frames[k] % PAGE_SIZE == 0 && frames[k] + PAGE_SIZE <= SPACE
  }

  /** `prepare_sgl_block`. */
  function EntryLength(bus: nat, left: nat, payload: nat): (r: nat)
    requires 0 < payload && left > 0
    ensures 0 < r <= left && bus % PAGE_SIZE + r <= PAGE_SIZE
  {
    var most := MAX_TRANSFERS * payload - bus % payload;
    var bounded := if left < most then left else most;
    if PAGE_SIZE - bus % PAGE_SIZE < bounded then PAGE_SIZE - bus % PAGE_SIZE else bounded
  }

  /** Enough pages for `left` bytes from `v` on. */
  predicate Backed(frames: seq<nat>, v: nat, left: nat) { v + left <= |frames| * PAGE_SIZE }

  lemma InTable(frames: seq<nat>, v: nat, left: nat)
    requires Backed(frames, v, left) && left > 0
    ensures v / PAGE_SIZE < |frames|
  {
  }

  function Pieces(frames: seq<nat>, v: nat, left: nat, payload: nat): seq<Segment>
    requires 0 < payload && Backed(frames, v, left)
    decreases left
  {
    if left == 0 then []
    else
      InTable(frames, v, left);
      var len := EntryLength(Bus(frames, v), left, payload);
      [Segment(Bus(frames, v), len)] + Pieces(frames, v + len, left - len, payload)
  }

  /** The bus addresses of the bytes of the buffer, one by one. */
  function BusBytes(frames: seq<nat>, v: nat, left: nat): (r: seq<nat>)
    requires Backed(frames, v, left)
    ensures |r| == left && forall i :: 0 <= i < left ==> (v + i) / PAGE_SIZE < |frames| && r[i] == Bus(frames, v + i)
    decreases left
  {
    if left == 0 then []
    else
      InTable(frames, v, left);
      [Bus(frames, v)] + BusBytes(frames, v + 1, left - 1)
  }

  lemma SamePage(v: nat, i: nat)
    requires v % PAGE_SIZE + i < PAGE_SIZE
    ensures (v + i) / PAGE_SIZE == v / PAGE_SIZE && (v + i) % PAGE_SIZE == v % PAGE_SIZE + i
  {
  }

  lemma BusOffset(frames: seq<nat>, v: nat)
    requires PageTable(frames) && v / PAGE_SIZE < |frames|
    ensures Bus(frames, v) % PAGE_SIZE == v % PAGE_SIZE && Bus(frames, v) < SPACE
  {
  }

  /** A run within a page, then the rest. */
  lemma BytesJoin(frames: seq<nat>, v: nat, len: nat, left: nat, bus: nat, v2: nat, left2: nat)
    requires Backed(frames, v, left) && 0 < len <= left && v / PAGE_SIZE < |frames| && bus == Bus(frames, v) &&
             v % PAGE_SIZE + len <= PAGE_SIZE
    requires v2 == v + len && left2 == left - len
    ensures Range(bus, len) + BusBytes(frames, v2, left2) == BusBytes(frames, v, left)
  {
    var a, tail, b := Range(bus, len), BusBytes(frames, v2, left2), BusBytes(frames, v, left);
    forall i | 0 <= i < left ensures (a + tail)[i] == b[i] {
      if i < len { SamePage(v, i); } else { assert (a + tail)[i] == tail[i - len]; }
    }
  }

  lemma CoveredCons(p: Segment, tail: seq<Segment>)
    ensures Covered([p] + tail) == Range(p.addr, p.len) + Covered(tail)
  {
    assert ([p] + tail)[1..] == tail;
  }

  /** The pieces are exactly the bytes of the buffer, in order. */
  lemma {:induction false} PiecesCover(frames: seq<nat>, v: nat, left: nat, payload: nat)
    requires 0 < payload && PageTable(frames) && Backed(frames, v, left)
    ensures Covered(Pieces(frames, v, left, payload)) == BusBytes(frames, v, left)
    decreases left
  {
    if left > 0 {
      InTable(frames, v, left);
      BusOffset(frames, v);
      var bus := Bus(frames, v);
      var len := EntryLength(bus, left, payload);
      var v2, left2 := v + len, left - len;
      var tail := Pieces(frames, v2, left2, payload);
      PiecesCover(frames, v2, left2, payload);
      CoveredCons(Segment(bus, len), tail);
      assert Pieces(frames, v, left, payload) == [Segment(bus, len)] + tail;
      BytesJoin(frames, v, len, left, bus, v2, left2);
    }
  }

  /** A piece is as long as its page, or the rest of the buffer, allows. */
  lemma PieceLongest(bus: nat, left: nat, payload: nat)
    requires Payload(payload) && left > 0
    ensures EntryLength(bus, left, payload) ==
            if left < PAGE_SIZE - bus % PAGE_SIZE then left else PAGE_SIZE - bus % PAGE_SIZE
  {
    assert MAX_TRANSFERS * payload - bus % payload >= PAGE_SIZE;
  }

  /** Every piece of a word-aligned buffer starts on a word and stays in its page; if the buffer has whole
      words only, so have the pieces. */
  lemma {:induction false} PieceBounds(frames: seq<nat>, v: nat, left: nat, payload: nat, m: nat)
    requires Payload(payload) && PageTable(frames) && Backed(frames, v, left) && v % 4 == 0
    requires m < |Pieces(frames, v, left, payload)|
    ensures var p := Pieces(frames, v, left, payload)[m];
            && p.addr < SPACE && p.addr % 4 == 0 && p.len > 0 && p.addr % PAGE_SIZE + p.len <= PAGE_SIZE
            && (left % 4 == 0 ==> p.len % 4 == 0)
    decreases left
  {
    FirstPiece(frames, v, left, payload);
    if m > 0 {
      var len := EntryLength(Bus(frames, v), left, payload);
      PieceBounds(frames, v + len, left - len, payload, m - 1);
    }
  }

  lemma FirstPiece(frames: seq<nat>, v: nat, left: nat, payload: nat)
    requires Payload(payload) && PageTable(frames) && Backed(frames, v, left) && v % 4 == 0 && left > 0
    ensures v / PAGE_SIZE < |frames|
    ensures var bus := Bus(frames, v); var len := EntryLength(bus, left, payload);
            && bus < SPACE && bus % 4 == 0 && (len < left ==> (v + len) % 4 == 0)
            && (left % 4 == 0 ==> len % 4 == 0 && (left - len) % 4 == 0)
  {
    InTable(frames, v, left);
    BusOffset(frames, v);
    WholeWords(Bus(frames, v), v, left, payload);
  }

  lemma Whole(x: nat)
    requires x % 4 == 0
    ensures x % PAGE_SIZE % 4 == 0
  {
  }

  lemma WholeWords(bus: nat, v: nat, left: nat, payload: nat)
    requires Payload(payload) && bus % PAGE_SIZE == v % PAGE_SIZE && v % 4 == 0 && left > 0
    ensures bus % 4 == 0 && (EntryLength(bus, left, payload) < left || left % 4 == 0 ==>
            EntryLength(bus, left, payload) % 4 == 0)
  {
    Whole(v);
    FromPage(bus / PAGE_SIZE, bus % PAGE_SIZE, bus);
    Mod4(bus, payload);
    Difference(payload, bus % payload);
  }

  lemma FromPage(q: nat, o: nat, bus: nat)
    requires bus == PAGE_SIZE * q + o && o % 4 == 0
    ensures bus % 4 == 0
  {
  }

  lemma Difference(payload: nat, m: nat)
    requires m % 4 == 0
    ensures (MAX_TRANSFERS * payload - m) % 4 == 0
  {
  }

  /** The entry for a piece. */
  function PieceEntry(p: Segment, last: bool, payload: nat): Entry
    requires payload > 0
  {
    Entry(FromNat(p.addr, 64), FromNat(LibrarySize(p.addr % PAGE_SIZE, p.len, payload), 64)[..23], last)
  }

  /** The engine transfers the piece, exactly if it has whole words: the narrow transfer count of the size
      word does not matter for pieces of one page. */
  lemma PieceMeans(p: Segment, last: bool, payload: nat)
    requires Payload(payload) && p.addr < SPACE && p.addr % 4 == 0 && p.len > 0 &&
             p.addr % PAGE_SIZE + p.len <= PAGE_SIZE
    ensures var t := Transfer(PieceEntry(p, last, payload), payload);
            t.addr == p.addr && (t.len == p.len <==> p.len % 4 == 0)
  {
    var offset := p.addr % PAGE_SIZE;
    Whole(p.addr);
    PageBounded(offset, p.len, payload);
    var s := KernelSize(offset, p.len, payload);
    PowersOfTwo();
    ToFrom(p.addr, 64);
    KernelSizeSmall(offset, p.len, payload);
    HighZeros(s, 23, 64);
    ToFrom(s, 23);
    KernelDecodes(offset, p.len, payload);
    DecodeInPage(s, p.addr, payload);
  }

  // ---------------------------------------------------------------- layout

  function NoData(): Data { [Zeros(64), Zeros(64), Zeros(64), Zeros(64), Zeros(64), Zeros(64), Zeros(64)] }

  /** A block filled with zeros. */
  function Empty(): Block { Block(Zeros(64), NoData()) }

  /** A new block is cleared and linked from the one before it. */
  function Opened(blocks: seq<Block>, phys: seq<nat>, k: nat): (r: seq<Block>)
    requires k < |blocks| == |phys|
    ensures |r| == |blocks|
  {
    var cleared := blocks[k := Empty()];
    if k == 0 then cleared else cleared[k - 1 := cleared[k - 1].(next := Link(phys[k]))]
  }

  function WithEntry(b: Block, entry: nat, piece: Segment, last: bool, payload: nat): Block
    requires entry < ENTRIES && payload > 0
  {
    b.(data := WriteEntry(b.data, entry, FromNat(piece.addr, 64),
        FromNat(LibrarySize(piece.addr % PAGE_SIZE, piece.len, payload), 64), last))
  }

  /** Entry number `at` of the list. */
  function Append(blocks: seq<Block>, phys: seq<nat>, at: nat, piece: Segment, last: bool,
      payload: nat): (r: seq<Block>)
    requires |blocks| == |phys| && at < ENTRIES * |blocks| && payload > 0
    ensures |r| == |blocks|
  {
    var k := at / ENTRIES;
    var q := if at % ENTRIES == 0 then Opened(blocks, phys, k) else blocks;
    q[k := WithEntry(q[k], at % ENTRIES, piece, last, payload)]
  }

  /** One call of `fill_blocks`: its pieces become the entries from number `from` on. */
  datatype Batch = Batch(from: nat, pieces: seq<Segment>, isLast: bool, payload: nat)

  predicate Room(b: Batch, n: nat) { b.from + |b.pieces| <= ENTRIES * n && b.payload > 0 }

  function AppendPiece(blocks: seq<Block>, phys: seq<nat>, b: Batch, m: nat): (r: seq<Block>)
    requires |blocks| == |phys| && Room(b, |blocks|) && m < |b.pieces|
    ensures |r| == |blocks|
  {
    Append(blocks, phys, b.from + m, b.pieces[m], b.isLast && m == |b.pieces| - 1, b.payload)
  }

  /** The first `j` pieces of a batch. */
  function Appended(blocks: seq<Block>, phys: seq<nat>, b: Batch, j: nat): (r: seq<Block>)
    requires |blocks| == |phys| && Room(b, |blocks|) && j <= |b.pieces|
    ensures |r| == |blocks|
  {
    if j == 0 then blocks else AppendPiece(Appended(blocks, phys, b, j - 1), phys, b, j - 1)
  }

  /** What the next-block link of block `k` must be after the entries `from` up to `to` were appended. */
  function LinkAfter(blocks: seq<Block>, phys: seq<nat>, from: nat, to: nat, k: nat): Word
    requires k < |blocks| == |phys|
  {
    if from <= (k + 1) * ENTRIES < to && k + 1 < |phys| then Link(phys[k + 1])
    else if from <= k * ENTRIES < to then Zeros(64)
    else blocks[k].next
  }

  /** Entry number `n` of the list. */
  function EntryOf(blocks: seq<Block>, n: nat): Option<Entry> {
    if n / ENTRIES < |blocks| then Some(ReadEntry(blocks[n / ENTRIES].data, n % ENTRIES)) else None
  }

  lemma AppendReads(blocks: seq<Block>, phys: seq<nat>, at: nat, piece: Segment, last: bool, payload: nat, n: nat,
      e: Entry)
    requires |blocks| == |phys| && at < ENTRIES * |blocks| && payload > 0
    requires n < at && EntryOf(blocks, n) == Some(e)
    ensures EntryOf(Append(blocks, phys, at, piece, last, payload), n) == Some(e)
  {
    if n / ENTRIES == at / ENTRIES {
      ReadOther(blocks[at / ENTRIES].data, at % ENTRIES, n % ENTRIES, FromNat(piece.addr, 64),
                FromNat(LibrarySize(piece.addr % PAGE_SIZE, piece.len, payload), 64), last);
    }
  }

  lemma AppendReadsNew(blocks: seq<Block>, phys: seq<nat>, at: nat, piece: Segment, last: bool, payload: nat)
    requires |blocks| == |phys| && at < ENTRIES * |blocks| && payload > 0 && piece.addr % 4 == 0
    ensures EntryOf(Append(blocks, phys, at, piece, last, payload), at) ==
            Some(PieceEntry(piece, last, payload))
  {
    var d := if at % ENTRIES != 0 then blocks[at / ENTRIES].data else Empty().data;
    AlignedWord(piece.addr);
    ReadWritten(d, at % ENTRIES, FromNat(piece.addr, 64),
        FromNat(LibrarySize(piece.addr % PAGE_SIZE, piece.len, payload), 64), last);
  }

  /** Induction over the pieces of a batch, with the property and the result under their own names. */
  lemma {:induction false} AppendedInduction(blocks: seq<Block>, phys: seq<nat>, b: Batch, j: nat, r: seq<Block>,
      P: (seq<Block>, nat) -> bool)
    requires |blocks| == |phys| && Room(b, |blocks|) && j <= |b.pieces| && r == Appended(blocks, phys, b, j) &&
             P(blocks, 0)
    requires forall q, m {:trigger AppendPiece(q, phys, b, m)} ::
               0 <= m < |b.pieces| && |q| == |blocks| && P(q, m) ==> P(AppendPiece(q, phys, b, m), m + 1)
    ensures P(r, j)
  {
    if j > 0 {
      var q := Appended(blocks, phys, b, j - 1);
      AppendedInduction(blocks, phys, b, j - 1, q, P);
      assert P(AppendPiece(q, phys, b, j - 1), j - 1 + 1);
    }
  }

  lemma KeptPiece(q: seq<Block>, phys: seq<nat>, b: Batch, m: nat, n: nat, e: Entry)
    requires |q| == |phys| && Room(b, |q|) && m < |b.pieces| && n < b.from + m && EntryOf(q, n) == Some(e)
    ensures EntryOf(AppendPiece(q, phys, b, m), n) == Some(e)
  {
    AppendReads(q, phys, b.from + m, b.pieces[m], b.isLast && m == |b.pieces| - 1, b.payload, n, e);
  }

  /** Appending a batch leaves every earlier entry alone. */
  lemma BatchKeeps(blocks: seq<Block>, phys: seq<nat>, b: Batch, j: nat, r: seq<Block>, n: nat, e: Entry)
    requires |blocks| == |phys| && Room(b, |blocks|) && j <= |b.pieces| && r == Appended(blocks, phys, b, j)
    requires n < b.from && EntryOf(blocks, n) == Some(e)
    ensures EntryOf(r, n) == Some(e)
  {
    ghost var P := (q: seq<Block>, m: nat) => EntryOf(q, n) == Some(e);
    forall q: seq<Block>, m: nat {:trigger AppendPiece(q, phys, b, m)} | m < |b.pieces| && |q| == |blocks| && P(q, m)
      ensures P(AppendPiece(q, phys, b, m), m + 1)
    {
      KeptPiece(q, phys, b, m, n, e);
    }
    AppendedInduction(blocks, phys, b, j, r, P);
  }

  lemma NewPiece(q: seq<Block>, phys: seq<nat>, b: Batch, m: nat, n: nat, e: Entry)
    requires |q| == |phys| && Room(b, |q|) && m < |b.pieces| && b.pieces[m].addr % 4 == 0
    requires n == b.from + m && e == PieceEntry(b.pieces[m], b.isLast && m == |b.pieces| - 1, b.payload)
    ensures EntryOf(AppendPiece(q, phys, b, m), n) == Some(e)
  {
    AppendReadsNew(q, phys, b.from + m, b.pieces[m], b.isLast && m == |b.pieces| - 1, b.payload);
  }

  lemma NewOrKept(q: seq<Block>, phys: seq<nat>, b: Batch, k: nat, m: nat, n: nat, e: Entry)
    requires |q| == |phys| && Room(b, |q|) && k < |b.pieces| && m < |b.pieces| && b.pieces[m].addr % 4 == 0
    requires n == b.from + m && e == PieceEntry(b.pieces[m], b.isLast && m == |b.pieces| - 1, b.payload)
    requires k > m ==> EntryOf(q, n) == Some(e)
    ensures k + 1 > m ==> EntryOf(AppendPiece(q, phys, b, k), n) == Some(e)
  {
    if k == m { NewPiece(q, phys, b, m, n, e); }
    if k > m { KeptPiece(q, phys, b, k, n, e); }
  }

  /** Piece `m` of a batch is read back as entry `from + m`. */
  lemma BatchReads(blocks: seq<Block>, phys: seq<nat>, b: Batch, r: seq<Block>, m: nat, e: Entry, n: nat)
    requires |blocks| == |phys| && Room(b, |blocks|) && m < |b.pieces| && b.pieces[m].addr % 4 == 0 && n == b.from + m
    requires r == Appended(blocks, phys, b, |b.pieces|) &&
             e == PieceEntry(b.pieces[m], b.isLast && m == |b.pieces| - 1, b.payload)
    ensures EntryOf(r, n) == Some(e)
  {
    ghost var P := (q: seq<Block>, k: nat) => k > m ==> EntryOf(q, n) == Some(e);
    forall q: seq<Block>, k: nat {:trigger AppendPiece(q, phys, b, k)} | k < |b.pieces| && |q| == |blocks| && P(q, k)
      ensures P(AppendPiece(q, phys, b, k), k + 1)
    {
      NewOrKept(q, phys, b, k, m, n, e);
    }
    AppendedInduction(blocks, phys, b, |b.pieces|, r, P);
  }

  lemma AppendLinks(blocks: seq<Block>, q: seq<Block>, phys: seq<nat>, from: nat, at: nat, piece: Segment, last: bool,
      payload: nat, k: nat)
    requires |blocks| == |phys| == |q| && at < ENTRIES * |blocks| && payload > 0 && from <= at && k < |q|
    requires q[k].next == LinkAfter(blocks, phys, from, at, k)
    ensures Append(q, phys, at, piece, last, payload)[k].next == LinkAfter(blocks, phys, from, at + 1, k)
  {
  }

  predicate LinkSet(blocks: seq<Block>, q: seq<Block>, phys: seq<nat>, from: nat, m: nat, k: nat) {
    k < |q| == |blocks| == |phys| && q[k].next == LinkAfter(blocks, phys, from, from + m, k)
  }

  lemma LinkStart(blocks: seq<Block>, phys: seq<nat>, from: nat, k: nat)
    requires k < |blocks| == |phys|
    ensures LinkSet(blocks, blocks, phys, from, 0, k)
  {
  }

  lemma PieceLinks(blocks: seq<Block>, q: seq<Block>, phys: seq<nat>, b: Batch, m: nat, k: nat)
    requires |q| == |phys| && Room(b, |q|) && m < |b.pieces| && LinkSet(blocks, q, phys, b.from, m, k)
    ensures LinkSet(blocks, AppendPiece(q, phys, b, m), phys, b.from, m + 1, k)
  {
    AppendLinks(blocks, q, phys, b.from, b.from + m, b.pieces[m], b.isLast && m == |b.pieces| - 1, b.payload, k);
  }

  /** Links after a batch: every block it opened is linked from the one before, and ends the list unless
      another was opened. */
  lemma BatchLinks(blocks: seq<Block>, phys: seq<nat>, b: Batch, j: nat, r: seq<Block>, k: nat)
    requires |blocks| == |phys| && Room(b, |blocks|) && j <= |b.pieces| && k < |blocks| &&
             r == Appended(blocks, phys, b, j)
    ensures LinkSet(blocks, r, phys, b.from, j, k)
  {
    ghost var P := (q: seq<Block>, m: nat) => LinkSet(blocks, q, phys, b.from, m, k);
    forall q: seq<Block>, m: nat {:trigger AppendPiece(q, phys, b, m)} | m < |b.pieces| && |q| == |blocks| && P(q, m)
      ensures P(AppendPiece(q, phys, b, m), m + 1)
    {
      PieceLinks(blocks, q, phys, b, m, k);
    }
    LinkStart(blocks, phys, b.from, k);
    AppendedInduction(blocks, phys, b, j, r, P);
  }

  // ---------------------------------------------------------------- the loop

  method PutPiece(blocks: array<Block>, phys: seq<nat>, at: nat, piece: Segment, last: bool, payload: nat)
    requires blocks.Length == |phys| && at < ENTRIES * blocks.Length && payload > 0
    modifies blocks
    ensures blocks[..] == Append(old(blocks[..]), phys, at, piece, last, payload)
  {
    var k, entry := at / ENTRIES, at % ENTRIES;
    if entry == 0 {
      blocks[k] := Empty();
      if k > 0 { blocks[k - 1] := blocks[k - 1].(next := Link(phys[k])); }
    }
    var size := FromNat(LibrarySize(piece.addr % PAGE_SIZE, piece.len, payload), 64);
    var d := EncodeDev2Pc(blocks[k].data, entry, FromNat(piece.addr, 64), size, last);
    blocks[k] := blocks[k].(data := d);
  }

  lemma NextPiece(frames: seq<nat>, v: nat, left: nat, payload: nat, all: seq<Segment>, j: nat, len: nat, v2: nat,
      left2: nat)
    requires payload > 0 && Backed(frames, v, left) && left > 0 && j <= |all| &&
             Pieces(frames, v, left, payload) == all[j..]
    requires v / PAGE_SIZE < |frames| && len == EntryLength(Bus(frames, v), left, payload) && v2 == v + len &&
             left2 == left - len
    ensures j < |all| && all[j] == Segment(Bus(frames, v), len)
    ensures Backed(frames, v2, left2) && Pieces(frames, v2, left2, payload) == all[j + 1..] &&
            (left2 == 0 <==> j == |all| - 1)
  {
    assert all[j..][0] == Segment(Bus(frames, v), len);
    assert all[j..][1..] == all[j + 1..];
  }

  lemma OneMore(was: seq<Block>, phys: seq<nat>, b: Batch, j: nat, q: seq<Block>, r: seq<Block>, at: nat,
      piece: Segment, last: bool)
    requires |was| == |phys| == |q| && Room(b, |was|) && j < |b.pieces| && q == Appended(was, phys, b, j)
    requires at == b.from + j && piece == b.pieces[j] && last == (b.isLast && j == |b.pieces| - 1)
    requires r == Append(q, phys, at, piece, last, b.payload)
    ensures r == Appended(was, phys, b, j + 1)
  {
  }

  /** `fill_blocks` in the device-to-host layout, on blocks that suffice. */
  method FillBlocks(blocks: array<Block>, phys: seq<nat>, from: nat, frames: seq<nat>, v0: nat, length: nat,
      lastBatch: bool, payload: nat)
    returns (next: nat)
    requires payload > 0 && Backed(frames, v0, length) && blocks.Length == |phys|
    requires Room(Batch(from, Pieces(frames, v0, length, payload), lastBatch, payload), blocks.Length)
    modifies blocks
    ensures var b := Batch(from, Pieces(frames, v0, length, payload), lastBatch, payload);
            next == from + |b.pieces| && blocks[..] == Appended(old(blocks[..]), phys, b, |b.pieces|)
  {
    ghost var was, b := blocks[..], Batch(from, Pieces(frames, v0, length, payload), lastBatch, payload);
    var v: nat, left: nat := v0, length;
    next := from;
    ghost var j: nat := 0;
    while left > 0
      invariant Backed(frames, v, left) && j <= |b.pieces| && next == from + j &&
                Pieces(frames, v, left, payload) == b.pieces[j..]
      invariant blocks[..] == Appended(was, phys, b, j)
      decreases left
    {
      InTable(frames, v, left);
      var bus := Bus(frames, v);
      var len := EntryLength(bus, left, payload);
      var v2, left2 := v + len, left - len;
      NextPiece(frames, v, left, payload, b.pieces, j, len, v2, left2);
      ghost var q := blocks[..];
      PutPiece(blocks, phys, next, Segment(bus, len), lastBatch && left2 == 0, payload);
      OneMore(was, phys, b, j, q, blocks[..], next, Segment(bus, len), lastBatch && left2 == 0);
      v, left, next, j := v2, left2, next + 1, j + 1;
    }
  }

  // ---------------------------------------------------------------- what the engine transfers

  /** Two batches in a row are one batch. */
  function Joint(b: Batch, c: Batch): Batch {
    Batch(b.from, b.pieces + c.pieces, c.isLast, b.payload)
  }

  predicate Follows(b: Batch, c: Batch) {
    !b.isLast && c.pieces != [] && c.from == b.from + |b.pieces| && c.payload == b.payload
  }

  /** `b` goes on as `d` does from piece `n` on, for `count` pieces, its end marked as in `d`. */
  predicate PartOf(b: Batch, d: Batch, n: nat, count: nat) {
    && b.payload == d.payload && b.from == d.from + n && n + count <= |d.pieces| && count == |b.pieces|
    && (forall j {:trigger b.pieces[j]} :: 0 <= j < count ==> b.pieces[j] == d.pieces[n + j])
    && (forall j: nat {:trigger b.pieces[j]} :: j < count ==>
        ((b.isLast && j == count - 1) == (d.isLast && n + j == |d.pieces| - 1)))
  }

  lemma SamePiece(q: seq<Block>, phys: seq<nat>, b: Batch, d: Batch, n: nat, j: nat, k: nat)
    requires |q| == |phys| && Room(b, |q|) && Room(d, |q|) && j < |b.pieces| && k == n + j &&
             PartOf(b, d, n, |b.pieces|)
    ensures AppendPiece(q, phys, b, j) == AppendPiece(q, phys, d, k)
  {
    assert b.pieces[j] == d.pieces[k];
  }

  /** What the first `j` pieces of a batch make of the blocks, if there is room. */
  function Filled(blocks: seq<Block>, phys: seq<nat>, b: Batch, j: nat): Option<seq<Block>> {
    if |blocks| == |phys| && Room(b, |blocks|) && j <= |b.pieces| then Some(Appended(blocks, phys, b, j)) else None
  }

  lemma PartStep(blocks: seq<Block>, r: seq<Block>, phys: seq<nat>, b: Batch, d: Batch, n: nat, j: nat, q: seq<Block>)
    requires PartOf(b, d, n, |b.pieces|) && 0 < j <= |b.pieces|
    requires Filled(r, phys, b, j - 1) == Some(q) && Filled(blocks, phys, d, n + j - 1) == Some(q)
    ensures Filled(r, phys, b, j) == Filled(blocks, phys, d, n + j)
    ensures Filled(r, phys, b, j).Some?
  {
    SamePiece(q, phys, b, d, n, j - 1, n + j - 1);
  }

  lemma {:induction false} PartFilled(blocks: seq<Block>, r: seq<Block>, phys: seq<nat>, b: Batch, d: Batch, n: nat,
      j: nat)
    requires PartOf(b, d, n, |b.pieces|) && j <= |b.pieces|
    requires Filled(blocks, phys, d, n) == Some(r) && Filled(r, phys, b, 0) == Some(r)
    ensures Filled(r, phys, b, j) == Filled(blocks, phys, d, n + j)
    ensures Filled(r, phys, b, j).Some?
  {
    if j > 0 {
      PartFilled(blocks, r, phys, b, d, n, j - 1);
      PartStep(blocks, r, phys, b, d, n, j, Filled(r, phys, b, j - 1).value);
    }
  }

  lemma JointParts(b: Batch, c: Batch)
    requires Follows(b, c)
    ensures PartOf(b, Joint(b, c), 0, |b.pieces|) && PartOf(c, Joint(b, c), |b.pieces|, |c.pieces|)
  {
  }

  lemma NoPieces(blocks: seq<Block>, phys: seq<nat>, b: Batch)
    requires |blocks| == |phys| && Room(b, |blocks|)
    ensures Filled(blocks, phys, b, 0) == Some(blocks)
  {
  }

  lemma PartsJoin(blocks: seq<Block>, phys: seq<nat>, b: Batch, c: Batch, d: Batch, n: nat, m: nat, q: seq<Block>)
    requires PartOf(b, d, 0, n) && PartOf(c, d, n, m) && Room(d, |blocks|) && |blocks| == |phys|
    requires Filled(blocks, phys, b, n) == Some(q)
    ensures Filled(q, phys, c, m) == Filled(blocks, phys, d, n + m)
  {
    NoPieces(blocks, phys, b);
    NoPieces(blocks, phys, d);
    PartFilled(blocks, blocks, phys, b, d, 0, n);
    NoPieces(q, phys, c);
    PartFilled(blocks, q, phys, c, d, n, m);
  }

  /** Filling batch after batch is filling once with all the pieces. */
  lemma BatchesJoin(blocks: seq<Block>, phys: seq<nat>, b: Batch, c: Batch, q: seq<Block>)
    requires |blocks| == |phys| && Follows(b, c) && Room(Joint(b, c), |blocks|)
    requires Filled(blocks, phys, b, |b.pieces|) == Some(q)
    ensures Filled(q, phys, c, |c.pieces|) == Filled(blocks, phys, Joint(b, c), |b.pieces| + |c.pieces|)
  {
    JointParts(b, c);
    PartsJoin(blocks, phys, b, c, Joint(b, c), |b.pieces|, |c.pieces|, q);
  }

  /** A list that is complete: it starts at the first entry, and its last piece ends it. */
  predicate Complete(b: Batch) { b.from == 0 && b.isLast && b.pieces != [] }

  lemma FilledMarked(blocks: seq<Block>, phys: seq<nat>, b: Batch, total: nat, used: nat, r: seq<Block>)
    requires |blocks| == |phys| && Room(b, |blocks|) && Complete(b) && total == |b.pieces| &&
             used == (total - 1) / ENTRIES + 1
    requires r == Appended(blocks, phys, b, total) && forall p :: p in b.pieces ==> p.addr % 4 == 0
    ensures used <= |r| && Marked(ChainOf(r, phys, used), total)
    ensures forall n: nat :: n < total ==>
            n / ENTRIES < used &&
            EntryAt(ChainOf(r, phys, used), n) == PieceEntry(b.pieces[n], n == total - 1, b.payload)
  {
    var chain := ChainOf(r, phys, used);
    forall n: nat {:trigger EntryAt(chain, n)} | n < total
      ensures n / ENTRIES < |chain| && EntryAt(chain, n) == PieceEntry(b.pieces[n], n == total - 1, b.payload)
    {
      BatchReads(blocks, phys, b, r, n, PieceEntry(b.pieces[n], n == total - 1, b.payload), n);
    }
  }

  lemma FilledJoined(blocks: seq<Block>, phys: seq<nat>, b: Batch, total: nat, used: nat, r: seq<Block>)
    requires |blocks| == |phys| && Room(b, |blocks|) && Complete(b) && total == |b.pieces| &&
             used == (total - 1) / ENTRIES + 1
    requires r == Appended(blocks, phys, b, total) && PoolAddresses(phys)
    ensures used <= |r| && Joined(ChainOf(r, phys, used)) && PoolAddresses(Addresses(ChainOf(r, phys, used)))
  {
    var chain := ChainOf(r, phys, used);
    forall k {:trigger chain[k].block.next} | 0 <= k < used - 1
      ensures chain[k].block.next == Link(chain[k + 1].address)
    {
      assert (k + 1) * ENTRIES < total && chain[k].block == r[k];
      BatchLinks(blocks, phys, b, total, r, k);
    }
    var s := Addresses(chain);
    assert forall k :: 0 <= k < |s| ==> s[k] == phys[k];
  }

  /** The engine, started at the first block in any memory that holds the filled blocks, reads one entry per
      piece, the last one marked. */
  lemma EngineReadsPieces(mem: Memory, blocks: seq<Block>, phys: seq<nat>, b: Batch, r: seq<Block>)
    returns (es: seq<Entry>)
    requires |blocks| == |phys| && Room(b, |blocks|) && Complete(b) && r == Appended(blocks, phys, b, |b.pieces|) &&
             PoolAddresses(phys)
    requires forall p :: p in b.pieces ==> p.addr % 4 == 0
    requires forall k :: 0 <= k < |r| ==> phys[k] in mem && mem[phys[k]] == r[k]
    ensures Engine(mem, phys[0], {}) == Done(es) && |es| == |b.pieces|
    ensures forall n: nat :: n < |es| ==> es[n] == PieceEntry(b.pieces[n], n == |es| - 1, b.payload)
  {
    var total := |b.pieces|;
    var used := (total - 1) / ENTRIES + 1;
    FilledMarked(blocks, phys, b, total, used, r);
    FilledJoined(blocks, phys, b, total, used, r);
    var chain := ChainOf(r, phys, used);
    EngineReads(mem, chain, total);
    es := EntriesOf(chain, total);
    forall n: nat | n < |es| ensures es[n] == PieceEntry(b.pieces[n], n == |es| - 1, b.payload) {
      assert EntryAt(chain, n) == PieceEntry(b.pieces[n], n == total - 1, b.payload);
    }
  }

  // ---------------------------------------------------------------- any number of buffers

  /** A buffer handed to one call of `fill_blocks`: its pages, its start and its length. */
  datatype Part = Part(frames: seq<nat>, v: nat, left: nat)

  ghost predicate PartOk(p: Part) { PageTable(p.frames) && Backed(p.frames, p.v, p.left) && p.v % 4 == 0 }

  ghost predicate PartsOk(parts: seq<Part>, payload: nat) {
    Payload(payload) && forall k :: 0 <= k < |parts| ==> PartOk(parts[k])
  }

  /** The pieces of the first `k` buffers. */
  ghost function AllPieces(parts: seq<Part>, payload: nat, k: nat): seq<Segment>
    requires PartsOk(parts, payload) && k <= |parts|
  {
    if k == 0 then []
    else AllPieces(parts, payload, k - 1) + Pieces(parts[k - 1].frames, parts[k - 1].v, parts[k - 1].left, payload)
  }

  /** The bus addresses of their bytes, one by one. */
  ghost function AllBytes(parts: seq<Part>, payload: nat, k: nat): seq<nat>
    requires PartsOk(parts, payload) && k <= |parts|
  {
    if k == 0 then []
    else AllBytes(parts, payload, k - 1) + BusBytes(parts[k - 1].frames, parts[k - 1].v, parts[k - 1].left)
  }

  /** Call number `k` (from one): it goes on at the next entry, and the last one is the last batch. */
  ghost function CallBatch(parts: seq<Part>, payload: nat, k: nat): Batch
    requires PartsOk(parts, payload) && 0 < k <= |parts|
  {
    Batch(|AllPieces(parts, payload, k - 1)|, Pieces(parts[k - 1].frames, parts[k - 1].v, parts[k - 1].left, payload),
          k == |parts|, payload)
  }

  /** The blocks after `k` calls. */
  ghost function FilledUpTo(blocks: seq<Block>, phys: seq<nat>, parts: seq<Part>, payload: nat, k: nat): (r: seq<Block>)
    requires PartsOk(parts, payload) && k <= |parts| && |blocks| == |phys|
    requires |AllPieces(parts, payload, k)| <= ENTRIES * |blocks|
    ensures |r| == |blocks|
  {
    if k == 0 then blocks
    else
      var b := CallBatch(parts, payload, k);
      Appended(FilledUpTo(blocks, phys, parts, payload, k - 1), phys, b, |b.pieces|)
  }

  /** The first `k` buffers as one batch. */
  ghost function WholeBatch(parts: seq<Part>, payload: nat, k: nat): Batch
    requires PartsOk(parts, payload) && k <= |parts|
  {
    Batch(0, AllPieces(parts, payload, k), k == |parts|, payload)
  }

  lemma CallJoins(parts: seq<Part>, payload: nat, k: nat, b: Batch, c: Batch)
    requires PartsOk(parts, payload) && 0 < k <= |parts|
    requires b == WholeBatch(parts, payload, k - 1) && c == CallBatch(parts, payload, k)
    ensures WholeBatch(parts, payload, k) == Joint(b, c) && !b.isLast && c.from == b.from + |b.pieces|
    ensures c.pieces == [] ==> WholeBatch(parts, payload, k).pieces == b.pieces && parts[k - 1].left == 0
  {
  }

  lemma CallStep(blocks: seq<Block>, phys: seq<nat>, b: Batch, c: Batch, q: seq<Block>)
    requires |blocks| == |phys| && Room(Joint(b, c), |blocks|) && !b.isLast && c.from == b.from + |b.pieces|
    requires c.payload == b.payload && (c.isLast ==> c.pieces != [])
    requires Filled(blocks, phys, b, |b.pieces|) == Some(q)
    ensures Filled(q, phys, c, |c.pieces|) == Filled(blocks, phys, Joint(b, c), |b.pieces| + |c.pieces|)
  {
    if c.pieces == [] {
      assert Joint(b, c) == b;
      NoPieces(q, phys, c);
    } else {
      BatchesJoin(blocks, phys, b, c, q);
    }
  }

  /** The blocks after `k` calls, if there is room. */
  ghost function AfterCalls(blocks: seq<Block>, phys: seq<nat>, parts: seq<Part>, payload: nat,
      k: nat): Option<seq<Block>>
    requires PartsOk(parts, payload) && k <= |parts|
  {
    if |blocks| == |phys| && |AllPieces(parts, payload, k)| <= ENTRIES * |blocks|
    then Some(FilledUpTo(blocks, phys, parts, payload, k)) else None
  }

  ghost function AtOnce(blocks: seq<Block>, phys: seq<nat>, parts: seq<Part>, payload: nat, k: nat): Option<seq<Block>>
    requires PartsOk(parts, payload) && k <= |parts|
  {
    Filled(blocks, phys, WholeBatch(parts, payload, k), |AllPieces(parts, payload, k)|)
  }

  /** The last buffer is not empty. */
  ghost predicate Ends(parts: seq<Part>) { parts != [] && parts[|parts| - 1].left > 0 }

  lemma OneCall(blocks: seq<Block>, phys: seq<nat>, parts: seq<Part>, payload: nat, k: nat, b: Batch, c: Batch,
      r: seq<Block>)
    returns (q: seq<Block>)
    requires PartsOk(parts, payload) && 0 < k <= |parts| && AfterCalls(blocks, phys, parts, payload, k) == Some(r)
    requires b == WholeBatch(parts, payload, k - 1) && c == CallBatch(parts, payload, k)
    ensures |blocks| == |phys| && Room(Joint(b, c), |blocks|)
    ensures AfterCalls(blocks, phys, parts, payload, k - 1) == Some(q) && Filled(q, phys, c, |c.pieces|) == Some(r)
  {
    q := AfterCalls(blocks, phys, parts, payload, k - 1).value;
  }

  lemma FillStep(blocks: seq<Block>, phys: seq<nat>, parts: seq<Part>, payload: nat, k: nat)
    requires PartsOk(parts, payload) && 0 < k <= |parts| && Ends(parts)
    requires AfterCalls(blocks, phys, parts, payload, k - 1) == AtOnce(blocks, phys, parts, payload, k - 1)
    ensures AfterCalls(blocks, phys, parts, payload, k) == AtOnce(blocks, phys, parts, payload, k)
  {
    var after := AfterCalls(blocks, phys, parts, payload, k);
    if after.Some? {
      var b, c := WholeBatch(parts, payload, k - 1), CallBatch(parts, payload, k);
      CallJoins(parts, payload, k, b, c);
      var q := OneCall(blocks, phys, parts, payload, k, b, c, after.value);
      CallStep(blocks, phys, b, c, q);
    }
  }

  /** Filling call after call is filling once with all the pieces, if the last buffer is not empty. */
  lemma {:induction false} FillsOnce(blocks: seq<Block>, phys: seq<nat>, parts: seq<Part>, payload: nat, k: nat)
    requires PartsOk(parts, payload) && k <= |parts| && Ends(parts)
    ensures AfterCalls(blocks, phys, parts, payload, k) == AtOnce(blocks, phys, parts, payload, k)
  {
    if k > 0 {
      FillsOnce(blocks, phys, parts, payload, k - 1);
      FillStep(blocks, phys, parts, payload, k);
    }
  }

  lemma CoveredFirst(a: seq<Segment>, b: seq<Segment>, x: seq<nat>, y: seq<nat>)
    requires a != [] && x == Covered(a[1..]) && y == Covered(b) && Covered(a[1..] + b) == x + y
    ensures Covered(a + b) == Covered(a) + y
  {
    var h := Range(a[0].addr, a[0].len);
    assert (a + b)[1..] == a[1..] + b;
    assert h + (x + y) == (h + x) + y;
  }

  lemma {:induction false} CoveredJoin(a: seq<Segment>, b: seq<Segment>)
    ensures Covered(a + b) == Covered(a) + Covered(b)
  {
    if a == [] {
      assert a + b == b;
    } else {
      CoveredJoin(a[1..], b);
      CoveredFirst(a, b, Covered(a[1..]), Covered(b));
    }
  }

  lemma {:induction false} AllCovered(parts: seq<Part>, payload: nat, k: nat)
    requires PartsOk(parts, payload) && k <= |parts|
    ensures Covered(AllPieces(parts, payload, k)) == AllBytes(parts, payload, k)
  {
    if k > 0 {
      var p := parts[k - 1];
      AllCovered(parts, payload, k - 1);
      PiecesCover(p.frames, p.v, p.left, payload);
      CoveredJoin(AllPieces(parts, payload, k - 1), Pieces(p.frames, p.v, p.left, payload));
    }
  }

  /** What the engine can make of a piece: it starts on a word and stays in its page. */
  predicate Proper(p: Segment) { p.addr < SPACE && p.addr % 4 == 0 && p.len > 0 &&
      p.addr % PAGE_SIZE + p.len <= PAGE_SIZE }

  predicate WholeLength(p: Segment) { p.len % 4 == 0 }

  ghost predicate AllProper(s: seq<Segment>) { forall n: nat :: n < |s| ==> Proper(s[n]) }

  ghost predicate AllWhole(s: seq<Segment>) { forall n: nat :: n < |s| ==> WholeLength(s[n]) }

  lemma PiecesJoin(a: seq<Segment>, b: seq<Segment>)
    ensures AllWhole(a + b) <==> AllWhole(a) && AllWhole(b)
    ensures AllProper(a) && AllProper(b) ==> AllProper(a + b)
  {
    var c := a + b;
    if AllWhole(c) {
      forall n: nat | n < |a| ensures WholeLength(a[n]) { assert c[n] == a[n]; }
      forall n: nat | n < |b| ensures WholeLength(b[n]) { assert c[|a| + n] == b[n]; }
    }
  }

  lemma FirstProper(frames: seq<nat>, v: nat, left: nat, payload: nat) returns (p: Segment)
    requires Payload(payload) && PageTable(frames) && Backed(frames, v, left) && v % 4 == 0 && left > 0
    ensures 0 < p.len <= left && Proper(p)
    ensures Pieces(frames, v, left, payload) == [p] + Pieces(frames, v + p.len, left - p.len, payload)
    ensures p.len < left ==> (v + p.len) % 4 == 0
    ensures left % 4 == 0 <==> WholeLength(p) && (left - p.len) % 4 == 0
  {
    FirstPiece(frames, v, left, payload);
    p := Segment(Bus(frames, v), EntryLength(Bus(frames, v), left, payload));
    WholeRest(v, p.len, left);
  }

  lemma WholeRest(v: nat, len: nat, left: nat)
    requires v % 4 == 0 && len <= left && (len < left ==> (v + len) % 4 == 0)
    ensures left % 4 == 0 <==> len % 4 == 0 && (left - len) % 4 == 0
  {
  }

  /** All pieces have whole words if and only if their buffer has. */
  lemma {:induction false} WholeIff(frames: seq<nat>, v: nat, left: nat, payload: nat, pieces: seq<Segment>)
    requires Payload(payload) && PageTable(frames) && Backed(frames, v, left) && v % 4 == 0
    requires pieces == Pieces(frames, v, left, payload)
    ensures (AllWhole(pieces) <==> left % 4 == 0) && AllProper(pieces)
    decreases left
  {
    if left > 0 {
      var p := FirstProper(frames, v, left, payload);
      var tail := Pieces(frames, v + p.len, left - p.len, payload);
      if p.len < left { WholeIff(frames, v + p.len, left - p.len, payload, tail); }
      FirstAndRest(p, tail, pieces);
    }
  }

  lemma FirstAndRest(p: Segment, tail: seq<Segment>, all: seq<Segment>)
    requires all == [p] + tail && Proper(p) && AllProper(tail)
    ensures (AllWhole(all) <==> WholeLength(p) && AllWhole(tail)) && AllProper(all)
  {
    PiecesJoin([p], tail);
    assert [p][0] == p;
  }

  /** Every one of the first `k` buffers has whole words. */
  ghost predicate WholeParts(parts: seq<Part>, k: nat)
    requires k <= |parts|
  {
    forall i :: 0 <= i < k ==> parts[i].left % 4 == 0
  }

  lemma {:induction false} AllWholeIff(parts: seq<Part>, payload: nat, k: nat)
    requires PartsOk(parts, payload) && k <= |parts|
    ensures (AllWhole(AllPieces(parts, payload, k)) <==> WholeParts(parts, k)) &&
            AllProper(AllPieces(parts, payload, k))
  {
    if k > 0 {
      var p := parts[k - 1];
      AllWholeIff(parts, payload, k - 1);
      WholeIff(p.frames, p.v, p.left, payload, Pieces(p.frames, p.v, p.left, payload));
      PiecesJoin(AllPieces(parts, payload, k - 1), Pieces(p.frames, p.v, p.left, payload));
    }
  }

  lemma ProperMeans(p: Segment, last: bool, payload: nat, t: Segment)
    requires Payload(payload) && Proper(p) && t == Transfer(PieceEntry(p, last, payload), payload)
    ensures t == p <==> WholeLength(p)
  {
    PieceMeans(p, last, payload);
  }

  lemma PiecesTransferredIff(es: seq<Entry>, pieces: seq<Segment>, payload: nat)
    requires Payload(payload) && |es| == |pieces| && AllProper(pieces)
    requires forall n: nat :: n < |es| ==> es[n] == PieceEntry(pieces[n], n == |es| - 1, payload)
    ensures Transferred(es, payload) == pieces <==> AllWhole(pieces)
  {
    var t := Transferred(es, payload);
    forall n: nat | n < |es| ensures t[n] == pieces[n] <==> WholeLength(pieces[n]) {
      ProperMeans(pieces[n], n == |es| - 1, payload, t[n]);
    }
    if AllWhole(pieces) { assert forall n: nat :: n < |es| ==> WholeLength(pieces[n]) && t[n] == pieces[n]; }
  }

  /** Any number of word-aligned buffers, filled one call after the other: the engine, started at the first block,
      transfers exactly their pieces if and only if every buffer has whole words, and then exactly their bytes, in
      order. */
  lemma BuffersTransferred(mem: Memory, blocks: seq<Block>, phys: seq<nat>, parts: seq<Part>, payload: nat)
    returns (es: seq<Entry>)
    requires PartsOk(parts, payload) && Ends(parts)
    requires |blocks| == |phys| && PoolAddresses(phys) && |AllPieces(parts, payload, |parts|)| <= ENTRIES * |blocks|
    requires forall k :: 0 <= k < |phys| ==>
             phys[k] in mem && mem[phys[k]] == FilledUpTo(blocks, phys, parts, payload, |parts|)[k]
    ensures |phys| > 0 && Engine(mem, phys[0], {}) == Done(es)
    ensures Transferred(es, payload) == AllPieces(parts, payload, |parts|) <==> WholeParts(parts, |parts|)
    ensures WholeParts(parts, |parts|) ==> Covered(Transferred(es, payload)) == AllBytes(parts, payload, |parts|)
  {
    var n := |parts|;
    var b, r := WholeBatch(parts, payload, n), FilledUpTo(blocks, phys, parts, payload, n);
    FillsOnce(blocks, phys, parts, payload, n);
    AllWholeIff(parts, payload, n);
    assert forall p :: p in b.pieces ==> p.addr % 4 == 0 by {
      forall p | p in b.pieces ensures p.addr % 4 == 0 {
        var i: nat :| i < |b.pieces| && b.pieces[i] == p;
        assert Proper(b.pieces[i]);
      }
    }
    es := EngineReadsPieces(mem, blocks, phys, b, r);
    PiecesTransferredIff(es, b.pieces, payload);
    AllCovered(parts, payload, n);
  }

  // ---------------------------------------------------------------- where the blocks are

  const BLOCK_SIZE: nat := 64

  /** The bus addresses of `n` blocks in an array that starts at `v`. */
  function BlockAddresses(frames: seq<nat>, v: nat, n: nat): (r: seq<nat>)
    requires Backed(frames, v, BLOCK_SIZE * n)
    ensures |r| == n
  {
    seq(n, k requires 0 <= k < n => InTable(frames, v + BLOCK_SIZE * k, BLOCK_SIZE); Bus(frames, v + BLOCK_SIZE * k))
  }

  lemma BusApart(frames: seq<nat>, a: nat, b: nat)
    requires PageTable(frames) && (forall i, j :: 0 <= i < j < |frames| ==> frames[i] != frames[j])
    requires a < b && a / PAGE_SIZE < |frames| && b / PAGE_SIZE < |frames|
    ensures Bus(frames, a) != Bus(frames, b)
  {
    BusOffset(frames, a);
    BusOffset(frames, b);
    var i, j := a / PAGE_SIZE, b / PAGE_SIZE;
    assert a == PAGE_SIZE * i + a % PAGE_SIZE && b == PAGE_SIZE * j + b % PAGE_SIZE;
  }

  /** An array of blocks in pages of its own has addresses fit for links. */
  lemma BlockArray(frames: seq<nat>, v: nat, n: nat)
    requires PageTable(frames) && (forall i, j :: 0 <= i < j < |frames| ==> frames[i] != frames[j])
    requires v % 4 == 0 && Backed(frames, v, BLOCK_SIZE * n)
    ensures PoolAddresses(BlockAddresses(frames, v, n))
  {
    var s := BlockAddresses(frames, v, n);
    forall k | 0 <= k < n ensures s[k] % 4 == 0 && s[k] < SPACE {
      var at := v + BLOCK_SIZE * k;
      InTable(frames, at, BLOCK_SIZE);
      BusOffset(frames, at);
      Whole(at);
      FromPage(s[k] / PAGE_SIZE, s[k] % PAGE_SIZE, s[k]);
    }
    forall j, k | 0 <= j < k < n ensures s[j] != s[k] {
      InTable(frames, v + BLOCK_SIZE * j, BLOCK_SIZE);
      InTable(frames, v + BLOCK_SIZE * k, BLOCK_SIZE);
      BusApart(frames, v + BLOCK_SIZE * j, v + BLOCK_SIZE * k);
    }
  }
}
