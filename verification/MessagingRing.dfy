/** The messaging DMA ring: transmissions the board wrote into a ring of 1024-word pages, and the two
    ways the driver reads them. */
module MessagingRing {
  import opened Arith

  const PAGE: nat := 1024
  const WRAP: nat := 0x1_0000_0000

  type Page = p: seq<nat> | |p| == PAGE && forall i :: 0 <= i < PAGE ==> p[i] < WRAP witness seq(PAGE, _ => 0)

  /** Word `k` of the ring. */
  function Word(pages: seq<Page>, k: nat): nat
    requires k < |pages| * PAGE
  {
    pages[k / PAGE][k % PAGE]
  }

  // ---------------------------------------------------------------- read offset

  /** A place where a transmission may start: never the last word of a page. */
  predicate Start(k: nat, n: nat) { 0 < n && k < n * PAGE && k % PAGE != PAGE - 1 }

  /** How `copy_next_transmission_data` moves on, with its 32-bit sum. */
  function Skip(k: nat, size: nat, n: nat): nat
    requires n > 0
  {
    var total := n * PAGE;
    var next := (k + size) % WRAP % total;
    if next % PAGE == PAGE - 1 then (next + 1) % total else next
  }

  /** How `get_next_transmission` moves on. */
  function Follow(k: nat, size: nat, n: nat): nat
    requires n > 0
  {
    var next := (k + size) % WRAP;
    var jumped := if PAGE - next % PAGE == 1 then (next + 1) % WRAP else next;
    jumped % (n * PAGE)
  }

  /** After the last word of a page comes the first word of a page. */
  lemma PageEnd(x: nat, n: nat)
    requires 0 < n && x % PAGE == PAGE - 1
    ensures (x + 1) % (n * PAGE) % PAGE == 0
  {
    PageOffset(x + 1, n);
  }

  /** The offset within a page does not notice the reduction to the ring. */
  lemma PageOffset(x: nat, n: nat)
    requires 0 < n
    ensures x % (n * PAGE) % PAGE == x % PAGE
  {
    var total := n * PAGE;
    var q, r := x / total, x % total;
    assert x == total * q + r;
    Regroup(n, PAGE, q);
    var m := n * q;
    assert x == PAGE * (m + r / PAGE) + r % PAGE;
    DivModUnique(x, PAGE, m + r / PAGE, r % PAGE);
  }

  lemma Regroup(n: nat, p: nat, q: nat)
    ensures (n * p) * q == p * (n * q)
  {
  }

  /** Every path of either reader leaves the offset at a possible start, whatever length was read. */
  lemma SkipStarts(k: nat, size: nat, n: nat)
    requires n > 0
    ensures Start(Skip(k, size, n), n)
  {
    var next := (k + size) % WRAP % (n * PAGE);
    if next % PAGE == PAGE - 1 { PageEnd(next, n); }
  }

  lemma FollowStarts(k: nat, size: nat, n: nat)
    requires 0 < n
    ensures Start(Follow(k, size, n), n)
  {
    var next := (k + size) % WRAP;
    if next % PAGE == PAGE - 1 {
      LastWordWraps(next, n);
    } else {
      PageOffset(next, n);
    }
  }

  lemma NextPage(x: nat)
    requires x % PAGE == PAGE - 1
    ensures (x + 1) % PAGE == 0
  {
    var q := x / PAGE;
    assert x + 1 == PAGE * (q + 1);
    DivModUnique(x + 1, PAGE, q + 1, 0);
  }

  /** The jump over a page's last word, also when the page is the last below 2^32. */
  lemma LastWordWraps(next: nat, n: nat)
    requires 0 < n && next < WRAP && next % PAGE == PAGE - 1
    ensures (next + 1) % WRAP % (n * PAGE) % PAGE == 0
  {
    var y := (next + 1) % WRAP;
    assert y % PAGE == 0 by {
      if next + 1 < WRAP { ModSmall(next + 1, WRAP); NextPage(next); }
    }
    PageOffset(y, n);
  }

  /** Without overflow of the 32-bit sum both readers move on to the same place. */
  lemma SameAdvance(k: nat, size: nat, n: nat)
    requires 0 < n && k + size < WRAP - 1
    ensures Skip(k, size, n) == Follow(k, size, n)
  {
    var x, total := k + size, n * PAGE;
    ModSmall(x, WRAP);
    ModSmall(x + 1, WRAP);
    PageOffset(x, n);
    ModAddLeft(x, 1, total);
  }

  /** The next place is behind the transmission, or one word further where no transmission may start. */
  lemma SkipMeans(k: nat, size: nat, n: nat)
    requires n > 0 && k + size < WRAP
    ensures Skip(k, size, n) ==
            if Start((k + size) % (n * PAGE), n) then (k + size) % (n * PAGE) else (k + size + 1) % (n * PAGE)
  {
    ModSmall(k + size, WRAP);
    ModAddLeft(k + size, 1, n * PAGE);
  }

  // ---------------------------------------------------------------- the next transmission

  datatype Error = InvalidState | Overflow
  datatype Result<T> = Ok(value: T) | Failed(error: Error)

  /** Where the payload is and how many words it has. */
  datatype Info = Info(page: nat, at: nat, words: nat)

  /** The checks of `get_next_transmission`; the length check adds in 32 bits. */
  function Announced(pages: seq<Page>, k: nat, running: bool): Result<Info> {
    if !running then Failed(InvalidState)
    else if k / PAGE >= |pages| then Failed(Overflow)
    else if k % PAGE == PAGE - 1 then Failed(InvalidState)
    else
      var size := pages[k / PAGE][k % PAGE];
      if size == 0 then Failed(InvalidState)
      else if (k % PAGE + size) % WRAP > PAGE then Failed(Overflow)
      else Ok(Info(k / PAGE, k % PAGE + 1, size - 1))
  }

  /** The transmission lies in one page. */
  predicate PageLocal(pages: seq<Page>, k: nat)
    requires k < |pages| * PAGE
  {
    Word(pages, k) > 0 && k % PAGE + Word(pages, k) <= PAGE
  }

  lemma InPage(k: nat, n: nat)
    requires k < n * PAGE
    ensures k / PAGE < n
  {
  }

  /** A running engine accepts a transmission exactly if it lies in one page or its length word is so
      large that the 32-bit sum of offset and length wraps around. */
  lemma AcceptedIff(pages: seq<Page>, k: nat)
    requires Start(k, |pages|)
    ensures Announced(pages, k, true).Ok? <==> PageLocal(pages, k) || k % PAGE + Word(pages, k) >= WRAP
  {
    InPage(k, |pages|);
    var o, size := k % PAGE, Word(pages, k);
    if o + size < WRAP {
      ModSmall(o + size, WRAP);
    } else {
      ModAddSelf(o + size - WRAP, WRAP);
      ModSmall(o + size - WRAP, WRAP);
    }
  }

  /** Why a transmission is not accepted. */
  lemma RefusedBecause(pages: seq<Page>, k: nat, running: bool)
    ensures !running ==> Announced(pages, k, running) == Failed(InvalidState)
    ensures running && k >= |pages| * PAGE ==> Announced(pages, k, running) == Failed(Overflow)
    ensures running && k < |pages| * PAGE && !Start(k, |pages|) ==> Announced(pages, k, running) == Failed(InvalidState)
    ensures running && Start(k, |pages|) && Word(pages, k) == 0 ==> Announced(pages, k, running) == Failed(InvalidState)
    ensures running && Start(k, |pages|) && PAGE - k % PAGE < Word(pages, k) < WRAP - PAGE ==>
              Announced(pages, k, running) == Failed(Overflow)
  {
    if running && k < |pages| * PAGE {
      InPage(k, |pages|);
      if k % PAGE + Word(pages, k) < WRAP { ModSmall(k % PAGE + Word(pages, k), WRAP); }
    }
  }

  // ---------------------------------------------------------------- copying

  /** How far `k` is past `off` in a ring of `cap` words. */
  function Past(k: nat, off: nat, cap: nat): nat
    requires k < cap && off < cap
  {
    if k >= off then k - off else k - off + cap
  }

  /** Past is the inverse of walking on from `off`. */
  lemma PastOf(i: nat, off: nat, cap: nat)
    requires i < cap && off < cap
    ensures (off + i) % cap < cap && Past((off + i) % cap, off, cap) == i
  {
    if off + i < cap {
      ModSmall(off + i, cap);
    } else {
      ModAddSelf(off + i - cap, cap);
      ModSmall(off + i - cap, cap);
    }
  }

  /** The ring after `n` source words from `first` on were written from `off` on: nothing else changed. */
  ghost predicate Copied(before: seq<nat>, after: seq<nat>, off: nat, pages: seq<Page>, first: nat, n: nat)
    requires |pages| > 0
  {
    && |after| == |before| && off < |before|
    && forall k :: 0 <= k < |before| ==> after[k] == CopiedWord(before, k, off, pages, first, n)
  }

  function CopiedWord(before: seq<nat>, k: nat, off: nat, pages: seq<Page>, first: nat, n: nat): nat
    requires k < |before| && off < |before| && |pages| > 0
  {
    var p := Past(k, off, |before|);
    if p < n then Word(pages, (first + p) % (|pages| * PAGE)) else before[k]
  }

  /** The same in the words of the payload: word `i` arrives at `off + i`, and every position that no
      payload word goes to keeps its content. */
  lemma CopiedMeans(before: seq<nat>, after: seq<nat>, off: nat, pages: seq<Page>, first: nat, n: nat, i: nat)
    requires |pages| > 0 && Copied(before, after, off, pages, first, n) && n <= |before| && i < |before|
    ensures var k := (off + i) % |before|;
            0 <= k < |before| && after[k] == if i < n then Word(pages, (first + i) % (|pages| * PAGE)) else before[k]
  {
    PastOf(i, off, |before|);
    var k := (off + i) % |before|;
    assert after[k] == CopiedWord(before, k, off, pages, first, n);
  }

  // ---------------------------------------------------------------- one chunk

  /** A run of words that wraps around neither ring nor page. */
  ghost predicate ChunkCopied(mid: seq<nat>, after: seq<nat>, o: nat, page: Page, at: nat, c: nat)
    requires o + c <= |mid| == |after| && at + c <= PAGE
  {
    forall k :: 0 <= k < |mid| ==> after[k] == if o <= k < o + c then page[at + (k - o)] else mid[k]
  }

  lemma PastInChunk(k: nat, o: nat, off: nat, i: nat, c: nat, cap: nat)
    requires k < cap && off < cap && o < cap && o == (off + i) % cap && o + c <= cap && i + c <= cap && c > 0
    ensures if o <= k < o + c then Past(k, off, cap) == i + (k - o)
            else Past(k, off, cap) < i || Past(k, off, cap) >= i + c
  {
    PastOf(i, off, cap);
  }

  lemma WordInPage(pages: seq<Page>, id: nat, at: nat)
    requires id < |pages| && at < PAGE
    ensures id * PAGE + at < |pages| * PAGE && Word(pages, id * PAGE + at) == pages[id][at]
  {
    DivModUnique(id * PAGE + at, PAGE, id, at);
  }

  /** The source positions of a chunk. */
  lemma SourceInChunk(pages: seq<Page>, first: nat, i: nat, d: nat, id: nat, at: nat)
    requires id < |pages| && at + d < PAGE && id * PAGE + at == (first + i) % (|pages| * PAGE)
    ensures Word(pages, (first + (i + d)) % (|pages| * PAGE)) == pages[id][at + d]
  {
    var total := |pages| * PAGE;
    ModAddLeft(first + i, d, total);
    WordInPage(pages, id, at + d);
    ModSmall(id * PAGE + (at + d), total);
  }

  lemma ChunkExtends(before: seq<nat>, mid: seq<nat>, after: seq<nat>, off: nat, pages: seq<Page>, first: nat, i: nat,
      c: nat,
                     j: nat, o: nat, id: nat, at: nat)
    requires |pages| > 0 && Copied(before, mid, off, pages, first, i) && |after| == |mid| && c > 0 &&
             j == i + c <= |before|
    requires o < |mid| && o == (off + i) % |before| && o + c <= |mid|
    requires id < |pages| && at + c <= PAGE && id * PAGE + at == (first + i) % (|pages| * PAGE)
    requires ChunkCopied(mid, after, o, pages[id], at, c)
    ensures Copied(before, after, off, pages, first, j)
  {
    forall k | 0 <= k < |before| ensures after[k] == CopiedWord(before, k, off, pages, first, j) {
      assert mid[k] == CopiedWord(before, k, off, pages, first, i);
      PastInChunk(k, o, off, i, c, |before|);
      if o <= k < o + c { SourceInChunk(pages, first, i, k - o, id, at); }
    }
  }

  /** Where the source continues. */
  lemma SourceMoves(n: nat, first: nat, i: nat, c: nat, j: nat, id: nat, at: nat)
    requires id < n && at + c <= PAGE && id * PAGE + at == (first + i) % (n * PAGE) && j == i + c
    ensures at + c < PAGE ==> id * PAGE + (at + c) == (first + j) % (n * PAGE)
    ensures at + c == PAGE ==> NextBuffer(id, n) * PAGE == (first + j) % (n * PAGE)
  {
    var total := n * PAGE;
    ModAddLeft(first + i, c, total);
    if at + c < PAGE {
      ModSmall(id * PAGE + (at + c), total);
    } else if id + 1 < n {
      ModSmall(id + 1, n);
      ModSmall((id + 1) * PAGE, total);
    } else {
      ModAddSelf(0, n);
      ModAddSelf(0, total);
    }
  }

  function NextBuffer(id: nat, n: nat): (r: nat)
    requires n > 0
    ensures r < n
  {
    (id + 1) % n
  }

  lemma DestMoves(cap: nat, off: nat, i: nat, c: nat, j: nat, o: nat)
    requires cap > 0 && o == (off + i) % cap && j == i + c
    ensures (o + c) % cap == (off + j) % cap && (o + c) % cap < cap
  {
    ModAddLeft(off + i, c, cap);
  }

  // ---------------------------------------------------------------- the object

  class MessagingDma {
    var pages: seq<Page>
    var readOffset: nat

    predicate Valid()
      reads this
    {
      |pages| <= 255 && Start(readOffset, |pages|)
    }

    /** `memcpy` of one chunk. */
    method CopyChunk(dest: array<nat>, o: nat, page: Page, at: nat, c: nat)
      requires o + c <= dest.Length && at + c <= PAGE
      modifies dest
      ensures ChunkCopied(old(dest[..]), dest[..], o, page, at, c)
    {
      for j := 0 to c
        invariant forall k :: 0 <= k < dest.Length ==>
                  dest[k] == if o <= k < o + j then page[at + (k - o)] else old(dest[k])
      {
        dest[o + j] := page[at + j];
      }
    }

    /** The copy loop for a payload of `n` words that starts at position `at` of page `id`. */
    method CopyWords(dest: array<nat>, off: nat, id0: nat, at0: nat, first: nat, n: nat)
      requires 0 < |pages| && id0 < |pages| && at0 < PAGE && id0 * PAGE + at0 == first % (|pages| * PAGE)
      requires off < dest.Length && n <= dest.Length
      modifies dest
      ensures Copied(old(dest[..]), dest[..], off, pages, first, n)
    {
      ghost var before := dest[..];
      ghost var i: nat := 0;
      var left: nat, o: nat, id: nat, at: nat := n, off, id0, at0;
      ModSmall(off, dest.Length);
      while left > 0
        invariant left + i == n && Copied(before, dest[..], off, pages, first, i)
        invariant left > 0 ==> o < dest.Length && o == (off + i) % dest.Length
        invariant left > 0 ==> id < |pages| && at < PAGE && id * PAGE + at == (first + i) % (|pages| * PAGE)
        decreases left
      {
        var inPage, untilWrap := PAGE - at, dest.Length - o;
        var chunk := if left <= inPage && left <= untilWrap then left else if inPage <= untilWrap then inPage
            else untilWrap;
        ghost var mid, j := dest[..], i + chunk;
        CopyChunk(dest, o, pages[id], at, chunk);
        ChunkExtends(before, mid, dest[..], off, pages, first, i, chunk, j, o, id, at);
        SourceMoves(|pages|, first, i, chunk, j, id, at);
        DestMoves(dest.Length, off, i, chunk, j, o);
        left, i := left - chunk, j;
        if left > 0 {
          o := (o + chunk) % dest.Length;
          if inPage - chunk > 0 {
            at := at + chunk;
          } else {
            id, at := NextBuffer(id, |pages|), 0;
          }
        }
      }
    }

    /** `copy_next_transmission_data`: a length word of zero makes the payload 2^32 - 1 words long. */
    method CopyNext(dest: array<nat>, free: nat, off: nat) returns (r: Result<nat>)
      requires Valid() && off < dest.Length < WRAP && free <= dest.Length
      modifies `readOffset, dest
      ensures Valid()
      ensures var size := Word(pages, old(readOffset)); var n := if size == 0 then WRAP - 1 else size - 1;
              && r == (if n <= free then Ok(n) else Failed(Overflow))
              && (r.Ok? ==> Copied(old(dest[..]), dest[..], off, pages, old(readOffset) + 1, n))
              && (r.Failed? ==> dest[..] == old(dest[..]))
              && readOffset == Skip(old(readOffset), size, |pages|)
    {
      InPage(readOffset, |pages|);
      var id, at := readOffset / PAGE, readOffset % PAGE;
      var size := pages[id][at];
      var n := if size == 0 then WRAP - 1 else size - 1;
      if n <= free {
        NextInRing(readOffset, |pages|);
        CopyWords(dest, off, id, at + 1, readOffset + 1, n);
        r := Ok(n);
      } else {
        r := Failed(Overflow);
      }
      SkipStarts(readOffset, size, |pages|);
      var total := |pages| * PAGE;
      readOffset := (readOffset + size) % WRAP % total;
      if readOffset % PAGE == PAGE - 1 {
        readOffset := (readOffset + 1) % total;
      }
    }

    /** `get_next_transmission`. */
    method GetNext(running: bool) returns (r: Result<Info>)
      requires 0 < |pages| <= 255
      modifies `readOffset
      ensures r == Announced(pages, old(readOffset), running)
      ensures readOffset == if r.Ok? then Follow(old(readOffset), r.value.words + 1, |pages|) else old(readOffset)
      ensures r.Ok? || old(Valid()) ==> Valid()
    {
      if !running { return Failed(InvalidState); }
      var id := readOffset / PAGE;
      if id >= |pages| { return Failed(Overflow); }
      var at := readOffset % PAGE;
      if at == PAGE - 1 { return Failed(InvalidState); }
      var size := pages[id][at];
      if size == 0 { return Failed(InvalidState); }
      if (at + size) % WRAP > PAGE { return Failed(Overflow); }
      r := Ok(Info(id, at + 1, size - 1));
      FollowStarts(readOffset, size, |pages|);
      readOffset := (readOffset + size) % WRAP;
      var remaining := PAGE - readOffset % PAGE;
      if remaining == 1 {
        readOffset := (readOffset + 1) % WRAP;
      }
      readOffset := readOffset % (|pages| * PAGE);
    }
  }

  lemma NextInRing(k: nat, n: nat)
    requires Start(k, n)
    ensures k / PAGE * PAGE + (k % PAGE + 1) == (k + 1) % (n * PAGE)
  {
    var q := k / PAGE;
    assert k + 1 == q * PAGE + (k % PAGE + 1);
    assert (q + 1) * PAGE <= n * PAGE;
    ModSmall(k + 1, n * PAGE);
  }

  /** For a transmission in one page both readers see the same words and go on at the same place. */
  lemma ReadersAgree(pages: seq<Page>, k: nat, i: nat)
    requires |pages| <= 255 && Start(k, |pages|) && PageLocal(pages, k) && i < Word(pages, k) - 1
    ensures var r := Announced(pages, k, true);
            && r.Ok? && r.value.words == Word(pages, k) - 1
            && pages[r.value.page][r.value.at + i] == Word(pages, (k + 1 + i) % (|pages| * PAGE))
            && Follow(k, r.value.words + 1, |pages|) == Skip(k, Word(pages, k), |pages|)
  {
    AcceptedIff(pages, k);
    NextInRing(k, |pages|);
    InPage(k, |pages|);
    SourceInChunk(pages, k + 1, 0, i, k / PAGE, k % PAGE + 1);
    SameAdvance(k, Word(pages, k), |pages|);
  }
}
