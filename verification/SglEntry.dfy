/** The three encoders of a scatter-gather entry: one unrolled, two looping over bit fields.

    A block holds five entries of 86 bits in seven 64-bit words, from bit 18 on. An entry is a
    last flag, bits 63..2 of the address and 23 bits of size. */
module SglEntry {
  import opened Bits

  const ENTRIES: nat := 5
  const FIRST_BIT: nat := 18
  const ENTRY_BITS: nat := 86

  type Data = d: seq<Word> | |d| == 7 witness seq(7, _ => Zeros(64))

  // ---------------------------------------------------------------- reference

  /** Bit `k` of the data section, counting through all words. */
  function BitAt(d: seq<Word>, k: nat): bool
    requires k < 64 * |d|
  {
    d[k / 64][k % 64]
  }

  /** Replace `len` bits from bit `from` on by the low bits of `v`; touch nothing else. */
  function PutField(d: seq<Word>, from: nat, len: nat, v: Bits): (r: seq<Word>)
    requires len <= |v|
    ensures |r| == |d|
  {
    seq(|d|, j requires 0 <= j < |d| => PutWord(d[j], from - 64 * j, len, v))
  }

  /** The part of a field that falls into one word; `from` is relative to that word. */
  function PutWord(w: Word, from: int, len: nat, v: Bits): (r: Word)
    requires len <= |v|
    ensures forall b :: 0 <= b < 64 ==> r[b] == if from <= b < from + len then v[b - from] else w[b]
  {
    seq(64, b requires 0 <= b < 64 => if from <= b < from + len then v[b - from] else w[b])
  }

  /** The 86 bits of an entry. */
  function EntryBits(addr: Word, size: Word, last: bool): (r: Bits)
    ensures |r| == ENTRY_BITS
  {
    [last] + addr[2..] + size[..23]
  }

  /** What an encoder is meant to do. */
  function WriteEntry(d: Data, idx: nat, addr: Word, size: Word, last: bool): (r: Data)
    requires idx < ENTRIES
  {
    PutField(d, FIRST_BIT + ENTRY_BITS * idx, ENTRY_BITS, EntryBits(addr, size, last))
  }

  lemma PutFieldBits(d: seq<Word>, from: nat, len: nat, v: Bits, k: nat)
    requires len <= |v| && k < 64 * |d|
    ensures BitAt(PutField(d, from, len, v), k) == if from <= k < from + len then v[k - from] else BitAt(d, k)
  {
    assert k == 64 * (k / 64) + k % 64;
  }

  // ---------------------------------------------------------------- decoding

  datatype Entry = Entry(addr: Word, size: Bits, last: bool)

  function Slice(d: seq<Word>, from: nat, len: nat): (r: Bits)
    requires from + len <= 64 * |d|
    ensures |r| == len
  {
    seq(len, i requires 0 <= i < len => BitAt(d, from + i))
  }

  function ReadEntry(d: Data, idx: nat): Entry
    requires idx < ENTRIES
  {
    var e := Slice(d, FIRST_BIT + ENTRY_BITS * idx, ENTRY_BITS);
    Entry([false, false] + e[1..63], e[63..], e[0])
  }

  /** Decoding gives back what was encoded, for word-aligned addresses, and the other entries are
      untouched. */
  lemma ReadWritten(d: Data, idx: nat, addr: Word, size: Word, last: bool)
    requires idx < ENTRIES && !addr[0] && !addr[1]
    ensures ReadEntry(WriteEntry(d, idx, addr, size, last), idx) == Entry(addr, size[..23], last)
  {
    var from := FIRST_BIT + ENTRY_BITS * idx;
    var bits := EntryBits(addr, size, last);
    var e := Slice(WriteEntry(d, idx, addr, size, last), from, ENTRY_BITS);
    forall i: nat | i < ENTRY_BITS ensures e[i] == bits[i] {
      PutFieldBits(d, from, ENTRY_BITS, bits, from + i);
    }
    assert e == bits;
    assert [false, false] + addr[2..] == addr;
  }

  /** Where the parts of an entry are: last flag, bits 63..2 of the address, 23 bits of size, from bit 18 + 86 * idx on.
      All other bits of the block stay. */
  lemma EntryLayout(d: Data, idx: nat, addr: Word, size: Word, last: bool, k: nat)
    requires idx < ENTRIES && k < 64 * 7
    ensures BitAt(WriteEntry(d, idx, addr, size, last), k) ==
            var i := k - (18 + 86 * idx);
            if i == 0 then last
            else if 1 <= i < 63 then addr[i + 1]
            else if 63 <= i < 86 then size[i - 63]
            else BitAt(d, k)
  {
    PutFieldBits(d, FIRST_BIT + ENTRY_BITS * idx, ENTRY_BITS, EntryBits(addr, size, last), k);
  }

  lemma ReadOther(d: Data, idx: nat, other: nat, addr: Word, size: Word, last: bool)
    requires idx < ENTRIES && other < ENTRIES && idx != other
    ensures ReadEntry(WriteEntry(d, idx, addr, size, last), other) == ReadEntry(d, other)
  {
    var from, at := FIRST_BIT + ENTRY_BITS * idx, FIRST_BIT + ENTRY_BITS * other;
    var bits := EntryBits(addr, size, last);
    var e, f := Slice(WriteEntry(d, idx, addr, size, last), at, ENTRY_BITS), Slice(d, at, ENTRY_BITS);
    forall i: nat | i < ENTRY_BITS ensures e[i] == f[i] {
      PutFieldBits(d, from, ENTRY_BITS, bits, at + i);
    }
    assert e == f;
  }

  // ---------------------------------------------------------------- generic field loop

  /** One turn of a field loop: the chunk of a field that fits into the current word. */
  lemma PutChunk(d: seq<Word>, from: nat, done: nat, chunk: nat, v: Word)
    requires 0 < chunk && done + chunk <= 64 && from + done + chunk <= 64 * |d|
    requires (from + done) % 64 + chunk <= 64
    ensures var a := (from + done) / 64; var s := (from + done) % 64;
            && a < |d|
            && PutField(d, from, done + chunk, v) ==
               PutField(d, from, done, v)[a := SetBits(PutField(d, from, done, v)[a], Shr(v, done), s, s + chunk - 1)]
  {
    var a, s := (from + done) / 64, (from + done) % 64;
    assert from + done == 64 * a + s;
    var l := PutField(d, from, done + chunk, v);
    var r := PutField(d, from, done, v)[a := SetBits(PutField(d, from, done, v)[a], Shr(v, done), s, s + chunk - 1)];
    forall j | 0 <= j < |d| ensures l[j] == r[j] {
      forall b | 0 <= b < 64 ensures l[j][b] == r[j][b] {
      }
    }
  }

  lemma PutNothing(d: seq<Word>, from: nat, v: Bits)
    ensures PutField(d, from, 0, v) == d
  {
    forall j | 0 <= j < |d| ensures PutWord(d[j], from - 64 * j, 0, v) == d[j] {
    }
  }

  /** `men_set_sgl_block_field`. */
  method SetBlockField(data: array<Word>, fieldStart: nat, fieldSize: nat, fieldValue: Word)
    requires fieldSize <= 64 && fieldStart + fieldSize <= 64 * data.Length
    modifies data
    ensures data[..] == PutField(old(data[..]), fieldStart, fieldSize, fieldValue)
  {
    ghost var d := data[..];
    var item, startBit := fieldStart / 64, fieldStart % 64;
    var remaining, value := fieldSize, fieldValue;
    PutNothing(d, fieldStart, fieldValue);
    while remaining > 0
      invariant 0 <= remaining <= fieldSize
      invariant remaining > 0 ==> 64 * item + startBit == fieldStart + fieldSize - remaining && 0 <= startBit < 64
      invariant value == Shr(fieldValue, fieldSize - remaining)
      invariant data[..] == PutField(d, fieldStart, fieldSize - remaining, fieldValue)
    {
      ghost var done := fieldSize - remaining;
      var chunk := if remaining < 64 - startBit then remaining else 64 - startBit;
      assert (fieldStart + done) / 64 == item && (fieldStart + done) % 64 == startBit;
      PutChunk(d, fieldStart, done, chunk, fieldValue);
      data[item] := SetBits(data[item], value, startBit, startBit + chunk - 1);
      remaining := remaining - chunk;
      item := item + 1;
      startBit := 0;
      assert Shr(Shr(fieldValue, done), chunk) == Shr(fieldValue, done + chunk);
      value := Shr(value, chunk);
    }
  }

  // ---------------------------------------------------------------- library encoder

  datatype Field = Field(bits: nat, value: Word)

  /** Fields side by side. */
  function PutFields(d: seq<Word>, from: nat, fields: seq<Field>): (r: seq<Word>)
    requires forall f :: f in fields ==> f.bits <= 64
    ensures |r| == |d|
    decreases |fields|
  {
    if fields == [] then d
    else
      var n := |fields| - 1;
      PutField(PutFields(d, from, fields[..n]), from + TotalBits(fields[..n]), fields[n].bits, fields[n].value)
  }

  function TotalBits(fields: seq<Field>): nat {
    if fields == [] then 0 else TotalBits(fields[..|fields| - 1]) + fields[|fields| - 1].bits
  }

  lemma TotalBitsPrefix(fields: seq<Field>, k: nat)
    requires k <= |fields|
    ensures TotalBits(fields[..k]) <= TotalBits(fields)
  {
    if k < |fields| {
      var n := |fields| - 1;
      assert fields[..n][..k] == fields[..k];
      TotalBitsPrefix(fields[..n], k);
    } else {
      assert fields[..k] == fields;
    }
  }

  /** `set_block_entry`. */
  method SetBlockEntry(data: array<Word>, idx: nat, entrySize: nat, fields: seq<Field>, firstBit: nat)
    requires forall f :: f in fields ==> f.bits <= 64
    requires TotalBits(fields) == entrySize && firstBit + (idx + 1) * entrySize <= 64 * data.Length
    modifies data
    ensures data[..] == PutFields(old(data[..]), firstBit + idx * entrySize, fields)
  {
    EntryFits(firstBit, idx, entrySize, data.Length);
    PutEntryFields(data, firstBit + idx * entrySize, fields);
  }

  lemma EntryFits(firstBit: nat, idx: nat, entrySize: nat, words: nat)
    requires firstBit + (idx + 1) * entrySize <= 64 * words
    ensures firstBit + idx * entrySize + entrySize <= 64 * words
  {
    assert (idx + 1) * entrySize == idx * entrySize + entrySize;
  }

  /** The loop of `set_block_entry`. */
  method PutEntryFields(data: array<Word>, from: nat, fields: seq<Field>)
    requires forall f :: f in fields ==> f.bits <= 64
    requires from + TotalBits(fields) <= 64 * data.Length
    modifies data
    ensures data[..] == PutFields(old(data[..]), from, fields)
  {
    ghost var d := data[..];
    var start := from;
    for k := 0 to |fields|
      invariant start == from + TotalBits(fields[..k])
      invariant data[..] == PutFields(d, from, fields[..k])
    {
      assert fields[k] in fields;
      assert fields[..k + 1][..k] == fields[..k];
      TotalBitsPrefix(fields, k + 1);
      SetBlockField(data, start, fields[k].bits, fields[k].value);
      start := start + fields[k].bits;
    }
    assert fields[..|fields|] == fields;
  }

  /** `get_fields_with_values_dev2pc`. */
  function FieldsDev2Pc(addr: Word, size: Word, last: bool): seq<Field> {
    [Field(1, [last] + Zeros(63)), Field(62, Shr(addr, 2)), Field(23, size)]
  }

  /** The device-to-host layout of the library is the reference entry. */
  lemma Dev2PcIsEntry(d: Data, idx: nat, addr: Word, size: Word, last: bool)
    requires idx < ENTRIES
    ensures TotalBits(FieldsDev2Pc(addr, size, last)) == ENTRY_BITS
    ensures PutFields(d, FIRST_BIT + ENTRY_BITS * idx, FieldsDev2Pc(addr, size, last)) ==
            WriteEntry(d, idx, addr, size, last)
  {
    var f := FieldsDev2Pc(addr, size, last);
    var from := FIRST_BIT + ENTRY_BITS * idx;
    assert f[..2][..1] == f[..1] && f[..1][..0] == [] && f[..3] == f;
    assert TotalBits(f[..1]) == 1 && TotalBits(f[..2]) == 63;
    ThreeFields(d, from, f[0], f[1], f[2]);
    var three := PutField(PutField(PutField(d, from, 1, f[0].value), from + 1, 62, f[1].value), from + 63, 23,
        f[2].value);
    forall j | 0 <= j < 7 ensures three[j] == WriteEntry(d, idx, addr, size, last)[j] {
      forall b | 0 <= b < 64 ensures three[j][b] == WriteEntry(d, idx, addr, size, last)[j][b] {
      }
    }
  }

  lemma ThreeFields(d: seq<Word>, from: nat, x: Field, y: Field, z: Field)
    requires x.bits <= 64 && y.bits <= 64 && z.bits <= 64
    ensures PutFields(d, from, [x, y, z]) ==
            PutField(PutField(PutField(d, from, x.bits, x.value), from + x.bits, y.bits, y.value),
                     from + x.bits + y.bits, z.bits, z.value)
  {
    var f := [x, y, z];
    assert f[..2] == [x, y] && [x, y][..1] == [x] && [x][..0] == [];
    assert TotalBits([x]) == x.bits && TotalBits([x, y]) == x.bits + y.bits;
    assert PutFields(d, from, [x]) == PutField(d, from, x.bits, x.value);
  }

  /** One entry as `fill_blocks` writes it in the device-to-host layout. */
  method SetEntryDev2Pc(data: array<Word>, idx: nat, addr: Word, size: Word, last: bool)
    requires data.Length == 7 && idx < ENTRIES
    modifies data
    ensures data[..] == WriteEntry(old(data[..]), idx, addr, size, last)
  {
    var fields := FieldsDev2Pc(addr, size, last);
    Dev2PcIsEntry(data[..], idx, addr, size, last);
    SetBlockEntry(data, idx, ENTRY_BITS, fields, FIRST_BIT);
  }

  /** `get_entry_fields_with_values_pc2dev`: 87 bits from bit 13 on, without a last flag. */
  function FieldsPc2Dev(addr: Word, size: Word): seq<Field> {
    [Field(62, Shr(addr, 2)), Field(25, size)]
  }

  /** The host-to-device layout reads back, fills the block exactly, and leaves other entries alone. */
  lemma Pc2DevReadsBack(d: Data, idx: nat, other: nat, addr: Word, size: Word)
    requires idx < ENTRIES && other < ENTRIES
    ensures TotalBits(FieldsPc2Dev(addr, size)) == 87 && 13 + 87 * ENTRIES == 64 * 7
    ensures var r := PutFields(d, 13 + 87 * idx, FieldsPc2Dev(addr, size));
            Slice(r, 13 + 87 * other, 87) == if other == idx then addr[2..] + size[..25]
                else Slice(d, 13 + 87 * other, 87)
  {
    var f := FieldsPc2Dev(addr, size);
    var from, at := 13 + 87 * idx, 13 + 87 * other;
    assert f[..1] == [f[0]] && f[..2] == f && f[..1][..0] == [];
    assert TotalBits(f[..1]) == 62;
    assert PutFields(d, from, f[..1]) == PutField(d, from, 62, f[0].value);
    var one := PutField(d, from, 62, f[0].value);
    var r := PutFields(d, from, f);
    assert r == PutField(one, from + 62, 25, f[1].value);
    var got, want := Slice(r, at, 87), if other == idx then addr[2..] + size[..25] else Slice(d, at, 87);
    forall i: nat | i < 87 ensures got[i] == want[i] {
      PutFieldBits(d, from, 62, f[0].value, at + i);
      PutFieldBits(one, from + 62, 25, f[1].value, at + i);
    }
  }

  // ---------------------------------------------------------------- second library encoder

  /** `set_bits` of the second library encoder: each chunk is cleared with a mask and then filled
      with one bit more than it holds. Returns whether the value fitted. */
  method SetBitsV2(target: array<Word>, first: nat, to: nat, fieldValue: Word) returns (ok: bool)
    requires first <= to < 64 * target.Length && to + 1 - first < 64
    modifies target
    ensures ok <==> forall i :: to + 1 - first <= i < 64 ==> !fieldValue[i]
    ensures target[..] == if ok then PutField(old(target[..]), first, to + 1 - first, fieldValue) else old(target[..])
  {
    ghost var d := target[..];
    var from, value := first, fieldValue;
    var high := GetBits(value, to + 1 - first, 63);
    if high != Zeros(64) {
      assert exists i :: 0 <= i < 64 && high[i];
      return false;
    }
    assert forall i :: to + 1 - first <= i < 64 ==> fieldValue[i] == high[i - (to + 1 - first)];
    PutNothing(d, first, value);
    while to >= from
      invariant first <= from <= to + 1
      invariant value == Shr(fieldValue, from - first)
      invariant target[..] == PutField(d, first, from - first, fieldValue)
    {
      var item := from / 64;
      var chunkFrom := from % 64;
      var chunkTo := if 63 < to - item * 64 then 63 else to - item * 64;
      var bits := chunkTo + 1 - chunkFrom;
      PutChunk(d, first, from - first, bits, fieldValue);
      OneBitTooMany(target[item], value, chunkFrom, chunkTo, to + 1 - from);
      target[item] := And(target[item], Not(GenMask(64, chunkFrom, chunkTo)));
      target[item] := Or(target[item], Shl(GetBits(value, 0, bits), chunkFrom));
      assert Shr(Shr(fieldValue, from - first), bits) == Shr(fieldValue, from - first + bits);
      value := Shr(value, bits);
      from := from + bits;
    }
    ok := true;
  }

  /** The extra bit is either shifted out of the word or known to be zero. */
  lemma OneBitTooMany(w: Word, value: Word, from: nat, to: nat, left: nat)
    requires from <= to < 64 && to - from < 63 && left >= to + 1 - from
    requires to < 63 ==> left == to + 1 - from
    requires forall i :: left <= i < 64 ==> !value[i]
    ensures Or(And(w, Not(GenMask(64, from, to))), Shl(GetBits(value, 0, to + 1 - from), from)) ==
            SetBits(w, value, from, to)
  {
    var l, r := Or(And(w, Not(GenMask(64, from, to))), Shl(GetBits(value, 0, to + 1 - from), from)),
        SetBits(w, value, from, to);
    forall b | 0 <= b < 64 ensures l[b] == r[b] {
    }
  }

  /** `set_sgl_block_entry`, for a size of at most 23 bits. */
  method SetEntryV2(data: array<Word>, idx: nat, pageGroup: Word, size: Word, last: bool)
    requires data.Length == 7 && idx < ENTRIES
    requires !pageGroup[62] && !pageGroup[63] && forall i :: 23 <= i < 64 ==> !size[i]
    modifies data
    ensures data[..] == WriteEntry(old(data[..]), idx, Shl(pageGroup, 2), size, last)
  {
    ghost var d := data[..];
    var offset := FIRST_BIT + idx * ENTRY_BITS;
    var ok := SetBitsV2(data, offset, offset, [last] + Zeros(63));
    ok := SetBitsV2(data, offset + 1, offset + 62, pageGroup);
    ok := SetBitsV2(data, offset + 63, offset + 85, size);
    var addr := Shl(pageGroup, 2);
    Dev2PcIsEntry(d, idx, addr, size, last);
    var f := FieldsDev2Pc(addr, size, last);
    ThreeFields(d, offset, f[0], f[1], f[2]);
    assert Shr(addr, 2) == pageGroup;
  }

  /** The same on the data section of a block; the page group is the address without its two low bits. */
  method EncodeV2(d: Data, idx: nat, addr: Word, size: Word, last: bool) returns (r: Data)
    requires idx < ENTRIES && forall i :: 23 <= i < 64 ==> !size[i]
    ensures r == WriteEntry(d, idx, addr, size, last)
  {
    var data := new Word[7](i requires 0 <= i < 7 => d[i]);
    assert data[..] == d;
    SetEntryV2(data, idx, Shr(addr, 2), size, last);
    LowBitsUnused(addr, size, last);
    r := data[..];
  }

  lemma LowBitsUnused(addr: Word, size: Word, last: bool)
    ensures EntryBits(Shl(Shr(addr, 2), 2), size, last) == EntryBits(addr, size, last)
  {
    assert Shl(Shr(addr, 2), 2)[2..] == addr[2..];
  }

  /** The entry that `fill_blocks` writes, on the data section of a block. */
  method EncodeDev2Pc(d: Data, idx: nat, addr: Word, size: Word, last: bool) returns (r: Data)
    requires idx < ENTRIES
    ensures r == WriteEntry(d, idx, addr, size, last)
  {
    var data := new Word[7](i requires 0 <= i < 7 => d[i]);
    assert data[..] == d;
    SetEntryDev2Pc(data, idx, addr, size, last);
    r := data[..];
  }

  // ---------------------------------------------------------------- unrolled encoder

  /** `msl64`, `msr64`, `rmsl64`, `rmsr64`. */
  function Msl(v: Word, h: nat, l: nat, s: nat): Word
    requires l <= h < 64
  {
    Shl(And(v, GenMask(64, l, h)), s)
  }

  function Msr(v: Word, h: nat, l: nat, s: nat): Word
    requires l <= h < 64
  {
    Shr(And(v, GenMask(64, l, h)), s)
  }

  function Rmsl(dest: Word, src: Word, h: nat, l: nat, s: nat): (r: Word)
    requires l <= h < 64
    ensures forall b :: 0 <= b < 64 ==> r[b] == if l + s <= b <= h + s then src[b - s] else dest[b]
  {
    var m := GenMask(64, l, h);
    Or(And(dest, Not(Shl(m, s))), Shl(And(src, m), s))
  }

  function Rmsr(dest: Word, src: Word, h: nat, l: nat, s: nat): (r: Word)
    requires s <= l <= h < 64
    ensures forall b :: 0 <= b < 64 ==> r[b] == if l - s <= b <= h - s then src[b + s] else dest[b]
  {
    var m := GenMask(64, l, h);
    Or(And(dest, Not(Shr(m, s))), Shr(And(src, m), s))
  }

  /** `BIT_ULL`. */
  function Bit(n: nat): Word { seq(64, i => i == n) }

  /** `temp |= BIT` or `temp &= ~BIT`. */
  function Flag(w: Word, n: nat, on: bool): (r: Word)
    requires n < 64
    ensures forall b :: 0 <= b < 64 ==> r[b] == if b == n then on else w[b]
  {
    if on then Or(w, Bit(n)) else And(w, Not(Bit(n)))
  }

  /** The words that the five cases of `me6_set_sgl_entry` store. */
  function Unrolled(d: Data, idx: nat, addr: Word, size: Word, last: bool): Data
    requires idx < ENTRIES
  {
    match idx
    case 0 =>
      d[0 := Or(if last then Bit(18) else Zeros(64), Msl(addr, 46, 2, 17))]
       [1 := Rmsl(Rmsr(d[1], addr, 63, 47, 47), size, 22, 0, 17)]
    case 1 =>
      d[1 := Rmsl(Flag(d[1], 40, last), addr, 24, 2, 39)]
       [2 := Rmsl(Rmsr(d[2], addr, 63, 25, 25), size, 22, 0, 39)]
    case 2 =>
      d[2 := Rmsl(Flag(d[2], 62, last), addr, 2, 2, 61)]
       [3 := Or(Msr(addr, 63, 3, 3), Msl(size, 2, 0, 61))]
       [4 := Rmsr(d[4], size, 22, 3, 3)]
    case 3 =>
      d[4 := Rmsl(Flag(d[4], 20, last), addr, 44, 2, 19)]
       [5 := Rmsl(Rmsr(d[5], addr, 63, 45, 45), size, 22, 0, 19)]
    case _ =>
      d[5 := Rmsl(Flag(d[5], 42, last), addr, 22, 2, 41)]
       [6 := Or(Msr(addr, 63, 23, 23), Msl(size, 22, 0, 41))]
  }

  predicate ReservedClear(d: Data) { forall b :: 0 <= b < FIRST_BIT ==> !d[0][b] }

  /** The unrolled encoder agrees with the reference exactly when the entry is not the first or the
      reserved low bits of the block are zero (it clears them). */
  lemma UnrolledIff(d: Data, idx: nat, addr: Word, size: Word, last: bool)
    requires idx < ENTRIES
    ensures Unrolled(d, idx, addr, size, last) == WriteEntry(d, idx, addr, size, last) <==> idx != 0 || ReservedClear(d)
  {
    var l, r := Unrolled(d, idx, addr, size, last), WriteEntry(d, idx, addr, size, last);
    forall j, b | 0 <= j < 7 && 0 <= b < 64
      ensures l[j][b] == if idx == 0 && j == 0 && b < FIRST_BIT then false else r[j][b]
    {
      UnrolledBit(d, idx, addr, size, last, j, b);
    }
    if idx != 0 || ReservedClear(d) {
      forall j | 0 <= j < 7 ensures l[j] == r[j] {
        assert forall b :: 0 <= b < 64 ==> l[j][b] == r[j][b];
      }
    } else {
      var b :| 0 <= b < FIRST_BIT && d[0][b];
      assert r[0][b] && !l[0][b];
    }
  }

  lemma UnrolledBit(d: Data, idx: nat, addr: Word, size: Word, last: bool, j: nat, b: nat)
    requires idx < ENTRIES && j < 7 && b < 64
    ensures Unrolled(d, idx, addr, size, last)[j][b] ==
            if idx == 0 && j == 0 && b < FIRST_BIT then false else WriteEntry(d, idx, addr, size, last)[j][b]
  {
    match idx
    case 0 => Unrolled0(d, addr, size, last, j, b);
    case 1 => Unrolled1(d, addr, size, last, j, b);
    case 2 => Unrolled2(d, addr, size, last, j, b);
    case 3 => Unrolled3(d, addr, size, last, j, b);
    case _ => Unrolled4(d, addr, size, last, j, b);
  }

  lemma Unrolled0(d: Data, addr: Word, size: Word, last: bool, j: nat, b: nat)
    requires j < 7 && b < 64
    ensures Unrolled(d, 0, addr, size, last)[j][b] == if j == 0 && b < FIRST_BIT then false
            else WriteEntry(d, 0, addr, size, last)[j][b]
  {
  }

  lemma Unrolled1(d: Data, addr: Word, size: Word, last: bool, j: nat, b: nat)
    requires j < 7 && b < 64
    ensures Unrolled(d, 1, addr, size, last)[j][b] == WriteEntry(d, 1, addr, size, last)[j][b]
  {
  }

  lemma Unrolled2(d: Data, addr: Word, size: Word, last: bool, j: nat, b: nat)
    requires j < 7 && b < 64
    ensures Unrolled(d, 2, addr, size, last)[j][b] == WriteEntry(d, 2, addr, size, last)[j][b]
  {
  }

  lemma Unrolled3(d: Data, addr: Word, size: Word, last: bool, j: nat, b: nat)
    requires j < 7 && b < 64
    ensures Unrolled(d, 3, addr, size, last)[j][b] == WriteEntry(d, 3, addr, size, last)[j][b]
  {
  }

  lemma Unrolled4(d: Data, addr: Word, size: Word, last: bool, j: nat, b: nat)
    requires j < 7 && b < 64
    ensures Unrolled(d, 4, addr, size, last)[j][b] == WriteEntry(d, 4, addr, size, last)[j][b]
  {
  }

  /** `me6_set_sgl_entry`, on a block whose reserved bits are zero. */
  method SetSglEntry(data: array<Word>, idx: nat, addr: Word, size: Word, last: bool)
    requires data.Length == 7 && idx < ENTRIES && ReservedClear(data[..])
    modifies data
    ensures data[..] == WriteEntry(old(data[..]), idx, addr, size, last)
    ensures ReservedClear(data[..])
  {
    ghost var d := data[..];
    UnrolledIff(d, idx, addr, size, last);
    match idx {
      case 0 =>
        data[0] := Or(if last then Bit(18) else Zeros(64), Msl(addr, 46, 2, 17));
        data[1] := Rmsl(Rmsr(data[1], addr, 63, 47, 47), size, 22, 0, 17);
      case 1 =>
        data[1] := Rmsl(Flag(data[1], 40, last), addr, 24, 2, 39);
        data[2] := Rmsl(Rmsr(data[2], addr, 63, 25, 25), size, 22, 0, 39);
      case 2 =>
        data[2] := Rmsl(Flag(data[2], 62, last), addr, 2, 2, 61);
        data[3] := Or(Msr(addr, 63, 3, 3), Msl(size, 2, 0, 61));
        data[4] := Rmsr(data[4], size, 22, 3, 3);
      case 3 =>
        data[4] := Rmsl(Flag(data[4], 20, last), addr, 44, 2, 19);
        data[5] := Rmsl(Rmsr(data[5], addr, 63, 45, 45), size, 22, 0, 19);
      case _ =>
        data[5] := Rmsl(Flag(data[5], 42, last), addr, 22, 2, 41);
        data[6] := Or(Msr(addr, 63, 23, 23), Msl(size, 22, 0, 41));
    }
    assert data[..] == Unrolled(d, idx, addr, size, last);
  }
}
