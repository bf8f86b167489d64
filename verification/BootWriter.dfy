/**
 * Tables of block pointers as they are written, independent of how the loaders read them: pointers of sixteen bytes
 * each, then filler up to the end of the block.
 */
module TableWriter {
  import opened Common
  import opened Disk
  import opened BlockChain

  /**
   * A list of extents spread over tables: those of one table, and then the end, a pointer that no loader should accept,
   * or the rest in the table that block `next` holds.
   */
  datatype Parts =
    | Last(data: seq<Extent>)
    | Broken(data: seq<Extent>, bad: seq<u8>)
    | Part(data: seq<Extent>, next: u64, rest: Parts)

  function All(p: Parts): seq<Extent>
  {
    if p.Part? then p.data + All(p.rest) else p.data
  }

  /** The list ends as it should. */
  predicate Ends(p: Parts)
  {
    match p
    case Last(_) => true
    case Broken(_, _) => false
    case Part(_, _, rest) => Ends(rest)
  }

  /** The list as a chain; a table can have `slots` pointers. */
  function ToChain(p: Parts, slots: nat): Chain
  {
    match p
    case Last(data) => Table(data, End)
    case Broken(data, _) => Table(data, Bad)
    case Part(data, _, rest) => Table(data, More(ToChain(rest, slots), |data| == slots - 1))
  }

  /** The tables mean the parts. */
  ghost predicate LaidOut(tables: Tables, blk: u64, p: Parts, slots: nat)
    decreases p
  {
    && blk < |tables|
    && match p
       case Last(data) => Starts(tables[blk], data, Null)
       case Broken(data, _) => Starts(tables[blk], data, Refused)
       case Part(data, next, rest) =>
         && Starts(tables[blk], data, if |data| == slots - 1 then LastSlot(next) else Continues(next))
         && LaidOut(tables, next, rest, slots)
  }

  lemma {:induction false} LaidOutHeld(tables: Tables, blk: u64, p: Parts, slots: nat)
    requires LaidOut(tables, blk, p, slots)
    ensures Held(tables, blk, ToChain(p, slots)) && Flatten(ToChain(p, slots)) == All(p)
    ensures Complete(ToChain(p, slots)) == Ends(p)
    decreases p
  {
    if p.Part? {
      LaidOutHeld(tables, p.next, p.rest, slots);
    } else {
      assert Flatten(ToChain(p, slots)) == p.data + [];
    }
  }

  /** Pointers of sixteen bytes, one after the other. */
  predicate Pointers(ptrs: seq<seq<u8>>)
  {
    forall j | 0 <= j < |ptrs| :: |ptrs[j]| == 16
  }

  function Flat(ptrs: seq<seq<u8>>): (r: seq<u8>)
    requires Pointers(ptrs)
    ensures |r| == 16 * |ptrs|
  {
    if ptrs == [] then [] else Flat(ptrs[..|ptrs| - 1]) + ptrs[|ptrs| - 1]
  }

  /** A block of `size` bytes with the pointers; the rest is filled with 0xAA. */
  function BlockOf(ptrs: seq<seq<u8>>, size: nat): (r: seq<u8>)
    requires Pointers(ptrs) && 16 * |ptrs| <= size
    ensures |r| == size
  {
    Flat(ptrs) + seq(size - 16 * |ptrs|, _ => 0xAA)
  }

  lemma {:induction false} FlatAt(ptrs: seq<seq<u8>>, j: nat)
    requires Pointers(ptrs) && j < |ptrs|
    ensures Flat(ptrs)[16 * j..16 * j + 16] == ptrs[j]
    decreases |ptrs|
  {
    var n := |ptrs| - 1;
    if j < n {
      FlatAt(ptrs[..n], j);
      assert Flat(ptrs)[16 * j..16 * j + 16] == Flat(ptrs[..n])[16 * j..16 * j + 16];
    }
  }

  /** Slot `j` of the buffer has this pointer. */
  predicate SlotIs(page: seq<u8>, j: nat, ptr: seq<u8>)
  {
    16 * (j + 1) <= |page| && page[16 * j..16 * j + 16] == ptr
  }

  /** The buffer has the pointers, and nothing but filler after them. */
  ghost predicate Holds(page: seq<u8>, ptrs: seq<seq<u8>>)
  {
    && (forall j | 0 <= j < |ptrs| :: SlotIs(page, j, ptrs[j]))
    && (forall i | 16 * |ptrs| <= i < |page| :: page[i] == 0xAA)
  }

  /** The loader's buffer after the block has been read. */
  lemma BufferHolds(ptrs: seq<seq<u8>>, size: nat, buffer: nat)
    requires Pointers(ptrs) && 16 * |ptrs| <= size <= buffer
    ensures Holds(Filled(BlockOf(ptrs, size), buffer), ptrs)
  {
    var page := Filled(BlockOf(ptrs, size), buffer);
    forall j | 0 <= j < |ptrs| ensures SlotIs(page, j, ptrs[j]) {
      FlatAt(ptrs, j);
      assert page[16 * j..16 * j + 16] == Flat(ptrs)[16 * j..16 * j + 16];
    }
  }

  function Zeros(n: nat): (r: seq<u8>)
    ensures |r| == n
  {
    seq(n, _ => 0)
  }
}

/** ECKD tables: a pointer holds cylinder, head and sector, the block size, and the number of blocks less one. */
module EckdWriter {
  import opened Common
  import opened Disk
  import opened BlockChain
  import opened Eckd
  import opened EckdLoader
  import opened TableWriter

  const SLOTS: nat := 512

  /** The block has an address: track by track, cylinder by cylinder. */
  predicate HasAddress(g: Geometry, b: nat)
  {
    g.sectors > 0 && 0 < g.heads <= 16 && b / g.sectors / g.heads < 0x1000_0000
  }

  lemma TrackFits(s: nat, h: nat, b: nat)
    requires 0 < s && 0 < h
    ensures 0 <= b / s / h && 0 <= b / s % h < h && 0 <= b % s < s
  {
  }

  function AddressOf(g: Geometry, b: nat): (x: Chs)
    requires HasAddress(g, b)
    ensures InGeometry(g, x)
  {
    TrackFits(g.sectors, g.heads, b);
    Chs(b / g.sectors / g.heads, b / g.sectors % g.heads, b % g.sectors + 1)
  }

  /** A pointer to `blocks` blocks. The head field has the high bits of the cylinder above the head. */
  function PtrBytes(x: Chs, size: u16, blocks: nat): (r: seq<u8>)
    requires 1 <= blocks <= 256
    ensures |r| == 16
  {
    ToBe16(x.cylinder % 65536) + ToBe16(x.cylinder / 65536 * 16 + x.head) + [x.sector] + ToBe16(size) + [blocks - 1]
    + Zeros(8)
  }

  /** The loader may be given this pointer. */
  ghost predicate Good(d: Disk, g: Geometry, b: nat, blocks: nat)
  {
    HasAddress(g, b) && 1 <= blocks <= 256 && (g.guessed || b < g.blocks) && d.Readable(b, blocks)
  }

  ghost predicate AllGood(d: Disk, g: Geometry, data: seq<Extent>)
  {
    forall j | 0 <= j < |data| :: Good(d, g, data[j].start, data[j].count)
  }

  /** The pointers of a table: one for each extent, and one more. */
  function PtrsOf(g: Geometry, size: u16, data: seq<Extent>, end: seq<u8>): (r: seq<seq<u8>>)
    requires forall j | 0 <= j < |data| :: HasAddress(g, data[j].start) && 1 <= data[j].count <= 256
    requires |end| == 16
    ensures |r| == |data| + 1 && Pointers(r)
  {
    seq(|data|, j requires 0 <= j < |data| => PtrBytes(AddressOf(g, data[j].start), size, data[j].count)) + [end]
  }

  /** A pointer not to be accepted: of a wrong block size, outside the geometry, or beyond the end of the disk. */
  ghost predicate IsBad(d: Disk, g: Geometry, bad: seq<u8>)
  {
    exists x: Chs, size: u16, blocks: nat ::
      && 1 <= blocks <= 256 && bad == PtrBytes(x, size, blocks) && size != 0xAAAA && ChsBlock(g, x) != NULL_BLOCK
      && (size != d.blockSize || x.head >= g.heads || x.sector == 0 || x.sector > g.sectors
          || (!g.guessed && ChsBlock(g, x) >= g.blocks))
  }

  /** The disk has the list written on it, from block `blk` on. */
  ghost predicate Written(d: Disk, g: Geometry, blk: u64, p: Parts)
    decreases p
  {
    && d.blockSize < 65536 && blk < |d.blocks| && AllGood(d, g, p.data)
    && |p.data| < SLOTS && 16 * (|p.data| + 1) <= d.blockSize
    && match p
       case Last(data) => d.blocks[blk] == BlockOf(PtrsOf(g, d.blockSize, data, Zeros(16)), d.blockSize)
       case Broken(data, bad) =>
         && IsBad(d, g, bad) && |bad| == 16 && |data| < SLOTS - 1
         && d.blocks[blk] == BlockOf(PtrsOf(g, d.blockSize, data, bad), d.blockSize)
       case Part(data, next, rest) =>
         && Good(d, g, next, 1) && Written(d, g, next, rest)
         && var link := PtrBytes(AddressOf(g, next), d.blockSize, 1);
            d.blocks[blk] == BlockOf(PtrsOf(g, d.blockSize, data, link), d.blockSize)
  }

  // ---------------------------------------------------------------------------------------------
  // Reading it back

  lemma OrdinalOf(s: nat, h: nat, b: nat, track: nat, c: nat, hd: nat, r: nat)
    requires 0 < s < 0x100 && 0 < h <= 16 && c < 0x1000_0000 && hd < h && r < s
    requires track == h * c + hd && b == s * track + r
    ensures Ordinal(s, h, c, hd, r + 1) == b + 1 <= TWO64 - 1
  {
    OrdinalByTrack(s, h, c, hd, r + 1);
  }

  /** The address of a block is that of the block and no other. */
  lemma AddressBack(g: Geometry, b: nat)
    requires HasAddress(g, b)
    ensures b < NULL_BLOCK && ChsBlock(g, AddressOf(g, b)) == b
  {
    var s, h: nat := g.sectors, g.heads;
    TrackFits(s, h, b);
    assert b == s * (b / s) + b % s && b / s == h * (b / s / h) + b / s % h;
    OrdinalOf(s, h, b, b / s, b / s / h, b / s % h, b % s);
  }

  function StoredAs(x: Chs, size: u16, count: u8): Ptr
  {
    Ptr(x.cylinder % 65536, x.cylinder / 65536 * 16 + x.head, x.sector, size, count)
  }

  lemma SplitBack(x: Chs, size: u16, count: u8)
    ensures Split(StoredAs(x, size, count)) == x
  {
  }

  lemma BytesBack(x: Chs, size: u16, blocks: nat, page: Page, j: nat)
    requires 1 <= blocks <= 256 && j < SLOTS && SlotIs(page, j, PtrBytes(x, size, blocks))
    ensures PtrAt(page, j) == StoredAs(x, size, blocks - 1)
  {
    var o := 16 * j;
    var t := page[o..o + 16];
    var c, hd: u16 := x.cylinder % 65536, x.cylinder / 65536 * 16 + x.head;
    assert t == ToBe16(c) + ToBe16(hd) + [x.sector] + ToBe16(size) + [blocks - 1] + Zeros(8);
    assert forall k | 0 <= k < 16 :: page[o + k] == t[k];
    assert [t[0], t[1]] == ToBe16(c) && [t[2], t[3]] == ToBe16(hd) && [t[5], t[6]] == ToBe16(size);
  }

  lemma PtrBack(x: Chs, size: u16, blocks: nat, page: Page, j: nat)
    requires 1 <= blocks <= 256 && j < SLOTS && SlotIs(page, j, PtrBytes(x, size, blocks))
    ensures var p := PtrAt(page, j); Split(p) == x && p.size == size && p.count == blocks - 1
  {
    BytesBack(x, size, blocks, page, j);
    SplitBack(x, size, blocks - 1);
  }

  /** A pointer is not filler. */
  lemma NotFiller(x: Chs, size: u16, blocks: nat, page: Page, j: nat)
    requires j < SLOTS && size != 0xAAAA && 1 <= blocks <= 256 && SlotIs(page, j, PtrBytes(x, size, blocks))
    ensures !Unused(page, 16 * j, 8)
  {
    BytesBack(x, size, blocks, page, j);
    assert page[16 * j + 5] != 0xAA || page[16 * j + 6] != 0xAA;
  }

  /**
   * What a pointer other than the null pointer means, by what is written in it. Only a pointer to one block with filler
   * after it leads on.
   */
  lemma PointerMeans(d: Disk, g: Geometry, x: Chs, size: u16, blocks: nat, page: Page, j: nat)
    requires j < SLOTS && 1 <= blocks <= 256 && SlotIs(page, j, PtrBytes(x, size, blocks))
    requires ChsBlock(g, x) != NULL_BLOCK
    ensures var b := ChsBlock(g, x);
            EntryAt(d, g, page, j) ==
            if j == SLOTS - 1 then LastSlot(b)
            else if size != d.blockSize || x.head >= g.heads || x.sector == 0 || x.sector > g.sectors
                    || (!g.guessed && b >= g.blocks) then Refused
            else if blocks == 1 && Unused(page, 16 * (j + 1), 8) then Continues(b)
            else if b + blocks <= |d.blocks| then Loads(Extent(b, blocks))
            else Refused
  {
    PtrBack(x, size, blocks, page, j);
  }

  lemma OrdinalNull(s: nat, h: nat)
    ensures Ordinal(s, h, 0, 0, 0) == 0
  {
    assert (s * h) * 0 == 0 && s * 0 == 0;
  }

  lemma NullBack(g: Geometry, page: Page, j: nat)
    requires j < SLOTS && SlotIs(page, j, Zeros(16))
    ensures BlockNum(g, PtrAt(page, j)) == NULL_BLOCK
  {
    ZerosBack(page, j);
    NullAddress(g);
  }

  lemma NullAddress(g: Geometry)
    ensures BlockNum(g, Ptr(0, 0, 0, 0, 0)) == NULL_BLOCK
  {
    assert Split(Ptr(0, 0, 0, 0, 0)) == Chs(0, 0, 0);
    OrdinalNull(g.sectors, g.heads);
  }

  lemma ZerosBack(page: Page, j: nat)
    requires j < SLOTS && SlotIs(page, j, Zeros(16))
    ensures PtrAt(page, j) == Ptr(0, 0, 0, 0, 0) && !Unused(page, 16 * j, 8)
  {
    var t := page[16 * j..16 * j + 16];
    assert forall k | 0 <= k < 16 :: page[16 * j + k] == t[k];
    assert page[16 * j + 0] == 0;
  }

  /** What the loader finds in the buffer: the data, and then what the last pointer means. */
  lemma TableBack(d: Disk, g: Geometry, data: seq<Extent>, end: seq<u8>, page: Page)
    requires d.blockSize <= 8192 && AllGood(d, g, data) && |data| < SLOTS && |end| == 16
    requires Holds(page, PtrsOf(g, d.blockSize, data, end)) && !Unused(page, 16 * |data|, 8)
    ensures forall j | 0 <= j < |data| :: EntryAt(d, g, page, j) == Loads(data[j])
    ensures SlotIs(page, |data|, end) && forall i | 16 * (|data| + 1) <= i < 8192 :: page[i] == 0xAA
  {
    var n, ptrs := |data|, PtrsOf(g, d.blockSize, data, end);
    forall j | 0 <= j < n ensures EntryAt(d, g, page, j) == Loads(data[j]) {
      var e := data[j];
      assert Good(d, g, e.start, e.count) && SlotIs(page, j, ptrs[j]);
      if j + 1 < n {
        assert Good(d, g, data[j + 1].start, data[j + 1].count) && SlotIs(page, j + 1, ptrs[j + 1]);
        NotFiller(AddressOf(g, data[j + 1].start), d.blockSize, data[j + 1].count, page, j + 1);
      }
      AddressBack(g, e.start);
      PointerMeans(d, g, AddressOf(g, e.start), d.blockSize, e.count, page, j);
    }
    assert SlotIs(page, n, ptrs[n]);
  }

  /** The buffer after block `blk` has been read. */
  lemma BlockHolds(d: Disk, g: Geometry, blk: u64, data: seq<Extent>, end: seq<u8>) returns (page: Page)
    requires d.Valid() && d.blockSize <= 8192 && blk < |d.blocks| && AllGood(d, g, data) && |data| < SLOTS
    requires |end| == 16 && 16 * (|data| + 1) <= d.blockSize
    requires d.blocks[blk] == BlockOf(PtrsOf(g, d.blockSize, data, end), d.blockSize)
    ensures Holds(page, PtrsOf(g, d.blockSize, data, end)) && SlotIs(page, |data|, end)
    ensures EckdTables(d, g)[blk] == Decode(d, g, page)
  {
    assert d.blocks[blk] in d.blocks;
    BufferHolds(PtrsOf(g, d.blockSize, data, end), d.blockSize, 8192);
    page := Filled(d.blocks[blk], 8192);
    assert SlotIs(page, |data|, PtrsOf(g, d.blockSize, data, end)[|data|]);
  }

  lemma LastBack(d: Disk, g: Geometry, blk: u64, data: seq<Extent>)
    requires d.Valid() && d.blockSize <= 8192 && Written(d, g, blk, Last(data))
    ensures Starts(EckdTables(d, g)[blk], data, Null)
  {
    var page := BlockHolds(d, g, blk, data, Zeros(16));
    ZerosBack(page, |data|);
    NullBack(g, page, |data|);
    TableBack(d, g, data, Zeros(16), page);
  }

  lemma BrokenBack(d: Disk, g: Geometry, blk: u64, data: seq<Extent>, bad: seq<u8>)
    requires d.Valid() && d.blockSize <= 8192 && Written(d, g, blk, Broken(data, bad))
    ensures Starts(EckdTables(d, g)[blk], data, Refused)
  {
    var page := BlockHolds(d, g, blk, data, bad);
    var x: Chs, size: u16, blocks: nat :|
      && 1 <= blocks <= 256 && bad == PtrBytes(x, size, blocks) && size != 0xAAAA && ChsBlock(g, x) != NULL_BLOCK
      && (size != d.blockSize || x.head >= g.heads || x.sector == 0 || x.sector > g.sectors
          || (!g.guessed && ChsBlock(g, x) >= g.blocks));
    NotFiller(x, size, blocks, page, |data|);
    TableBack(d, g, data, bad, page);
    PointerMeans(d, g, x, size, blocks, page, |data|);
  }

  lemma PartBack(d: Disk, g: Geometry, blk: u64, data: seq<Extent>, next: u64, rest: Parts)
    requires d.Valid() && d.blockSize <= 8192 && Written(d, g, blk, Part(data, next, rest))
    ensures Starts(EckdTables(d, g)[blk], data, if |data| == SLOTS - 1 then LastSlot(next) else Continues(next))
  {
    var x := AddressOf(g, next);
    var page := BlockHolds(d, g, blk, data, PtrBytes(x, d.blockSize, 1));
    AddressBack(g, next);
    NotFiller(x, d.blockSize, 1, page, |data|);
    TableBack(d, g, data, PtrBytes(x, d.blockSize, 1), page);
    PointerMeans(d, g, x, d.blockSize, 1, page, |data|);
  }

  lemma {:induction false} WrittenLaidOut(d: Disk, g: Geometry, blk: u64, p: Parts)
    requires d.Valid() && d.blockSize <= 8192 && Written(d, g, blk, p)
    ensures LaidOut(EckdTables(d, g), blk, p, SLOTS)
    decreases p
  {
    match p
    case Last(data) => LastBack(d, g, blk, data);
    case Broken(data, bad) => BrokenBack(d, g, blk, data, bad);
    case Part(data, next, rest) =>
      PartBack(d, g, blk, data, next, rest);
      WrittenLaidOut(d, g, next, rest);
  }

  lemma {:induction false} WrittenReadable(d: Disk, g: Geometry, blk: u64, p: Parts)
    requires Written(d, g, blk, p)
    ensures AllReadable(d, All(p))
    decreases p
  {
    forall e | e in p.data ensures d.Readable(e.start, e.count) {
      var j :| 0 <= j < |p.data| && p.data[j] == e;
      assert Good(d, g, p.data[j].start, p.data[j].count);
    }
    if p.Part? {
      WrittenReadable(d, g, p.next, p.rest);
    }
  }

  /** The loader loads what was written: every extent, whole and in order, back to back; then it goes on or panics. */
  method LoadWritten(d: Disk, g: Geometry, blk: u64, address: u64, mem: Memory, ghost p: Parts)
    returns (ok: bool, address': u64, mem': Memory)
    requires d.Valid() && d.blockSize <= 8192 && Written(d, g, blk, p)
    requires AllReadable(d, All(p)) && address + |Image(d, All(p))| < TWO64
    ensures ok == Ends(p)
    ensures mem' == Store(mem, address, Image(d, All(p))) && address' == address + |Image(d, All(p))|
  {
    WrittenLaidOut(d, g, blk, p);
    LaidOutHeld(EckdTables(d, g), blk, p, SLOTS);
    ok, address', mem' := LoadEckdList(d, g, blk, address, mem, ToChain(p, SLOTS));
  }
}

/** SCSI tables: a pointer holds the block number, the block size, and the number of blocks less one. */
module ScsiWriter {
  import opened Common
  import opened Disk
  import opened BlockChain
  import opened ScsiLoader
  import opened TableWriter

  const SLOTS: nat := 256

  function PtrBytes(size: u16, b: u64, blocks: nat): (r: seq<u8>)
    requires 1 <= blocks <= 65536
    ensures |r| == 16
  {
    ToBe64(b) + ToBe16(size) + ToBe16(blocks - 1) + Zeros(4)
  }

  /** Block 0 cannot be pointed at: a zero block number ends the list. */
  ghost predicate Good(d: Disk, b: nat, blocks: nat)
  {
    0 < b < TWO64 && 1 <= blocks <= 65536 && d.Readable(b, blocks)
  }

  ghost predicate AllGood(d: Disk, data: seq<Extent>)
  {
    forall j | 0 <= j < |data| :: Good(d, data[j].start, data[j].count)
  }

  function PtrsOf(size: u16, data: seq<Extent>, end: seq<u8>): (r: seq<seq<u8>>)
    requires forall j | 0 <= j < |data| :: data[j].start < TWO64 && 1 <= data[j].count <= 65536
    requires |end| == 16
    ensures |r| == |data| + 1 && Pointers(r)
  {
    seq(|data|, j requires 0 <= j < |data| => PtrBytes(size, data[j].start, data[j].count)) + [end]
  }

  /** A pointer not to be accepted: of a wrong block size, or beyond the end of the disk; not one that leads on. */
  ghost predicate IsBad(d: Disk, bad: seq<u8>)
  {
    exists b: u64, size: u16, blocks: nat ::
      && 2 <= blocks <= 65536 && bad == PtrBytes(size, b, blocks) && size != 0xAAAA && 0 < b < 0x8000_0000
      && (size != d.blockSize || b + blocks > |d.blocks|)
  }

  ghost predicate Written(d: Disk, blk: u64, p: Parts)
    decreases p
  {
    && d.blockSize < 65536 && blk < |d.blocks| && AllGood(d, p.data)
    && |p.data| < SLOTS && 16 * (|p.data| + 1) <= d.blockSize
    && match p
       case Last(data) => d.blocks[blk] == BlockOf(PtrsOf(d.blockSize, data, Zeros(16)), d.blockSize)
       case Broken(data, bad) =>
         && IsBad(d, bad) && |bad| == 16 && |data| < SLOTS - 1
         && d.blocks[blk] == BlockOf(PtrsOf(d.blockSize, data, bad), d.blockSize)
       case Part(data, next, rest) =>
         && next > 0 && Written(d, next, rest)
         && d.blocks[blk] == BlockOf(PtrsOf(d.blockSize, data, PtrBytes(d.blockSize, next, 1)), d.blockSize)
  }

  /** All data lies where the loader's 32-bit signed integer can name it. */
  ghost predicate Low(data: seq<Extent>)
  {
    forall j | 0 <= j < |data| :: data[j].start < 0x8000_0000
  }

  // ---------------------------------------------------------------------------------------------
  // Reading it back

  lemma PtrBack(size: u16, b: u64, blocks: nat, page: Page, j: nat)
    requires 1 <= blocks <= 65536 && j < SLOTS && SlotIs(page, j, PtrBytes(size, b, blocks))
    ensures PtrAt(page, j) == Ptr(b, size, blocks - 1)
  {
    var o := 16 * j;
    var t := page[o..o + 16];
    assert t[0..8] == ToBe64(b) && t[8..10] == ToBe16(size) && t[10..12] == ToBe16(blocks - 1);
    SubSlice(page, o, 16, 0, 8);
    SubSlice(page, o, 16, 8, 10);
    SubSlice(page, o, 16, 10, 12);
    Be64Back(b, page, o);
    Be16Back(size, page, o + 8);
    Be16Back(blocks - 1, page, o + 10);
  }

  lemma NotFiller(size: u16, b: u64, blocks: nat, page: Page, j: nat)
    requires j < SLOTS && size != 0xAAAA && 1 <= blocks <= 65536 && SlotIs(page, j, PtrBytes(size, b, blocks))
    ensures !Unused(page, 16 * j, 16)
  {
    PtrBack(size, b, blocks, page, j);
    assert page[16 * j + 8] != 0xAA || page[16 * j + 9] != 0xAA;
  }

  lemma ZerosBack(page: Page, j: nat)
    requires j < SLOTS && SlotIs(page, j, Zeros(16))
    ensures PtrAt(page, j).blockno == 0 && !Unused(page, 16 * j, 16)
  {
    var t := page[16 * j..16 * j + 16];
    assert forall k | 0 <= k < 16 :: page[16 * j + k] == t[k];
    assert page[16 * j + 0] == 0;
  }

  /** What a pointer to blocks from `b` on means, if data is read from `start`. */
  function Meaning(d: Disk, size: u16, b: u64, start: u64, blocks: nat, j: nat, filler: bool): Entry
  {
    if j == SLOTS - 1 then LastSlot(b)
    else if blocks == 1 && filler then Continues(b)
    else if size == d.blockSize && start + blocks <= |d.blocks| then Loads(Extent(start, blocks))
    else Refused
  }

  /** As the format means it, and for the loader, whose 32-bit signed integer keeps low block numbers. */
  lemma PointerMeans(d: Disk, size: u16, b: u64, blocks: nat, page: Page, j: nat)
    requires j < SLOTS && 1 <= blocks <= 65536 && SlotIs(page, j, PtrBytes(size, b, blocks)) && b > 0
    ensures var filler := j < SLOTS - 1 && Unused(page, 16 * (j + 1), 16);
            && Intended(d, page, j) == Meaning(d, size, b, b, blocks, j, filler)
            && (b < 0x8000_0000 ==> EntryAt(d, page, j) == Meaning(d, size, b, b, blocks, j, filler))
            && (j == SLOTS - 1 || (blocks == 1 && filler) ==> EntryAt(d, page, j) == Intended(d, page, j))
  {
    PtrBack(size, b, blocks, page, j);
  }

  lemma TableBack(d: Disk, data: seq<Extent>, end: seq<u8>, page: Page)
    requires d.blockSize <= 16384 && AllGood(d, data) && |data| < SLOTS && |end| == 16
    requires Holds(page, PtrsOf(d.blockSize, data, end)) && !Unused(page, 16 * |data|, 16)
    ensures forall j | 0 <= j < |data| :: Intended(d, page, j) == Loads(data[j])
    ensures forall j | 0 <= j < |data| :: data[j].start < 0x8000_0000 ==> EntryAt(d, page, j) == Loads(data[j])
    ensures forall i | 16 * (|data| + 1) <= i < 16384 :: page[i] == 0xAA
  {
    var n, ptrs := |data|, PtrsOf(d.blockSize, data, end);
    forall j | 0 <= j < n
      ensures Intended(d, page, j) == Loads(data[j])
      ensures data[j].start < 0x8000_0000 ==> EntryAt(d, page, j) == Loads(data[j])
    {
      assert Good(d, data[j].start, data[j].count) && SlotIs(page, j, ptrs[j]);
      if j + 1 < n {
        assert Good(d, data[j + 1].start, data[j + 1].count) && SlotIs(page, j + 1, ptrs[j + 1]);
        NotFiller(d.blockSize, data[j + 1].start, data[j + 1].count, page, j + 1);
      }
      PointerMeans(d, d.blockSize, data[j].start, data[j].count, page, j);
    }
  }

  /** Both readings of block `blk` find the data and then `last`, the loader if the data is low. */
  ghost predicate Reads(d: Disk, blk: u64, data: seq<Extent>, last: Entry)
    requires d.Valid() && d.blockSize <= 16384 && blk < |d.blocks|
  {
    && Starts(IntendedTables(d)[blk], data, last)
    && (Low(data) ==> Starts(ScsiTables(d)[blk], data, last))
  }

  /** The buffer after block `blk` has been read. */
  lemma BlockHolds(d: Disk, blk: u64, data: seq<Extent>, end: seq<u8>) returns (page: Page)
    requires d.Valid() && d.blockSize <= 16384 && blk < |d.blocks| && AllGood(d, data) && |data| < SLOTS
    requires |end| == 16 && 16 * (|data| + 1) <= d.blockSize
    requires d.blocks[blk] == BlockOf(PtrsOf(d.blockSize, data, end), d.blockSize)
    ensures Holds(page, PtrsOf(d.blockSize, data, end)) && SlotIs(page, |data|, end)
    ensures ScsiTables(d)[blk] == Decode(d, page) && IntendedTables(d)[blk] == IntendedTable(d, page)
  {
    assert d.blocks[blk] in d.blocks;
    BufferHolds(PtrsOf(d.blockSize, data, end), d.blockSize, 16384);
    page := Filled(d.blocks[blk], 16384);
    assert SlotIs(page, |data|, PtrsOf(d.blockSize, data, end)[|data|]);
  }

  /** What is known entry by entry, for the whole table. */
  lemma Joined(d: Disk, blk: u64, data: seq<Extent>, page: Page, last: Entry)
    requires d.Valid() && d.blockSize <= 16384 && blk < |d.blocks| && |data| < SLOTS && !last.Loads?
    requires ScsiTables(d)[blk] == Decode(d, page) && IntendedTables(d)[blk] == IntendedTable(d, page)
    requires forall j | 0 <= j < |data| :: Intended(d, page, j) == Loads(data[j])
    requires forall j | 0 <= j < |data| :: data[j].start < 0x8000_0000 ==> EntryAt(d, page, j) == Loads(data[j])
    requires EntryAt(d, page, |data|) == Intended(d, page, |data|) == last
    ensures Reads(d, blk, data, last)
  {
  }

  lemma LastBack(d: Disk, blk: u64, data: seq<Extent>)
    requires d.Valid() && d.blockSize <= 16384 && Written(d, blk, Last(data))
    ensures Reads(d, blk, data, Null)
  {
    var page := BlockHolds(d, blk, data, Zeros(16));
    ZerosBack(page, |data|);
    TableBack(d, data, Zeros(16), page);
    Joined(d, blk, data, page, Null);
  }

  lemma BrokenBack(d: Disk, blk: u64, data: seq<Extent>, bad: seq<u8>)
    requires d.Valid() && d.blockSize <= 16384 && Written(d, blk, Broken(data, bad))
    ensures Reads(d, blk, data, Refused)
  {
    var page := BlockHolds(d, blk, data, bad);
    var b: u64, size: u16, blocks: nat :|
      && 2 <= blocks <= 65536 && bad == PtrBytes(size, b, blocks) && size != 0xAAAA && 0 < b < 0x8000_0000
      && (size != d.blockSize || b + blocks > |d.blocks|);
    NotFiller(size, b, blocks, page, |data|);
    TableBack(d, data, bad, page);
    PointerMeans(d, size, b, blocks, page, |data|);
    Joined(d, blk, data, page, Refused);
  }

  lemma PartBack(d: Disk, blk: u64, data: seq<Extent>, next: u64, rest: Parts)
    requires d.Valid() && d.blockSize <= 16384 && Written(d, blk, Part(data, next, rest))
    ensures Reads(d, blk, data, if |data| == SLOTS - 1 then LastSlot(next) else Continues(next))
  {
    var link := PtrBytes(d.blockSize, next, 1);
    var page := BlockHolds(d, blk, data, link);
    NotFiller(d.blockSize, next, 1, page, |data|);
    TableBack(d, data, link, page);
    PointerMeans(d, d.blockSize, next, 1, page, |data|);
    Joined(d, blk, data, page, if |data| == SLOTS - 1 then LastSlot(next) else Continues(next));
  }

  ghost predicate AllLow(p: Parts)
  {
    Low(p.data) && (p.Part? ==> AllLow(p.rest))
  }

  /** As the format means it always, and for the loader if the truncation does not matter. */
  lemma {:induction false} WrittenLaidOut(d: Disk, blk: u64, p: Parts)
    requires d.Valid() && d.blockSize <= 16384 && Written(d, blk, p)
    ensures LaidOut(IntendedTables(d), blk, p, SLOTS)
    ensures AllLow(p) ==> LaidOut(ScsiTables(d), blk, p, SLOTS)
    decreases p
  {
    match p
    case Last(data) => LastBack(d, blk, data);
    case Broken(data, bad) => BrokenBack(d, blk, data, bad);
    case Part(data, next, rest) =>
      PartBack(d, blk, data, next, rest);
      WrittenLaidOut(d, next, rest);
  }

  /** The loader loads what was written: every extent, whole and in order, back to back; then it goes on or panics. */
  method LoadWritten(d: Disk, blk: u64, address: u64, mem: Memory, ghost p: Parts)
    returns (ok: bool, address': u64, mem': Memory)
    requires d.Valid() && d.blockSize <= 16384 && Written(d, blk, p) && AllLow(p)
    requires AllReadable(d, All(p)) && address + |Image(d, All(p))| < TWO64
    ensures ok == Ends(p)
    ensures mem' == Store(mem, address, Image(d, All(p))) && address' == address + |Image(d, All(p))|
  {
    WrittenLaidOut(d, blk, p);
    LaidOutHeld(ScsiTables(d), blk, p, SLOTS);
    ok, address', mem' := LoadScsiList(d, blk, address, mem, ToChain(p, SLOTS));
  }
}
