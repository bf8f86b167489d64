/**
 * Chained tables of block pointers, and the walk both zIPL loaders make over them. A table entry has already
 * been decoded into what it makes the loader do; the modules below do the decoding.
 */
module BlockChain {
  import opened Common
  import opened Disk

  const FILLER: u8 := 0xAA

  /** The loader's buffer, filled with 0xAA, after one block has been read into it. */
  function Filled(block: seq<u8>, size: nat): (r: seq<u8>)
    requires |block| <= size
    ensures |r| == size
  {
    block + seq(size - |block|, _ => FILLER)
  }

  /** Nothing was ever written in these bytes. */
  predicate Unused(page: seq<u8>, o: nat, n: nat)
    requires o + n <= |page|
  {
    forall i | o <= i < o + n :: page[i] == FILLER
  }

  /** What one table entry makes the loader do. */
  datatype Entry =
    | Null                   // the end of the list
    | Refused                // the loader panics
    | Continues(next: u64)   // a continuation pointer: block `next` holds the rest of the list
    | LastSlot(next: u64)    // the last entry the buffer has room for, which also continues the list
    | Loads(e: Extent)       // data

  /** `tables[b]` is what block `b` decodes to. */
  type Tables = seq<seq<Entry>>

  /** A list of extents as it lies on disk: the data pointers of a table, and how the table ends. */
  datatype Chain = Unreadable | Table(data: seq<Extent>, tail: Tail)

  datatype Tail = End | Bad | More(next: Chain, lastSlot: bool)

  /** All data extents of the chain, in order; continuation pointers contribute nothing. */
  function Flatten(c: Chain): seq<Extent>
  {
    match c
    case Unreadable => []
    case Table(data, tail) => data + FlattenTail(tail)
  }

  function FlattenTail(t: Tail): seq<Extent>
  {
    if t.More? then Flatten(t.next) else []
  }

  /** The chain ends in a null pointer, not in something the loader refuses. */
  predicate Complete(c: Chain)
  {
    match c
    case Unreadable => false
    case Table(_, More(next, _)) => Complete(next)
    case Table(_, tail) => tail.End?
  }

  /** The table starts with the data pointers `data`, then `last`. */
  ghost predicate Starts(table: seq<Entry>, data: seq<Extent>, last: Entry)
  {
    && |data| < |table| && table[|data|] == last && !last.Loads?
    && forall j | 0 <= j < |data| :: table[j] == Loads(data[j])
  }

  /** The disk holds the chain `c` from block `blk` on. */
  ghost predicate Held(tables: Tables, blk: u64, c: Chain)
    decreases c
  {
    match c
    case Unreadable => blk >= |tables|
    case Table(data, tail) =>
      blk < |tables| &&
      match tail
      case End => Starts(tables[blk], data, Null)
      case Bad => Starts(tables[blk], data, Refused)
      case More(next, lastSlot) =>
        exists b: u64 ::
          Held(tables, b, next) && Starts(tables[blk], data, if lastSlot then LastSlot(b) else Continues(b))
  }

  lemma StartsUnique(table: seq<Entry>, data: seq<Extent>, last: Entry, data': seq<Extent>, last': Entry)
    requires Starts(table, data, last) && Starts(table, data', last')
    ensures data == data' && last == last'
  {
    assert !table[|data|].Loads? && !table[|data'|].Loads?;
    forall j | 0 <= j < |data| ensures data[j] == data'[j] {
      assert table[j] == Loads(data[j]);
    }
  }

  /** A disk holds at most one chain from a block on. */
  lemma {:induction false} HeldUnique(tables: Tables, blk: u64, c: Chain, c': Chain)
    requires Held(tables, blk, c) && Held(tables, blk, c')
    ensures c == c'
    decreases c
  {
    if blk < |tables| {
      EndOfTable(tables, blk, c);
      EndOfTable(tables, blk, c');
      StartsUnique(tables[blk], c.data, tables[blk][|c.data|], c'.data, tables[blk][|c'.data|]);
      if c.tail.More? {
        HeldUnique(tables, tables[blk][|c.data|].next, c.tail.next, c'.tail.next);
      }
    }
  }

  /** Every data pointer points at blocks that can be read. */
  ghost predicate Readable(d: Disk, tables: Tables)
  {
    forall b, j | 0 <= b < |tables| && 0 <= j < |tables[b]| && tables[b][j].Loads? ::
      d.Readable(tables[b][j].e.start, tables[b][j].e.count)
  }

  lemma {:induction false} HeldReadable(d: Disk, tables: Tables, blk: u64, c: Chain)
    requires Readable(d, tables) && Held(tables, blk, c)
    ensures AllReadable(d, Flatten(c))
    ensures c.Table? ==> AllReadable(d, c.data)
    decreases c
  {
    if c.Table? {
      forall e | e in c.data ensures d.Readable(e.start, e.count) {
        var j :| 0 <= j < |c.data| && c.data[j] == e;
        assert tables[blk][j] == Loads(e);
      }
      if c.tail.More? {
        var b: u64 :| Held(tables, b, c.tail.next)
                      && Starts(tables[blk], c.data, if c.tail.lastSlot then LastSlot(b) else Continues(b));
        HeldReadable(d, tables, b, c.tail.next);
      }
    }
  }

  /** One more extent extends the image. */
  lemma ImageStep(d: Disk, es: seq<Extent>, j: nat)
    requires AllReadable(d, es) && j < |es|
    ensures AllReadable(d, es[..j]) && AllReadable(d, es[..j + 1])
    ensures Image(d, es[..j + 1]) == Image(d, es[..j]) + d.Read(es[j].start, es[j].count)
    ensures |Image(d, es[..j + 1])| <= |Image(d, es)|
  {
    assert es[..j + 1][..j] == es[..j];
    assert es == es[..j + 1] + es[j + 1..];
    ImageAppend(d, es[..j + 1], es[j + 1..]);
  }

  /**
   * Read `count` blocks to `address` and step past them. `sofar` is what has been loaded from `base` up to
   * `address` into a memory that was `mem0`.
   */
  method LoadExtent(d: Disk, start: nat, count: nat, address: u64, mem: Memory,
                    ghost base: nat, ghost mem0: Memory, ghost sofar: seq<u8>)
    returns (address': u64, mem': Memory)
    requires d.Valid() && d.Readable(start, count) && address + |d.Read(start, count)| < TWO64
    requires address == base + |sofar| && mem == Store(mem0, base, sofar)
    ensures address' == base + |sofar + d.Read(start, count)| && mem' == Store(mem0, base, sofar + d.Read(start, count))
  {
    mem' := Store(mem, address, d.Read(start, count));
    StoreAppend(mem0, base, sofar, d.Read(start, count));
    ReadLength(d, start, count);
    address' := address + count * d.blockSize;
  }

  /** One pass over a table in the buffer: load its data extents in order, up to the entry that ends it. */
  method LoadTable(d: Disk, table: seq<Entry>, address: u64, mem: Memory, ghost data: seq<Extent>, ghost end: Entry)
    returns (last: Entry, address': u64, mem': Memory)
    requires d.Valid() && Starts(table, data, end)
    requires AllReadable(d, data) && address + |Image(d, data)| < TWO64
    ensures last == end
    ensures address' == address + |Image(d, data)| && mem' == Store(mem, address, Image(d, data))
  {
    address', mem' := address, mem;
    var j := 0;
    ghost var sofar: seq<u8> := [];
    assert data[..|data|] == data;
    while table[j].Loads?
      invariant 0 <= j <= |data|
      invariant AllReadable(d, data[..j]) && sofar == Image(d, data[..j])
      invariant address' == address + |sofar| && mem' == Store(mem, address, sofar)
      decreases |data| - j
    {
      ImageStep(d, data, j);
      var e := table[j].e;
      address', mem' := LoadExtent(d, e.start, e.count, address', mem', address, mem, sofar);
      sofar := sofar + d.Read(e.start, e.count);
      j := j + 1;
    }
    last := table[j];
  }

  /** Number of tables still to be read. */
  ghost function Length(c: Chain): nat
  {
    match c
    case Table(_, More(next, _)) => 1 + Length(next)
    case _ => 0
  }

  /** `part` is loaded from `base` up to `address` into a memory that was `mem0`. */
  ghost predicate Loaded(d: Disk, part: seq<Extent>, base: nat, mem0: Memory, address: nat, mem: Memory)
  {
    AllReadable(d, part) && address == base + |Image(d, part)| && mem == Store(mem0, base, Image(d, part))
  }

  lemma LoadedMore(d: Disk, part: seq<Extent>, more: seq<Extent>, base: nat, mem0: Memory, address: nat, mem: Memory)
    requires Loaded(d, part, base, mem0, address, mem) && AllReadable(d, more)
    ensures Loaded(d, part + more, base, mem0, address + |Image(d, more)|, Store(mem, address, Image(d, more)))
  {
    ImageAppend(d, part, more);
    StoreAppend(mem0, base, Image(d, part), Image(d, more));
  }

  /** The entry that ends a table decides how the chain goes on. */
  lemma EndOfTable(tables: Tables, blk: u64, c: Chain)
    requires Held(tables, blk, c) && blk < |tables|
    ensures c.Table? && |c.data| < |tables[blk]| && Starts(tables[blk], c.data, tables[blk][|c.data|])
    ensures match tables[blk][|c.data|]
            case Null => c.tail.End?
            case Refused => c.tail.Bad?
            case Continues(n) => c.tail.More? && !c.tail.lastSlot && Held(tables, n, c.tail.next)
            case LastSlot(n) => c.tail.More? && c.tail.lastSlot && Held(tables, n, c.tail.next)
            case Loads(_) => false
  {
  }

  lemma FitsNext(d: Disk, part: seq<Extent>, data: seq<Extent>, rest: seq<Extent>, base: nat, address: nat)
    requires AllReadable(d, part + (data + rest)) && base + |Image(d, part + (data + rest))| < TWO64
    requires AllReadable(d, part) && address == base + |Image(d, part)|
    ensures AllReadable(d, data) && address + |Image(d, data)| < TWO64
    ensures part + (data + rest) == (part + data) + rest
  {
    assert forall e | e in data :: e in part + (data + rest);
    assert forall e | e in rest :: e in part + (data + rest);
    ImageAppend(d, data, rest);
    ImageAppend(d, part, data + rest);
  }

  /** Load the next table of a list of which `part` is already loaded. */
  method LoadNext(d: Disk, table: seq<Entry>, address: u64, mem: Memory,
                  ghost base: nat, ghost mem0: Memory, ghost part: seq<Extent>, ghost c: Chain)
    returns (last: Entry, address': u64, mem': Memory, ghost part': seq<Extent>)
    requires d.Valid() && c.Table? && |c.data| < |table| && Starts(table, c.data, table[|c.data|])
    requires Loaded(d, part, base, mem0, address, mem)
    requires AllReadable(d, part + Flatten(c)) && base + |Image(d, part + Flatten(c))| < TWO64
    ensures last == table[|c.data|] && Loaded(d, part', base, mem0, address', mem')
    ensures part + Flatten(c) == part' + FlattenTail(c.tail)
  {
    FitsNext(d, part, c.data, FlattenTail(c.tail), base, address);
    LoadedMore(d, part, c.data, base, mem0, address, mem);
    last, address', mem' := LoadTable(d, table, address, mem, c.data, table[|c.data|]);
    part' := part + c.data;
  }

  /**
   * Load the list that starts in block `blk`, following continuation pointers. With `stopAtLastSlot` the
   * routine returns at a table whose last slot continues the list, and its caller goes on from `next`.
   * `part` is what has been loaded and `rest` what is left.
   */
  method LoadList(d: Disk, tables: Tables, blk: u64, stopAtLastSlot: bool, address: u64, mem: Memory, ghost c: Chain)
    returns (ok: bool, next: Option<u64>, address': u64, mem': Memory, ghost part: seq<Extent>, ghost rest: Chain)
    requires d.Valid() && Readable(d, tables) && Held(tables, blk, c)
    requires AllReadable(d, Flatten(c)) && address + |Image(d, Flatten(c))| < TWO64
    ensures Loaded(d, part, address, mem, address', mem')
    ensures ok ==> Complete(c) == (next.Some? ==> Complete(rest))
    ensures ok && next.None? ==> part == Flatten(c)
    ensures ok && next.Some? ==>
              && stopAtLastSlot && Held(tables, next.value, rest) && Length(rest) < Length(c)
              && Flatten(c) == part + Flatten(rest)
    ensures !ok ==> !Complete(c) && part == Flatten(c)
  {
    var b: u64 := blk;
    address', mem', next, part, rest := address, mem, None, [], c;
    while b < |tables|
      invariant Held(tables, b, rest) && Flatten(c) == part + Flatten(rest)
      invariant Complete(c) == Complete(rest) && Length(rest) <= Length(c)
      invariant Loaded(d, part, address, mem, address', mem')
      decreases Length(rest), b < |tables|
    {
      EndOfTable(tables, b, rest);
      var last: Entry;
      last, address', mem', part := LoadNext(d, tables[b], address', mem', address, mem, part, rest);
      match last {
        case Null => return true, None, address', mem', part, rest;
        case Refused => return false, None, address', mem', part, rest;
        case Continues(n) =>
          b, rest := n, rest.tail.next;
        case LastSlot(n) =>
          if stopAtLastSlot {
            return true, Some(n), address', mem', part, rest.tail.next;
          }
          b, rest := n, rest.tail.next;
      }
    }
    return false, None, address', mem', part, rest;
  }

  lemma FitsRest(d: Disk, part: seq<Extent>, rest: seq<Extent>, base: nat, address: nat)
    requires AllReadable(d, part + rest) && base + |Image(d, part + rest)| < TWO64
    requires AllReadable(d, part) && AllReadable(d, rest) && address == base + |Image(d, part)|
    ensures address + |Image(d, rest)| < TWO64
  {
    ImageAppend(d, part, rest);
  }

  /** Call the routine that stops at last slots until it reports the end of the list. */
  method LoadLists(d: Disk, tables: Tables, blk: u64, address: u64, mem: Memory, ghost c: Chain)
    returns (ok: bool, address': u64, mem': Memory)
    requires d.Valid() && Readable(d, tables) && Held(tables, blk, c)
    requires AllReadable(d, Flatten(c)) && address + |Image(d, Flatten(c))| < TWO64
    ensures ok == Complete(c) && Loaded(d, Flatten(c), address, mem, address', mem')
  {
    ghost var part, rest;
    var next;
    ok, next, address', mem', part, rest := LoadList(d, tables, blk, true, address, mem, c);
    while ok && next.Some?
      invariant Loaded(d, part, address, mem, address', mem')
      invariant ok ==> Complete(c) == (next.Some? ==> Complete(rest))
      invariant ok && next.None? ==> part == Flatten(c)
      invariant ok && next.Some? ==> Held(tables, next.value, rest) && Flatten(c) == part + Flatten(rest)
      invariant !ok ==> !Complete(c) && part == Flatten(c)
      decreases if ok && next.Some? then 1 + Length(rest) else 0
    {
      HeldReadable(d, tables, next.value, rest);
      FitsRest(d, part, Flatten(rest), address, address');
      ghost var part', rest';
      ghost var from, was := address', mem';
      ok, next, address', mem', part', rest' := LoadList(d, tables, next.value, true, address', mem', rest);
      LoadedMore(d, part, part', address, mem, from, was);
      Assoc(part, part', Flatten(rest'));
      part, rest := part + part', rest';
    }
  }
}

/** Cylinder/head/sector addresses of an ECKD disk (bootmap.c, eckd_block_num and eckd_valid_address). */
module Eckd {
  import opened Common
  import opened Arithmetic

  datatype Geometry = Geometry(heads: u8, sectors: u8, blocks: u64, guessed: bool)

  /** A pointer as stored: the head field holds the head in its low four bits, high cylinder bits in the rest. */
  datatype Ptr = Ptr(cylinder: u16, head: u16, sector: u8, size: u16, count: u8)

  type Cylinder = c: int | 0 <= c < 0x1000_0000
  type Head = h: int | 0 <= h < 16

  /** An address taken apart. */
  datatype Chs = Chs(cylinder: Cylinder, head: Head, sector: u8)

  function Split(p: Ptr): Chs
  {
    Chs(p.cylinder + (p.head - p.head % 16) * 4096, p.head % 16, p.sector)
  }

  const NULL_BLOCK: u64 := 0xffff_ffff_ffff_ffff

  /** One plus the block number, before the subtraction that can wrap: sectors, heads, cylinder, head, sector. */
  function Ordinal(s: int, h: int, c: int, hd: int, sec: int): int
  {
    s * h * c + s * hd + sec
  }

  function ChsBlock(g: Geometry, x: Chs): u64
  {
    (Ordinal(g.sectors, g.heads, x.cylinder, x.head, x.sector) - 1) % TWO64
  }

  function BlockNum(g: Geometry, p: Ptr): u64
  {
    ChsBlock(g, Split(p))
  }

  predicate InGeometry(g: Geometry, x: Chs)
  {
    x.head < g.heads && 1 <= x.sector <= g.sectors
  }

  predicate ValidAddress(g: Geometry, p: Ptr)
  {
    InGeometry(g, Split(p)) && (g.guessed || BlockNum(g, p) < g.blocks)
  }

  // ---------------------------------------------------------------------------------------------
  // Arithmetic

  lemma LaterRow(n: nat, t: nat, a: nat, u: nat, b: nat)
    requires t < u && a <= n && 1 <= b
    ensures n * t + a < n * u + b
  {
    MulMono(n, n, t + 1, u);
    assert n * (t + 1) == n * t + n;
  }

  /** Tracks are numbered over all cylinders, sectors within a track. */
  lemma OrdinalByTrack(s: nat, h: nat, c: nat, hd: nat, sec: nat)
    requires s < 0x100 && h < 0x100 && c < 0x1000_0000 && hd < 16 && sec < 0x100
    ensures Ordinal(s, h, c, hd, sec) == s * (h * c + hd) + sec
    ensures 0 <= h * c && 0 <= Ordinal(s, h, c, hd, sec) < TWO64
  {
    assert s * h * c == s * (h * c);
    assert s * (h * c + hd) == s * (h * c) + s * hd;
    MulMono(h, 0x100, c, 0x1000_0000);
    MulMono(s, 0x100, h * c + hd, 0x100 * 0x1000_0000 + 16);
  }

  lemma OrdinalRecovered(s: nat, h: nat, c: nat, hd: nat, sec: nat)
    requires s < 0x100 && h < 0x100 && c < 0x1000_0000 && hd < 16 && hd < h && 1 <= sec <= s
    ensures var b := Ordinal(s, h, c, hd, sec) - 1;
            0 <= b < TWO64 && b % s + 1 == sec && (b / s) % h == hd && (b / s) / h == c
  {
    OrdinalByTrack(s, h, c, hd, sec);
    DivMod(s, h * c + hd, sec - 1);
    DivMod(h, c, hd);
  }

  lemma OrdinalOrder(s: nat, h: nat, c: nat, hd: nat, sec: nat, c': nat, hd': nat, sec': nat)
    requires s < 0x100 && h < 0x100 && c < 0x1000_0000 && c' < 0x1000_0000 && hd < 16 && hd' < 16
    requires hd < h && hd' < h && 1 <= sec <= s && 1 <= sec' <= s
    requires c < c' || (c == c' && hd < hd') || (c == c' && hd == hd' && sec < sec')
    ensures Ordinal(s, h, c, hd, sec) < Ordinal(s, h, c', hd', sec')
  {
    OrdinalByTrack(s, h, c, hd, sec);
    OrdinalByTrack(s, h, c', hd', sec');
    if c < c' {
      LaterRow(h, c, hd + 1, c', hd' + 1);
      LaterRow(s, h * c + hd, sec, h * c' + hd', sec');
    } else if hd < hd' {
      LaterRow(s, h * c + hd, sec, h * c' + hd', sec');
    }
  }

  lemma OrdinalZero(s: nat, h: nat, c: nat, hd: nat, sec: nat)
    requires s < 0x100 && h < 0x100 && c < 0x1000_0000 && hd < 16 && sec < 0x100
    ensures s > 0 && h > 0 ==> (Ordinal(s, h, c, hd, sec) == 0 <==> c == 0 && hd == 0 && sec == 0)
    ensures s == 0 || h == 0 ==> Ordinal(s, h, c, 0, 0) == 0
  {
    OrdinalByTrack(s, h, c, hd, sec);
    if s > 0 && h > 0 {
      MulMono(1, h, c, c);
      MulMono(1, s, h * c + hd, h * c + hd);
    }
  }

  // ---------------------------------------------------------------------------------------------
  // Addresses

  /** The stored fields and the address determine each other. */
  lemma SplitRecovered(p: Ptr)
    ensures var x := Split(p);
            p.cylinder == x.cylinder % TWO16 && p.head == x.cylinder / TWO16 * 16 + x.head && p.sector == x.sector
  {
  }

  /** On addresses inside the geometry the mapping is inverted by division and remainder. */
  lemma AddressRecovered(g: Geometry, x: Chs)
    requires InGeometry(g, x)
    ensures var b := ChsBlock(g, x);
            && x.cylinder == (b / g.sectors) / g.heads
            && x.head == (b / g.sectors) % g.heads
            && x.sector == b % g.sectors + 1
  {
    OrdinalRecovered(g.sectors, g.heads, x.cylinder, x.head, x.sector);
  }

  predicate LexLess(x: Chs, y: Chs)
  {
    || x.cylinder < y.cylinder
    || (x.cylinder == y.cylinder && x.head < y.head)
    || (x.cylinder == y.cylinder && x.head == y.head && x.sector < y.sector)
  }

  /** Block numbers increase strictly in cylinder, head, sector order. */
  lemma BlockOrder(g: Geometry, x: Chs, y: Chs)
    requires InGeometry(g, x) && InGeometry(g, y) && LexLess(x, y)
    ensures ChsBlock(g, x) < ChsBlock(g, y)
  {
    OrdinalRecovered(g.sectors, g.heads, x.cylinder, x.head, x.sector);
    OrdinalRecovered(g.sectors, g.heads, y.cylinder, y.head, y.sector);
    OrdinalOrder(g.sectors, g.heads, x.cylinder, x.head, x.sector, y.cylinder, y.head, y.sector);
  }

  lemma ChsInjective(g: Geometry, x: Chs, y: Chs)
    requires InGeometry(g, x) && InGeometry(g, y)
    ensures ChsBlock(g, x) == ChsBlock(g, y) <==> x == y
  {
    AddressRecovered(g, x);
    AddressRecovered(g, y);
  }

  /** Distinct stored addresses inside the geometry have distinct block numbers. */
  lemma BlockInjective(g: Geometry, p: Ptr, q: Ptr)
    requires InGeometry(g, Split(p)) && InGeometry(g, Split(q))
    ensures BlockNum(g, p) == BlockNum(g, q) <==> (p.cylinder == q.cylinder && p.head == q.head && p.sector == q.sector)
  {
    ChsInjective(g, Split(p), Split(q));
    SplitRecovered(p);
    SplitRecovered(q);
  }

  lemma ChsNull(g: Geometry, x: Chs)
    ensures g.heads > 0 && g.sectors > 0 ==> (ChsBlock(g, x) == NULL_BLOCK <==> x == Chs(0, 0, 0))
    ensures g.heads == 0 || g.sectors == 0 ==> ChsBlock(g, Chs(1, 0, 0)) == NULL_BLOCK
  {
    OrdinalByTrack(g.sectors, g.heads, x.cylinder, x.head, x.sector);
    OrdinalZero(g.sectors, g.heads, x.cylinder, x.head, x.sector);
    OrdinalZero(g.sectors, g.heads, 1, 0, 0);
  }

  predicate AllZero(p: Ptr) { p.cylinder == 0 && p.head == 0 && p.sector == 0 }

  /** The all-zero pointer alone is null exactly when the geometry has heads and sectors. */
  lemma NullIsAllZero(g: Geometry)
    ensures (forall p: Ptr :: BlockNum(g, p) == NULL_BLOCK <==> AllZero(p)) <==> (g.heads > 0 && g.sectors > 0)
  {
    forall p: Ptr
      ensures g.heads > 0 && g.sectors > 0 ==> (BlockNum(g, p) == NULL_BLOCK <==> AllZero(p))
    {
      ChsNull(g, Split(p));
      SplitRecovered(p);
    }
    var p := Ptr(1, 0, 0, 0, 0);
    ChsNull(g, Split(p));
    assert Split(p) == Chs(1, 0, 0) && !AllZero(p);
  }
}

/** The ECKD segment loader (bootmap.c, load_eckd_segments and the loop around it). */
module EckdLoader {
  import opened Common
  import opened Disk
  import opened BlockChain
  import opened Eckd

  const BUFFER_SIZE: nat := 8192
  const MAX_ENTRIES: nat := 512

  type Page = p: seq<u8> | |p| == 8192 witness seq(8192, _ => 0)

  function PtrAt(page: Page, j: nat): Ptr
    requires j < MAX_ENTRIES
  {
    Ptr(Be16(page, 16 * j), Be16(page, 16 * j + 2), page[16 * j + 4], Be16(page, 16 * j + 5), page[16 * j + 7])
  }

  /** Entry `j` continues the table elsewhere: it counts no blocks and nothing follows it. */
  predicate IsContinuation(page: Page, j: nat)
    requires j < MAX_ENTRIES - 1
  {
    PtrAt(page, j).count == 0 && Unused(page, 16 * (j + 1), 8)
  }

  function EntryAt(d: Disk, g: Geometry, page: Page, j: nat): Entry
    requires j < MAX_ENTRIES
  {
    var p := PtrAt(page, j);
    var b := BlockNum(g, p);
    if b == NULL_BLOCK then Null
    else if j == MAX_ENTRIES - 1 then LastSlot(b)
    else if p.size != d.blockSize || !ValidAddress(g, p) then Refused
    else if IsContinuation(page, j) then Continues(b)
    else if !d.Readable(b, p.count + 1) then Refused
    else Loads(Extent(b, p.count + 1))
  }

  function Decode(d: Disk, g: Geometry, page: Page): seq<Entry>
  {
    seq(MAX_ENTRIES, j requires 0 <= j < MAX_ENTRIES => EntryAt(d, g, page, j))
  }

  /** What every block of the disk means as a table of ECKD pointers. */
  function EckdTables(d: Disk, g: Geometry): Tables
    requires d.Valid() && d.blockSize <= BUFFER_SIZE
  {
    seq(|d.blocks|, b requires 0 <= b < |d.blocks| =>
      assert d.blocks[b] in d.blocks; Decode(d, g, Filled(d.blocks[b], BUFFER_SIZE)))
  }

  lemma EckdTablesSound(d: Disk, g: Geometry)
    requires d.Valid() && d.blockSize <= BUFFER_SIZE
    ensures Readable(d, EckdTables(d, g))
    ensures forall b, j | 0 <= b < |d.blocks| && 0 <= j < MAX_ENTRIES ::
              EckdTables(d, g)[b][j].LastSlot? ==> EckdTables(d, g)[b][j].next != NULL_BLOCK
  {
  }

  /**
   * A continuation is never mistaken for data nor data for a continuation: what follows a continuation
   * pointer is neither a pointer the loader accepts nor the null pointer.
   */
  lemma NothingFollowsContinuation(d: Disk, g: Geometry, page: Page, j: nat)
    requires d.blockSize <= BUFFER_SIZE && g.heads > 0 && g.sectors > 0
    requires j + 1 < MAX_ENTRIES - 1 && IsContinuation(page, j)
    ensures EntryAt(d, g, page, j + 1) == Refused
  {
    assert page[16 * (j + 1)] == FILLER && page[16 * (j + 1) + 5] == FILLER && page[16 * (j + 1) + 6] == FILLER;
    NullIsAllZero(g);
    assert !AllZero(PtrAt(page, j + 1));
  }

  /**
   * Load the whole list that starts in block `blk` to `address`: call the segment routine until it reports the
   * null block number. A list that ends in an entry the loader refuses makes it panic after what precedes it.
   */
  method LoadEckdList(d: Disk, g: Geometry, blk: u64, address: u64, mem: Memory, ghost c: Chain)
    returns (ok: bool, address': u64, mem': Memory)
    requires d.Valid() && d.blockSize <= BUFFER_SIZE && Held(EckdTables(d, g), blk, c)
    requires AllReadable(d, Flatten(c)) && address + |Image(d, Flatten(c))| < TWO64
    ensures ok == Complete(c)
    ensures address' == address + |Image(d, Flatten(c))| && mem' == Store(mem, address, Image(d, Flatten(c)))
  {
    EckdTablesSound(d, g);
    ok, address', mem' := LoadLists(d, EckdTables(d, g), blk, address, mem, c);
  }
}

/** The SCSI segment loader (bootmap.c, zipl_load_segment; virtio-blkdev.c, virtio_load_direct). */
module ScsiLoader {
  import opened Common
  import opened Disk
  import opened BlockChain

  const BUFFER_SIZE: nat := 16384
  const MAX_ENTRIES: nat := 256

  type Page = p: seq<u8> | |p| == 16384 witness seq(16384, _ => 0)

  datatype Ptr = Ptr(blockno: u64, size: u16, blockct: u16)

  function PtrAt(page: Page, i: nat): Ptr
    requires i < MAX_ENTRIES
  {
    Ptr(Be64(page, 16 * i), Be16(page, 16 * i + 8), Be16(page, 16 * i + 10))
  }

  /** A block number passed through a 32-bit signed integer and back. */
  function ThroughInt(b: u64): u64
  {
    var low := b % TWO32;
    if low < 0x8000_0000 then low else low + (TWO64 - TWO32)
  }

  predicate IsContinuation(page: Page, i: nat)
    requires i < MAX_ENTRIES - 1
  {
    PtrAt(page, i).blockct == 0 && Unused(page, 16 * (i + 1), 16)
  }

  /** What entry `i` makes the loader do, reading data from the block `start` gives for its block number. */
  function EntryFrom(d: Disk, page: Page, i: nat, start: u64): Entry
    requires i < MAX_ENTRIES
  {
    var p := PtrAt(page, i);
    if p.blockno == 0 then Null
    else if i == MAX_ENTRIES - 1 then LastSlot(p.blockno)
    else if IsContinuation(page, i) then Continues(p.blockno)
    else if p.size != d.blockSize || !d.Readable(start, p.blockct + 1) then Refused
    else Loads(Extent(start, p.blockct + 1))
  }

  /** The code: data block numbers are truncated. */
  function EntryAt(d: Disk, page: Page, i: nat): Entry
    requires i < MAX_ENTRIES
  {
    EntryFrom(d, page, i, ThroughInt(PtrAt(page, i).blockno))
  }

  /** The format: data block numbers are used as they are stored. */
  function Intended(d: Disk, page: Page, i: nat): Entry
    requires i < MAX_ENTRIES
  {
    EntryFrom(d, page, i, PtrAt(page, i).blockno)
  }

  function Decode(d: Disk, page: Page): seq<Entry>
  {
    seq(MAX_ENTRIES, i requires 0 <= i < MAX_ENTRIES => EntryAt(d, page, i))
  }

  /** What every block of the disk means as a table of SCSI pointers. */
  function ScsiTables(d: Disk): Tables
    requires d.Valid() && d.blockSize <= BUFFER_SIZE
  {
    seq(|d.blocks|, b requires 0 <= b < |d.blocks| => assert d.blocks[b] in d.blocks;
        Decode(d, Filled(d.blocks[b], BUFFER_SIZE)))
  }

  lemma ScsiTablesSound(d: Disk)
    requires d.Valid() && d.blockSize <= BUFFER_SIZE
    ensures Readable(d, ScsiTables(d))
  {
  }

  /** The truncation keeps exactly the block numbers below 2^31 and the topmost 2^31. */
  lemma ThroughIntKeeps(b: u64)
    ensures ThroughInt(b) == b <==> b < 0x8000_0000 || b >= TWO64 - 0x8000_0000
  {
  }

  predicate IsDataPtr(d: Disk, page: Page, i: nat)
  {
    && i < MAX_ENTRIES - 1 && PtrAt(page, i).blockno != 0 && !IsContinuation(page, i)
    && PtrAt(page, i).size == d.blockSize
  }

  /** The entry is not data, or its block number survives, or neither the stored nor the truncated blocks exist. */
  predicate Harmless(d: Disk, page: Page, i: nat)
    requires i < MAX_ENTRIES
  {
    var p := PtrAt(page, i);
    || !IsDataPtr(d, page, i)
    || p.blockno < 0x8000_0000 || p.blockno >= TWO64 - 0x8000_0000
    || (!d.Readable(p.blockno, p.blockct + 1) && !d.Readable(ThroughInt(p.blockno), p.blockct + 1))
  }

  /** The loader does with an entry what the format intends exactly when the truncation is harmless. */
  lemma TruncationHarmless(d: Disk, page: Page, i: nat)
    requires i < MAX_ENTRIES
    ensures EntryAt(d, page, i) == Intended(d, page, i) <==> Harmless(d, page, i)
  {
    ThroughIntKeeps(PtrAt(page, i).blockno);
  }

  /** What every block of the disk means as the format intends. */
  function IntendedTables(d: Disk): Tables
    requires d.Valid() && d.blockSize <= BUFFER_SIZE
  {
    seq(|d.blocks|, b requires 0 <= b < |d.blocks| => assert d.blocks[b] in d.blocks; IntendedTable(d, PageAt(d, b)))
  }

  function IntendedTable(d: Disk, page: Page): seq<Entry>
  {
    seq(MAX_ENTRIES, i requires 0 <= i < MAX_ENTRIES => Intended(d, page, i))
  }

  function PageAt(d: Disk, b: nat): Page
    requires d.Valid() && d.blockSize <= BUFFER_SIZE && b < |d.blocks|
  {
    assert d.blocks[b] in d.blocks;
    Filled(d.blocks[b], BUFFER_SIZE)
  }

  /** Every entry that a walk of the list visits is harmless: all up to the end of each table. */
  ghost predicate ListHarmless(d: Disk, blk: u64, c: Chain)
    requires d.Valid() && d.blockSize <= BUFFER_SIZE
    decreases c
  {
    c.Table? && blk < |d.blocks| && |c.data| < MAX_ENTRIES ==>
      && (forall j | 0 <= j <= |c.data| :: Harmless(d, PageAt(d, blk), j))
      && (c.tail.More? ==> ListHarmless(d, PtrAt(PageAt(d, blk), |c.data|).blockno, c.tail.next))
  }

  lemma TablesAt(d: Disk, b: nat, j: nat)
    requires d.Valid() && d.blockSize <= BUFFER_SIZE && b < |d.blocks| && j < MAX_ENTRIES
    ensures |ScsiTables(d)| == |IntendedTables(d)| == |d.blocks|
    ensures |ScsiTables(d)[b]| == |IntendedTables(d)[b]| == MAX_ENTRIES
    ensures ScsiTables(d)[b][j] == EntryAt(d, PageAt(d, b), j)
    ensures IntendedTables(d)[b][j] == Intended(d, PageAt(d, b), j)
  {
  }

  /** Only data is decoded differently. */
  lemma OthersSame(d: Disk, page: Page, i: nat)
    requires i < MAX_ENTRIES
    ensures EntryAt(d, page, i) == Intended(d, page, i) || Intended(d, page, i).Loads?
            || Intended(d, page, i) == Refused
    ensures Intended(d, page, i).LastSlot? || Intended(d, page, i).Continues? ==>
              Intended(d, page, i).next == PtrAt(page, i).blockno
  {
  }

  /** One table that both decodings read alike up to its end. */
  lemma SameTable(d: Disk, blk: nat, data: seq<Extent>, last: Entry)
    requires d.Valid() && d.blockSize <= BUFFER_SIZE && blk < |d.blocks| && |data| < MAX_ENTRIES
    requires Starts(IntendedTables(d)[blk], data, last)
    ensures Starts(ScsiTables(d)[blk], data, last) <==> forall j | 0 <= j <= |data| :: Harmless(d, PageAt(d, blk), j)
  {
    forall j | 0 <= j <= |data|
      ensures ScsiTables(d)[blk][j] == IntendedTables(d)[blk][j] <==> Harmless(d, PageAt(d, blk), j)
    {
      TablesAt(d, blk, j);
      TruncationHarmless(d, PageAt(d, blk), j);
    }
  }

  /**
   * For whole lists: where the disk holds a list as the format intends, it holds the same list for the loader if and
   * only if the truncation is harmless for every entry visited.
   */
  lemma {:induction false} ListTruncation(d: Disk, blk: u64, c: Chain)
    requires d.Valid() && d.blockSize <= BUFFER_SIZE && Held(IntendedTables(d), blk, c)
    ensures Held(ScsiTables(d), blk, c) <==> ListHarmless(d, blk, c)
    decreases c
  {
    if blk < |d.blocks| {
      EndOfTable(IntendedTables(d), blk, c);
      var n := |c.data|;
      TablesAt(d, blk, n);
      var last := IntendedTables(d)[blk][n];
      SameTable(d, blk, c.data, last);
      OthersSame(d, PageAt(d, blk), n);
      if c.tail.More? {
        ListTruncation(d, last.next, c.tail.next);
      }
      if Held(ScsiTables(d), blk, c) {
        EndOfTable(ScsiTables(d), blk, c);
      }
    }
  }

  /** A pointer to block 2^32 + 5 of an eight-block disk: the format refuses it, the loader loads block 5. */
  lemma TruncationExample(d: Disk, page: Page)
    requires d.blockSize == 512 && |d.blocks| == 8
    requires page[..12] == [0, 0, 0, 1, 0, 0, 0, 5, 2, 0, 0, 0] && page[16] == 0
    ensures Intended(d, page, 0) == Refused && EntryAt(d, page, 0) == Loads(Extent(5, 1))
  {
    var s := page[..12];
    assert forall k | 0 <= k < 12 :: page[k] == s[k];
    assert PtrAt(page, 0) == Ptr(0x1_0000_0005, 512, 0);
    assert !IsContinuation(page, 0) by { assert page[16] != FILLER; }
  }

  /**
   * Load the whole list that starts in block `blk` to `address`. A list that ends in an entry the loader
   * refuses makes it panic after what precedes it.
   */
  method LoadScsiList(d: Disk, blk: u64, address: u64, mem: Memory, ghost c: Chain)
    returns (ok: bool, address': u64, mem': Memory)
    requires d.Valid() && d.blockSize <= BUFFER_SIZE && Held(ScsiTables(d), blk, c)
    requires AllReadable(d, Flatten(c)) && address + |Image(d, Flatten(c))| < TWO64
    ensures ok == Complete(c)
    ensures address' == address + |Image(d, Flatten(c))| && mem' == Store(mem, address, Image(d, Flatten(c)))
  {
    ScsiTablesSound(d);
    ghost var part, rest;
    var next;
    ok, next, address', mem', part, rest := LoadList(d, ScsiTables(d), blk, false, address, mem, c);
  }
}
