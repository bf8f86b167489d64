/**
 * Reading a run of blocks through either back end: virtio-scsi splits the run into READ(10) commands
 * (virtio-scsi.c, virtio_scsi_read_many), virtio-blk sends one request (virtio-blkdev.c, virtio_blk_read_many).
 */
module ReadMany {
  import opened Common
  import opened Disk

  const SCSI_MAX_SECTORS: u32 := 2048

  /** The smaller of two limits, where zero means no limit. */
  function MinNonZero(a: nat, b: nat): nat
  {
    if a == 0 then b else if b == 0 then a else if a < b then a else b
  }

  /** The limit after device setup, from the device's configuration and its block-limits page. */
  function TransferLimit(configured: u32, reported: u32): (m: nat)
    ensures 1 <= m <= 2048 && (configured != 0 ==> m <= configured) && (reported != 0 ==> m <= reported)
    ensures m == 2048 || m == configured || m == reported
  {
    MinNonZero(configured, MinNonZero(SCSI_MAX_SECTORS, reported))
  }

  /**
   * A READ(10) command, and the place and size of its data buffer; block address and count have the widths of the
   * command block, the size that of the driver's variable.
   */
  datatype Read10 = Read10(lba: u32, blocks: u16, addr: nat, size: u32)

  function Zeros(n: nat): (r: seq<u8>)
    ensures |r| == n
  {
    seq(n, _ => 0)
  }

  /** The driver zeroes the buffer; the device then stores the blocks, as far as they fit the buffer. */
  function Execute(d: Disk, q: Read10, m: Memory): Memory
    requires d.Readable(q.lba, q.blocks)
  {
    var data := d.Read(q.lba, q.blocks);
    Store(Store(m, q.addr, Zeros(q.size)), q.addr, if |data| <= q.size then data else data[..q.size])
  }

  /** The memory after some commands, and whether the device could read all they name. */
  datatype Done = Done(ok: bool, mem: Memory)

  /** The commands in turn; the driver panics at the first that fails. */
  function ExecuteAll(d: Disk, qs: seq<Read10>, m: Memory): Done
  {
    if qs == [] then Done(true, m)
    else if !d.Readable(qs[0].lba, qs[0].blocks) then Done(false, Store(m, qs[0].addr, Zeros(qs[0].size)))
    else ExecuteAll(d, qs[1..], Execute(d, qs[0], m))
  }

  /** The size of a buffer for `n` sectors of `f` blocks of `bs` bytes, in 32 bits. */
  function DataSize(n: nat, f: nat, bs: nat): u32
  {
    (n * f * bs) % TWO32
  }

  /** The command for `n` sectors of `f` blocks each, from sector `s`: address and length are cut to their fields. */
  function Command(s: nat, n: nat, f: nat, bs: nat, addr: nat): Read10
  {
    Read10((s * f) % TWO32, (n * f) % TWO16, addr, DataSize(n, f, bs))
  }

  /** The commands issued for `n` sectors from sector `s`, at most `max` sectors each. */
  function Commands(s: nat, n: nat, max: nat, f: nat, bs: nat, addr: nat): seq<Read10>
    requires max > 0
    decreases n
  {
    if n == 0 then []
    else if n <= max then [Command(s, n, f, bs, addr)]
    else [Command(s, max, f, bs, addr)] + Commands(s + max, n - max, max, f, bs, addr + DataSize(max, f, bs))
  }

  /** The commands cover `n` blocks from `lba`, in order, without gap or overlap, none empty, each with its buffer. */
  predicate Tiles(qs: seq<Read10>, lba: nat, n: int, addr: nat, bs: nat)
  {
    if qs == [] then n == 0
    else
      && qs[0].lba == lba && 1 <= qs[0].blocks <= n && qs[0].addr == addr && qs[0].size == qs[0].blocks * bs
      && Tiles(qs[1..], lba + qs[0].blocks, n - qs[0].blocks, addr + qs[0].blocks * bs, bs)
  }

  /** First sector of the last command. */
  function LastStart(s: nat, n: nat, max: nat): nat
    requires max > 0
    decreases n
  {
    if n <= max then s else LastStart(s + max, n - max, max)
  }

  lemma {:induction false} LastStartIs(s: nat, n: nat, max: nat)
    requires max > 0 && n > 0
    ensures s <= LastStart(s, n, max) < s + n
    decreases n
  {
    if n > max {
      LastStartIs(s + max, n - max, max);
    }
  }

  lemma MulLe(a: nat, b: nat, f: nat)
    ensures a <= b ==> a * f <= b * f
    ensures 0 < a && 0 < f ==> 0 < a * f
  {
  }

  lemma ShortLength(n: nat, max: nat, f: nat)
    requires 1 <= n <= max && 1 <= f && max * f < TWO16
    ensures 1 <= n * f <= max * f && (n * f) % TWO16 == n * f
  {
    MulLe(n, max, f);
    MulLe(n, n, f);
  }

  lemma TilesCons(q: Read10, rest: seq<Read10>, lba: nat, n: int, addr: nat, bs: nat)
    ensures Tiles([q] + rest, lba, n, addr, bs) <==>
            q.lba == lba && 1 <= q.blocks <= n && q.addr == addr && q.size == q.blocks * bs
            && Tiles(rest, lba + q.blocks, n - q.blocks, addr + q.blocks * bs, bs)
  {
    assert ([q] + rest)[1..] == rest;
  }

  lemma Chunk(s: nat, n: nat, max: nat, f: nat)
    requires max <= n
    ensures (s + max) * f == s * f + max * f && (n - max) * f == n * f - max * f && max * f <= n * f
  {
    MulLe(max, n, f);
  }

  lemma SizeExact(n: nat, f: nat, bs: nat)
    ensures DataSize(n, f, bs) == n * f * bs <==> n * f * bs < TWO32
  {
    MulLe(0, n, f);
    MulLe(0, n * f, bs);
  }

  lemma LastTiles(s: nat, n: nat, max: nat, f: nat, bs: nat, addr: nat)
    requires 1 <= n <= max && 1 <= f && max * f < TWO16
    ensures Tiles([Command(s, n, f, bs, addr)], s * f, n * f, addr, bs) <==> s * f < TWO32 && n * f * bs < TWO32
  {
    ShortLength(n, max, f);
    SizeExact(n, f, bs);
    TilesCons(Command(s, n, f, bs, addr), [], s * f, n * f, addr, bs);
    assert [Command(s, n, f, bs, addr)] + [] == [Command(s, n, f, bs, addr)];
  }

  lemma FirstTiles(s: nat, n: nat, max: nat, f: nat, bs: nat, addr: nat, rest: seq<Read10>)
    requires 1 <= max < n && 1 <= f && max * f < TWO16
    ensures Tiles([Command(s, max, f, bs, addr)] + rest, s * f, n * f, addr, bs) <==>
            s * f < TWO32 && max * f * bs < TWO32
            && Tiles(rest, (s + max) * f, (n - max) * f, addr + DataSize(max, f, bs), bs)
  {
    ShortLength(max, max, f);
    SizeExact(max, f, bs);
    Chunk(s, n, max, f);
    TilesCons(Command(s, max, f, bs, addr), rest, s * f, n * f, addr, bs);
  }

  function Least(n: nat, max: nat): nat { if n <= max then n else max }

  /** READ(10) can express where the last command starts, and 32 bits the size of the largest buffer. */
  predicate Expressible(s: nat, n: nat, max: nat, f: nat, bs: nat)
    requires max > 0
  {
    LastStart(s, n, max) * f < TWO32 && Least(n, max) * f * bs < TWO32
  }

  lemma ExpressibleNext(s: nat, n: nat, max: nat, f: nat, bs: nat)
    requires 1 <= max < n
    ensures Expressible(s, n, max, f, bs) <==>
            s * f < TWO32 && max * f * bs < TWO32 && Expressible(s + max, n - max, max, f, bs)
  {
    LastStartIs(s, n, max);
    MulLe(s, LastStart(s, n, max), f);
    MulLe(Least(n - max, max), max, f);
    MulLe(Least(n - max, max) * f, max * f, bs);
  }

  /**
   * While the transfer length fits its 16-bit field, the commands tile the requested range exactly when the last of
   * them starts at an address that READ(10) can express and no buffer size wraps.
   */
  lemma {:induction false} CommandsTile(s: nat, n: nat, max: nat, f: nat, bs: nat, addr: nat)
    requires 1 <= max && 1 <= f && max * f < TWO16 && n > 0
    ensures Tiles(Commands(s, n, max, f, bs, addr), s * f, n * f, addr, bs) <==> Expressible(s, n, max, f, bs)
    decreases n
  {
    if n <= max {
      LastTiles(s, n, max, f, bs, addr);
    } else {
      var addr' := addr + DataSize(max, f, bs);
      ExpressibleNext(s, n, max, f, bs);
      CommandsTile(s + max, n - max, max, f, bs, addr');
      FirstTiles(s, n, max, f, bs, addr, Commands(s + max, n - max, max, f, bs, addr'));
    }
  }

  ghost predicate EachAtMost(qs: seq<Read10>, k: nat)
  {
    forall q | q in qs :: 1 <= q.blocks <= k
  }

  lemma {:induction false} CommandsShort(s: nat, n: nat, max: nat, f: nat, bs: nat, addr: nat)
    requires 1 <= max && 1 <= f && max * f < TWO16
    ensures EachAtMost(Commands(s, n, max, f, bs, addr), max * f)
    decreases n
  {
    if 0 < n <= max {
      ShortLength(n, max, f);
    } else if n > max {
      ShortLength(max, max, f);
      CommandsShort(s + max, n - max, max, f, bs, addr + DataSize(max, f, bs));
    }
  }

  /** A command with the right buffer stores exactly its blocks. */
  lemma ExecuteIs(d: Disk, q: Read10, m: Memory)
    requires d.Valid() && d.Readable(q.lba, q.blocks) && q.size == q.blocks * d.blockSize
    ensures Execute(d, q, m) == Store(m, q.addr, d.Read(q.lba, q.blocks))
  {
    ReadLength(d, q.lba, q.blocks);
    StoreOver(m, q.addr, Zeros(q.size), d.Read(q.lba, q.blocks));
  }

  /** Two reads one after the other, stored one after the other. */
  lemma TwoReads(d: Disk, lba: nat, k: nat, n: nat, addr: nat, m: Memory)
    requires d.Valid() && d.Readable(lba, k + n)
    ensures Store(Store(m, addr, d.Read(lba, k)), addr + k * d.blockSize, d.Read(lba + k, n))
            == Store(m, addr, d.Read(lba, k + n))
  {
    ReadLength(d, lba, k);
    ReadAppend(d, lba, k, n);
    StoreAppend(m, addr, d.Read(lba, k), d.Read(lba + k, n));
  }

  /** Commands that tile a range have the effect of one read of the range. */
  lemma {:induction false} TilesExecute(d: Disk, qs: seq<Read10>, lba: nat, n: nat, addr: nat, m: Memory)
    requires d.Valid() && d.Readable(lba, n) && Tiles(qs, lba, n, addr, d.blockSize)
    ensures ExecuteAll(d, qs, m) == Done(true, Store(m, addr, d.Read(lba, n)))
    decreases |qs|
  {
    if qs != [] {
      var q := qs[0];
      var m', step := Store(m, addr, d.Read(lba, q.blocks)), q.blocks * d.blockSize;
      ExecuteIs(d, q, m);
      assert ExecuteAll(d, qs, m) == ExecuteAll(d, qs[1..], m');
      TilesExecute(d, qs[1..], lba + q.blocks, n - q.blocks, addr + step, m');
      TwoReads(d, lba, q.blocks, n - q.blocks, addr, m);
    }
  }

  /** The chunked read as one read: the range must be readable and expressible. */
  lemma CommandsRead(d: Disk, s: nat, n: nat, max: nat, f: nat, addr: nat, m: Memory)
    requires d.Valid() && 1 <= max && 1 <= f && max * f < TWO16 && n > 0
    requires d.Readable(s * f, n * f) && Expressible(s, n, max, f, d.blockSize)
    ensures ExecuteAll(d, Commands(s, n, max, f, d.blockSize, addr), m)
            == Done(true, Store(m, addr, d.Read(s * f, n * f)))
  {
    CommandsTile(s, n, max, f, d.blockSize, addr);
    TilesExecute(d, Commands(s, n, max, f, d.blockSize, addr), s * f, n * f, addr, m);
  }

  /** How many sectors one turn of the loop asks for: the count left is compared as an unsigned number. */
  function Count(left: int, max: nat): nat
  {
    MinNonZero(left % TWO32, max)
  }

  lemma CountIs(left: int, max: nat)
    requires 1 <= max <= SCSI_MAX_SECTORS && -0x8000_0000 <= left < 0x8000_0000
    ensures Count(left, max) == if 0 < left < max then left else max
  {
  }

  /** The commands of a loop that starts with `left` sectors to go; its body runs at least once. */
  function Turns(s: nat, left: int, max: nat, f: nat, bs: nat, addr: nat): seq<Read10>
    requires max > 0
  {
    if left > 0 then Commands(s, left, max, f, bs, addr) else [Command(s, max, f, bs, addr)]
  }

  /** One turn, and what is left to do after it. */
  lemma NextTurn(s: nat, left: int, max: nat, f: nat, bs: nat, addr: nat, count: nat)
    requires max > 0 && count == if 0 < left < max then left else max
    ensures var q := Command(s, count, f, bs, addr);
            Turns(s, left, max, f, bs, addr)
            == if left <= count then [q]
               else [q] + Turns(s + count, left - count, max, f, bs, addr + DataSize(count, f, bs))
  {
  }

  lemma ExecuteCons(d: Disk, q: Read10, qs: seq<Read10>, m: Memory)
    ensures ExecuteAll(d, [q] + qs, m) ==
            if d.Readable(q.lba, q.blocks) then ExecuteAll(d, qs, Execute(d, q, m))
            else Done(false, Store(m, q.addr, Zeros(q.size)))
  {
    assert ([q] + qs)[1..] == qs;
  }

  /** One command, issued and waited for. */
  method Issue(d: Disk, q: Read10, m: Memory) returns (ok: bool, m': Memory)
    ensures ok == d.Readable(q.lba, q.blocks)
    ensures m' == if ok then Execute(d, q, m) else Store(m, q.addr, Zeros(q.size))
  {
    m' := Store(m, q.addr, Zeros(q.size));
    ok := d.Readable(q.lba, q.blocks);
    if ok {
      var data := d.Read(q.lba, q.blocks);
      m' := Store(m', q.addr, if |data| <= q.size then data else data[..q.size]);
    }
  }

  /** What the loop has yet to do, and where it will end. */
  ghost predicate Ahead(d: Disk, more: bool, todo: seq<Read10>, m: Memory, end: Done)
  {
    end == ExecuteAll(d, if more then todo else [], m)
  }

  /**
   * The chunking loop. A count of zero is taken for "no limit", so a count that is not positive still transfers
   * `max` sectors. A command that fails ends it.
   */
  method ScsiReadMany(d: Disk, max: nat, f: nat, sector: nat, addr: nat, secNum: int, mem: Memory)
    returns (ok: bool, mem': Memory)
    requires 1 <= max <= SCSI_MAX_SECTORS && 1 <= f && -0x8000_0000 <= secNum < 0x8000_0000
    ensures Done(ok, mem') == ExecuteAll(d, Turns(sector, secNum, max, f, d.blockSize, addr), mem)
  {
    var s: nat, left: int, a: nat := sector, secNum, addr;
    ghost var end := ExecuteAll(d, Turns(s, left, max, f, d.blockSize, a), mem);
    mem' := mem;
    var more := true;
    while more
      invariant Ahead(d, more, Turns(s, left, max, f, d.blockSize, a), mem', end)
      invariant more ==> -0x8000_0000 <= left < 0x8000_0000
      decreases more, left
    {
      var count := Count(left, max);
      var q := Command(s, count, f, d.blockSize, a);
      CountIs(left, max);
      NextTurn(s, left, max, f, d.blockSize, a, count);
      ghost var rest := if left > count then
        Turns(s + count, left - count, max, f, d.blockSize, a + DataSize(count, f, d.blockSize)) else [];
      assert Turns(s, left, max, f, d.blockSize, a) == [q] + rest;
      ExecuteCons(d, q, rest, mem');
      ok, mem' := Issue(d, q, mem');
      if !ok {
        return;
      }
      a := a + q.size;
      s := s + count;
      left := left - count;
      more := left > 0;
    }
    ok := true;
  }

  // ---------------------------------------------------------------------------------------------
  // Blocks made of several device sectors

  /** `view` is the medium `d` seen as blocks of `k` sectors each. */
  ghost predicate Regrouped(d: Disk, k: nat, view: Disk)
  {
    && view.blockSize == d.blockSize * k && |view.blocks| * k <= |d.blocks|
    && forall b | 0 <= b < |view.blocks| :: BlockIs(d, k, b, view.blocks[b])
  }

  predicate BlockIs(d: Disk, k: nat, b: nat, block: seq<u8>)
  {
    d.Readable(b * k, k) && block == d.Read(b * k, k)
  }

  lemma OneBlockMore(b: nat, n: nat, k: nat)
    requires n > 0
    ensures (b + 1) * k == b * k + k && n * k == k + (n - 1) * k
  {
  }

  /** One block in front of a run of blocks. */
  lemma RegroupCons(d: Disk, k: nat, at: nat, first: seq<u8>, rest: nat)
    requires d.Readable(at, k) && d.Readable(at + k, rest) && first == d.Read(at, k)
    ensures d.Readable(at, k + rest) && first + d.Read(at + k, rest) == d.Read(at, k + rest)
  {
    ReadAppend(d, at, k, rest);
  }

  /** Reading blocks is reading all their sectors. */
  lemma {:induction false} RegroupRead(d: Disk, k: nat, view: Disk, b: nat, n: nat)
    requires Regrouped(d, k, view) && view.Readable(b, n)
    ensures d.Readable(b * k, n * k) && view.Read(b, n) == d.Read(b * k, n * k)
    decreases n
  {
    if n == 0 {
      MulLe(b, |view.blocks|, k);
    } else {
      RegroupRead(d, k, view, b + 1, n - 1);
      OneBlockMore(b, n, k);
      assert BlockIs(d, k, b, view.blocks[b]);
      RegroupCons(d, k, b * k, view.blocks[b], (n - 1) * k);
    }
  }

  /** One virtio-blk request: the device counts in sectors, the caller in blocks of `k` sectors. */
  function BlkReadMany(d: Disk, k: nat, sector: nat, addr: nat, secNum: nat, m: Memory): Memory
  {
    if d.Readable(sector * k, secNum * k) then Store(m, addr, d.Read(sector * k, secNum * k)) else m
  }

  /**
   * Both back ends implement the same read of a run of blocks of one `view`: virtio-blk on a medium with `k` sectors
   * to the block, virtio-scsi on one with `f`.
   */
  lemma BackendsAgree(view: Disk, blk: Disk, k: nat, lun: Disk, f: nat, max: nat, sector: nat, addr: nat, n: nat,
                      m: Memory)
    requires Regrouped(blk, k, view) && Regrouped(lun, f, view) && view.Readable(sector, n)
    requires lun.Valid() && 1 <= max && 1 <= f && max * f < TWO16 && n > 0
    requires Expressible(sector, n, max, f, lun.blockSize)
    ensures BlkReadMany(blk, k, sector, addr, n, m) == Store(m, addr, view.Read(sector, n))
    ensures ExecuteAll(lun, Commands(sector, n, max, f, lun.blockSize, addr), m)
            == Done(true, Store(m, addr, view.Read(sector, n)))
  {
    RegroupRead(blk, k, view, sector, n);
    RegroupRead(lun, f, view, sector, n);
    CommandsRead(lun, sector, n, max, f, addr, m);
  }

  /** The run of `n` blocks that was asked for, by one request; none if the count is not positive. */
  function AskedFor(blk: Disk, k: nat, sector: nat, addr: nat, n: int, m: Memory): Memory
  {
    BlkReadMany(blk, k, sector, addr, if n > 0 then n else 0, m)
  }

  /** A command that is issued leaves a trace, if only in the zeroed buffer. */
  lemma IssuedDiffers(d: Disk, q: Read10)
    requires d.Valid() && 1 <= q.blocks && 1 <= q.size
    ensures ExecuteAll(d, [q], Memory(map[])) != Done(true, Memory(map[]))
  {
    var none := Memory(map[]);
    ExecuteCons(d, q, [], none);
    assert [q] + [] == [q];
    if d.Readable(q.lba, q.blocks) {
      var data := d.Read(q.lba, q.blocks);
      var cut := if |data| <= q.size then data else data[..q.size];
      StoreAt(none, q.addr, Zeros(q.size), q.addr);
      StoreAt(Store(none, q.addr, Zeros(q.size)), q.addr, cut, q.addr);
    }
  }

  /**
   * The chunked read does what was asked for, on every memory, if and only if the count is positive: otherwise it
   * still issues a command of the limit.
   */
  lemma CountDecides(view: Disk, blk: Disk, k: nat, lun: Disk, f: nat, max: nat, sector: nat, addr: nat, n: int)
    requires Regrouped(blk, k, view) && Regrouped(lun, f, view) && lun.Valid()
    requires 1 <= max && 1 <= f && max * f < TWO16 && max * f * lun.blockSize < TWO32
    requires n > 0 ==> view.Readable(sector, n) && Expressible(sector, n, max, f, lun.blockSize)
    ensures (forall m :: ExecuteAll(lun, Turns(sector, n, max, f, lun.blockSize, addr), m)
                         == Done(true, AskedFor(blk, k, sector, addr, n, m)))
            <==> n > 0
  {
    if n > 0 {
      forall m ensures ExecuteAll(lun, Turns(sector, n, max, f, lun.blockSize, addr), m)
                       == Done(true, AskedFor(blk, k, sector, addr, n, m)) {
        BackendsAgree(view, blk, k, lun, f, max, sector, addr, n, m);
      }
    } else {
      var q := Command(sector, max, f, lun.blockSize, addr);
      ShortLength(max, max, f);
      MulLe(1, max * f, lun.blockSize);
      SizeExact(max, f, lun.blockSize);
      IssuedDiffers(lun, q);
      assert AskedFor(blk, k, sector, addr, n, Memory(map[])) == Memory(map[]);
    }
  }
}

/** The virtio-blk request (virtio-blkdev.c, virtio_blk_read_many), after section 5.2.6 of Virtio 1.0. */
module BlkRequest {
  import opened Common
  import opened Arithmetic
  import opened Disk
  import opened ReadMany
  import opened V = VRing

  const HEADER_SIZE: u32 := 16
  const T_IN: u32 := 0
  const PRIORITY: u32 := 99

  /** The request header: type, priority, sector. */
  function Header(sector: u64): (r: seq<u8>)
    ensures |r| == HEADER_SIZE
  {
    ToBe32(T_IN) + ToBe32(PRIORITY) + ToBe64(sector)
  }

  lemma HeaderBack(sector: u64)
    ensures Be32(Header(sector), 0) == T_IN && Be64(Header(sector), 8) == sector
  {
    var h := Header(sector);
    assert h[0..4] == ToBe32(T_IN) && h[8..16] == ToBe64(sector);
    Be32Back(T_IN, h, 0);
    Be64Back(sector, h, 8);
  }

  /**
   * How the device serves a chain of three buffers: it reads type and sector from the first, stores the data of a read
   * to the second and success to the third.
   */
  function Serve(d: Disk, buffers: seq<Buffer>, m: Memory): Memory
  {
    if |buffers| == 3 && buffers[0].len == HEADER_SIZE && d.blockSize > 0 then
      var header := Load(m, buffers[0].addr, HEADER_SIZE);
      var sector, count := Be64(header, 8), buffers[1].len / d.blockSize;
      if Be32(header, 0) == 0 && d.Readable(sector, count) then
        Store(Store(m, buffers[1].addr, d.Read(sector, count)), buffers[2].addr, [0])
      else m
    else m
  }

  function ReadChain(header: u64, addr: u64, len: u32, status: u64): seq<Cmd>
  {
    [Cmd(header, HEADER_SIZE, F_NEXT), Cmd(addr, len, F_WRITE + F_NEXT), Cmd(status, 1, F_WRITE)]
  }

  /** Flag 1 says that another buffer follows, flag 2 that the device writes the buffer. */
  function ReadBuffers(header: u64, addr: u64, len: u32, status: u64): seq<Buffer>
  {
    [Buffer(header, 16, 1), Buffer(addr, len, 3), Buffer(status, 1, 2)]
  }

  lemma ChainBuffers(header: u64, addr: u64, len: u32, status: u64)
    ensures IsChain(ReadChain(header, addr, len, status))
    ensures Buffers(ReadChain(header, addr, len, status)) == ReadBuffers(header, addr, len, status)
  {
    var cmds := ReadChain(header, addr, len, status);
    assert cmds[1..] == [cmds[1], cmds[2]] && cmds[1..][1..] == [cmds[2]] && [cmds[2]][1..] == [];
    assert Buffers([cmds[2]]) == [BufferOf(cmds[2])];
    assert Buffers(cmds[1..]) == [BufferOf(cmds[1])] + Buffers([cmds[2]]);
  }

  lemma LengthInSectors(bs: nat, k: nat, n: nat)
    requires bs > 0
    ensures bs * k * n / bs == n * k
  {
    assert bs * k * n == bs * (n * k) + 0;
    DivMod(bs, n * k, 0);
  }

  /** A device that serves the three buffers does the whole read, from the sector in the header. */
  lemma ServeReads(d: Disk, k: nat, sector: nat, secNum: nat, header: u64, addr: u64, len: u32, status: u64, m: Memory)
    requires d.blockSize > 0 && len == d.blockSize * k * secNum && sector * k < TWO64
    requires d.Readable(sector * k, secNum * k)
    ensures var m' := Store(m, header, Header(sector * k));
            Serve(d, ReadBuffers(header, addr, len, status), m')
            == Store(BlkReadMany(d, k, sector, addr, secNum, m'), status, [0])
  {
    LengthInSectors(d.blockSize, k, secNum);
    LoadStored(m, header, Header(sector * k));
    HeaderBack(sector * k);
  }

  /** The three calls of vring_send_buf make one chain, which takes slot and descriptors from 0 on. */
  method SendRead(r: V.VRing, header: u64, addr: u64, len: u32, status: u64)
    requires r.Valid() && r.nextIdx == 0 && r.num >= 3
    modifies r`availIdx, r`nextIdx, r.desc, r.availRing
    ensures r.Valid() && r.availIdx == (old(r.availIdx) + 1) % TWO16
    ensures Follow(r.desc[..], 0, r.num) == ReadBuffers(header, addr, len, status)
  {
    ChainBuffers(header, addr, len, status);
    r.SendLoop(ReadChain(header, addr, len, status));
    FollowLaidOut(r.desc[..], 0, ReadChain(header, addr, len, status), r.num);
  }

  /** The whole request. The caller counts in blocks of `k` device sectors. */
  method BlkRead(r: V.VRing, d: Disk, k: nat, sector: nat, addr: u64, secNum: nat, header: u64, status: u64, m: Memory)
    returns (m': Memory)
    requires r.Valid() && r.nextIdx == 0 && r.num >= 3 && d.blockSize > 0
    requires d.Readable(sector * k, secNum * k) && d.blockSize * k * secNum < TWO32 && sector * k < TWO64
    modifies r`availIdx, r`nextIdx, r.desc, r.availRing
    ensures m' == Store(BlkReadMany(d, k, sector, addr, secNum, Store(m, header, Header(sector * k))), status, [0])
  {
    m' := Store(m, header, Header(sector * k));
    SendRead(r, header, addr, d.blockSize * k * secNum, status);
    ServeReads(d, k, sector, secNum, header, addr, d.blockSize * k * secNum, status, m);
    m' := Serve(d, Follow(r.desc[..], 0, r.num), m');
  }
}
