/** A block device as the boot loader sees it: numbered blocks of one size, read in contiguous runs. */
module Disk {
  import opened Common

  datatype Disk = Disk(blockSize: nat, blocks: seq<seq<u8>>)
  {
    ghost predicate Valid()
    {
      blockSize > 0 && forall b | b in blocks :: |b| == blockSize
    }

    predicate Readable(start: nat, count: nat)
    {
      start + count <= |blocks|
    }

    /** The bytes of `count` blocks from `start`. */
    function Read(start: nat, count: nat): seq<u8>
      requires Readable(start, count)
      decreases count
    {
      if count == 0 then [] else blocks[start] + Read(start + 1, count - 1)
    }
  }

  lemma {:induction false} ReadLength(d: Disk, start: nat, count: nat)
    requires d.Valid() && d.Readable(start, count)
    ensures |d.Read(start, count)| == count * d.blockSize
    decreases count
  {
    if count > 0 {
      ReadLength(d, start + 1, count - 1);
      assert d.blocks[start] in d.blocks;
      assert (count - 1) * d.blockSize + d.blockSize == count * d.blockSize;
    }
  }

  /** Two adjacent reads are one read. */
  lemma {:induction false} ReadAppend(d: Disk, start: nat, m: nat, n: nat)
    requires d.Readable(start, m + n)
    ensures d.Read(start, m) + d.Read(start + m, n) == d.Read(start, m + n)
    decreases m
  {
    if m == 0 {
      assert d.Read(start, m) + d.Read(start + m, n) == d.Read(start + m, n);
    } else {
      ReadAppend(d, start + 1, m - 1, n);
      calc {
        d.Read(start, m) + d.Read(start + m, n);
        (d.blocks[start] + d.Read(start + 1, m - 1)) + d.Read(start + m, n);
        d.blocks[start] + (d.Read(start + 1, m - 1) + d.Read(start + m, n));
        d.Read(start, m + n);
      }
    }
  }

  datatype Extent = Extent(start: nat, count: nat)

  ghost predicate AllReadable(d: Disk, es: seq<Extent>)
  {
    forall e | e in es :: d.Readable(e.start, e.count)
  }

  /** The extents' contents, in order and back to back. */
  function Image(d: Disk, es: seq<Extent>): seq<u8>
    requires AllReadable(d, es)
  {
    if es == [] then [] else Image(d, es[..|es| - 1]) + d.Read(es[|es| - 1].start, es[|es| - 1].count)
  }

  lemma {:induction false} ImageAppend(d: Disk, xs: seq<Extent>, ys: seq<Extent>)
    requires AllReadable(d, xs) && AllReadable(d, ys)
    ensures AllReadable(d, xs + ys) && Image(d, xs + ys) == Image(d, xs) + Image(d, ys)
  {
    if ys == [] {
      assert xs + ys == xs;
    } else {
      var n := |ys| - 1;
      ImageAppend(d, xs, ys[..n]);
      assert (xs + ys)[..|xs + ys| - 1] == xs + ys[..n];
    }
  }
}
