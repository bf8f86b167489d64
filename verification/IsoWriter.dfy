/**
 * Directories as they are written to an ISO 9660 volume (sections 6.8.1, 7.3.3, 8.4.18 and 9.1 of ECMA-119),
 * independent of how the loader reads them.
 */
module IsoWriter {
  import opened Common
  import opened IsoWalk

  // ---------------------------------------------------------------------------------------------
  // Records as bytes

  /** Recorded twice: least significant byte first, then most significant byte first. */
  function BothBytes(x: u32): (r: seq<u8>)
    ensures |r| == 8
  {
    var be := ToBe32(x);
    [be[3], be[2], be[1], be[0]] + be
  }

  /** What a record says beside extent, length and kind. */
  datatype Meta = Meta(attributes: u8, date: seq<u8>, hidden: bool, associated: bool, structured: bool, guarded: bool,
                       partial: bool, unit: u8, gap: u8, volume: u16, name: seq<u8>)

  predicate Sound(m: Meta)
  {
    |m.date| == 7 && 1 <= |m.name| <= 221
  }

  /** Bit 0 is hidden, bit 1 a directory, bit 2 an associated file, bits 3, 4 and 7 the record format and extents. */
  function FlagByte(m: Meta, directory: bool): u8
  {
    (if m.hidden then 0x01 else 0) + (if directory then 0x02 else 0) + (if m.associated then 0x04 else 0)
    + (if m.structured then 0x08 else 0) + (if m.guarded then 0x10 else 0) + (if m.partial then 0x80 else 0)
  }

  /** A record has an even length: a name of even length is padded. */
  function Length(m: Meta): nat
  {
    33 + |m.name| + if |m.name| % 2 == 0 then 1 else 0
  }

  function RecordBytes(m: Meta, directory: bool, extent: u32, size: u32): (r: seq<u8>)
    requires Sound(m)
    ensures |r| == Length(m)
  {
    [Length(m), m.attributes] + BothBytes(extent) + BothBytes(size) + m.date + [FlagByte(m, directory)]
    + [m.unit, m.gap] + [m.volume % 0x100, m.volume / 0x100, m.volume / 0x100, m.volume % 0x100] + [|m.name|]
    + m.name + if |m.name| % 2 == 0 then [0] else []
  }

  // ---------------------------------------------------------------------------------------------
  // Directories as sectors

  /** What a directory lists, with the places where the writer goes on to the next sector. */
  datatype Items =
    | Done
    | Break(rest: Items)
    | FileItem(meta: Meta, extent: u32, size: u32, rest: Items)
    | FolderItem(meta: Meta, folder: Folder, rest: Items)

  /** `up` and `upSize` are what the second record says of the parent. */
  datatype Folder = Folder(extent: u32, self: Meta, parent: Meta, up: u32, upSize: u32, items: Items)

  /** The records fit: none crosses the end of a sector. `used` bytes of the current sector are taken. */
  predicate Fits(items: Items, used: nat)
  {
    match items
    case Done => used <= 2048
    case Break(rest) => used <= 2048 && Fits(rest, 0)
    case FileItem(meta, _, _, rest) => Sound(meta) && Fits(rest, used + Length(meta))
    case FolderItem(meta, folder, rest) => Sound(meta) && FolderFits(folder) && Fits(rest, used + Length(meta))
  }

  predicate FolderFits(f: Folder)
  {
    && Sound(f.self) && Sound(f.parent) && Fits(f.items, Length(f.self) + Length(f.parent))
    && 2048 * Count(f.items) < TWO32
  }

  /** How many sectors the items take. */
  function Count(items: Items): nat
  {
    match items
    case Done => 1
    case Break(rest) => 1 + Count(rest)
    case FileItem(_, _, _, rest) => Count(rest)
    case FolderItem(_, _, rest) => Count(rest)
  }

  /** The length of a directory: whole sectors. */
  function Size(f: Folder): nat
  {
    2048 * Count(f.items)
  }

  lemma {:induction false} FitsUsed(items: Items, used: nat)
    requires Fits(items, used)
    ensures used <= 2048
    decreases items
  {
    match items
    case Done =>
    case Break(_) =>
    case FileItem(meta, _, _, rest) => FitsUsed(rest, used + Length(meta));
    case FolderItem(meta, _, rest) => FitsUsed(rest, used + Length(meta));
  }

  /** The rest of a sector is zero. */
  function ZeroFilled(cur: seq<u8>): (r: Sector)
    requires |cur| <= 2048
  {
    cur + seq(2048 - |cur|, _ => 0)
  }

  /** The sectors of the items, where `cur` is already in the first. */
  function Sectors(items: Items, cur: seq<u8>): (r: seq<Sector>)
    requires Fits(items, |cur|)
    ensures |r| == Count(items)
  {
    match items
    case Done => [ZeroFilled(cur)]
    case Break(rest) => [ZeroFilled(cur)] + Sectors(rest, [])
    case FileItem(meta, extent, size, rest) => Sectors(rest, cur + RecordBytes(meta, false, extent, size))
    case FolderItem(meta, folder, rest) =>
      assert FolderFits(folder);
      Sectors(rest, cur + RecordBytes(meta, true, folder.extent, Size(folder)))
  }

  /** A directory starts with a record of itself and one of its parent. */
  function HeadBytes(f: Folder): seq<u8>
    requires FolderFits(f)
  {
    RecordBytes(f.self, true, f.extent, Size(f)) + RecordBytes(f.parent, true, f.up, f.upSize)
  }

  function FolderSectors(f: Folder): seq<Sector>
    requires FolderFits(f)
  {
    Sectors(f.items, HeadBytes(f))
  }

  predicate At(vol: Volume, loc: nat, sectors: seq<Sector>)
  {
    loc + |sectors| <= |vol| && vol[loc..loc + |sectors|] == sectors
  }

  /** The directory and all below it are on the volume. */
  predicate FolderWritten(vol: Volume, f: Folder)
    requires FolderFits(f)
    decreases f, 1
  {
    At(vol, f.extent, FolderSectors(f)) && BelowWritten(vol, f.items, |HeadBytes(f)|)
  }

  predicate BelowWritten(vol: Volume, items: Items, used: nat)
    requires Fits(items, used)
    decreases items, 0
  {
    match items
    case Done => true
    case Break(rest) => BelowWritten(vol, rest, 0)
    case FileItem(meta, _, _, rest) => BelowWritten(vol, rest, used + Length(meta))
    case FolderItem(meta, folder, rest) => FolderWritten(vol, folder) && BelowWritten(vol, rest, used + Length(meta))
  }

  /** Sector 16 is the primary volume descriptor, with a record of the root directory at byte 156. */
  predicate VolumeWritten(vol: Volume, root: Folder, meta: Meta)
  {
    && 16 < |vol| <= TWO32 && FolderFits(root) && Sound(meta) && |meta.name| == 1
    && vol[16][156..190] == RecordBytes(meta, true, root.extent, Size(root)) && FolderWritten(vol, root)
  }

  // ---------------------------------------------------------------------------------------------
  // What a search should find

  /** Extents and sizes in depth-first preorder; directories more than seven below the root are not opened. */
  function Listing(items: Items, depth: nat): seq<(nat, nat)>
  {
    match items
    case Done => []
    case Break(rest) => Listing(rest, depth)
    case FileItem(_, extent, size, rest) => [(extent, size)] + Listing(rest, depth)
    case FolderItem(_, folder, rest) =>
      [(folder.extent, Size(folder))] + (if depth < 7 then Listing(folder.items, depth + 1) else [])
      + Listing(rest, depth)
  }

  /** `size` is the size of the first entry of the list with this extent, or 0 if there is none. */
  ghost predicate FirstListed(list: seq<(nat, nat)>, extent: nat, size: nat)
  {
    || (size == 0 && forall k | 0 <= k < |list| :: list[k].0 != extent)
    || exists k :: 0 <= k < |list| && list[k] == (extent, size) && forall j | 0 <= j < k :: list[j].0 != extent
  }

  // ---------------------------------------------------------------------------------------------
  // Reading it back

  function RecordOf(m: Meta, directory: bool, extent: u32, size: u32): Record
    requires Sound(m)
  {
    Record(Length(m), extent, size, FlagByte(m, directory))
  }

  lemma KindBack(m: Meta, directory: bool, extent: u32, size: u32)
    requires Sound(m)
    ensures RecordOf(m, directory, extent, size).IsDir() == directory
  {
  }

  lemma BothBack(x: u32, s: seq<u8>, o: nat)
    requires o + 8 <= |s| && s[o..o + 8] == BothBytes(x)
    ensures Both733(s, o) == x
  {
    assert s[o + 4..o + 8] == s[o..o + 8][4..];
    Be32Back(x, s, o + 4);
  }

  lemma RecordBack(s: Sector, o: nat, m: Meta, directory: bool, extent: u32, size: u32)
    requires Sound(m) && o + Length(m) <= 2048 && s[o..o + Length(m)] == RecordBytes(m, directory, extent, size)
    ensures RecordHeldAt(s, o, RecordOf(m, directory, extent, size))
  {
    var t := s[o..o + Length(m)];
    assert t[2..10] == BothBytes(extent) && t[10..18] == BothBytes(size) && t[25] == FlagByte(m, directory);
    SubSlice(s, o, Length(m), 2, 10);
    SubSlice(s, o, Length(m), 10, 18);
    assert s[o] == t[0] && s[o + 25] == t[25];
    BothBack(extent, s, o + 2);
    BothBack(size, s, o + 10);
  }

  /** The tree as the loader sees it: every sector ends in padding, be it of no bytes. */
  function ToBody(items: Items, used: nat): Body
    requires Fits(items, used)
  {
    match items
    case Done => Pad(End)
    case Break(rest) => Pad(ToBody(rest, 0))
    case FileItem(meta, extent, size, rest) =>
      File(RecordOf(meta, false, extent, size), ToBody(rest, used + Length(meta)))
    case FolderItem(meta, folder, rest) =>
      assert FolderFits(folder);
      SubDir(RecordOf(meta, true, folder.extent, Size(folder)), ToDir(folder), ToBody(rest, used + Length(meta)))
  }

  function ToDir(f: Folder): Dir
    requires FolderFits(f)
  {
    Dir(RecordOf(f.self, true, f.extent, Size(f)), RecordOf(f.parent, true, f.up, f.upSize),
        ToBody(f.items, Length(f.self) + Length(f.parent)))
  }

  lemma {:induction false} FirstSector(items: Items, cur: seq<u8>)
    requires Fits(items, |cur|)
    ensures |cur| <= 2048 && Count(items) > 0 && Sectors(items, cur)[0][..|cur|] == cur
    decreases items
  {
    match items
    case Done =>
    case Break(_) =>
    case FileItem(meta, extent, size, rest) =>
      var more := cur + RecordBytes(meta, false, extent, size);
      FirstSector(rest, more);
      assert Sectors(rest, more)[0][..|cur|] == more[..|cur|];
    case FolderItem(meta, folder, rest) =>
      var more := cur + RecordBytes(meta, true, folder.extent, Size(folder));
      FirstSector(rest, more);
      assert Sectors(rest, more)[0][..|cur|] == more[..|cur|];
  }

  lemma FirstThere(vol: Volume, loc: nat, items: Items, cur: seq<u8>)
    requires Fits(items, |cur|) && At(vol, loc, Sectors(items, cur))
    ensures |cur| <= 2048 && loc < |vol| && vol[loc][..|cur|] == cur
  {
    FirstSector(items, cur);
    var sectors := Sectors(items, cur);
    assert vol[loc] == vol[loc..loc + |sectors|][0] == sectors[0];
  }

  /** A record that the writer has put after `cur` is there. */
  lemma RecordThere(s: Sector, cur: seq<u8>, r: seq<u8>, m: Meta, directory: bool, extent: u32, size: u32)
    requires Sound(m) && r == RecordBytes(m, directory, extent, size)
    requires |cur| + |r| <= 2048 && s[..|cur| + |r|] == cur + r
    ensures RecordHeldAt(s, |cur|, RecordOf(m, directory, extent, size))
  {
    var n := |cur|;
    assert s[n..n + |r|] == s[..n + |r|][n..];
    RecordBack(s, n, m, directory, extent, size);
  }

  /** The rest of a sector and, if there is more, the next sectors. */
  lemma SectorThere(vol: Volume, loc: nat, cur: seq<u8>, more: seq<Sector>)
    requires |cur| <= 2048 && At(vol, loc, [ZeroFilled(cur)] + more)
    ensures loc < |vol| && (|cur| < 2048 ==> vol[loc][|cur|] == 0) && At(vol, loc + 1, more)
  {
    var all := [ZeroFilled(cur)] + more;
    assert vol[loc] == vol[loc..loc + |all|][0] == ZeroFilled(cur);
    assert vol[loc + 1..loc + |all|] == vol[loc..loc + |all|][1..] == more;
  }

  /** What is known at a record `r` after `cur`. */
  lemma ItemThere(vol: Volume, loc: u32, rest: Items, cur: seq<u8>, r: seq<u8>,
                  m: Meta, directory: bool, extent: u32, size: u32)
    requires Sound(m) && r == RecordBytes(m, directory, extent, size) && Fits(rest, |cur + r|)
    requires At(vol, loc, Sectors(rest, cur + r))
    ensures var rec := RecordOf(m, directory, extent, size);
            && loc < |vol| && RecordHeldAt(vol[loc], |cur|, rec) && rec.IsDir() == directory
            && |cur + r| <= 2048 && Count(rest) > 0
  {
    FirstThere(vol, loc, rest, cur + r);
    FirstSector(rest, cur + r);
    RecordThere(vol[loc], cur, r, m, directory, extent, size);
    KindBack(m, directory, extent, size);
  }

  lemma HoldsFile(vol: Volume, loc: u32, off: nat, rem: nat, rec: Record, rest: Body, level: nat)
    requires loc < |vol| && RecordHeldAt(vol[loc], off, rec) && !rec.IsDir() && rec.drLen <= rem
    requires Holds(vol, loc, off + rec.drLen, rem - rec.drLen, rest, level)
    ensures Holds(vol, loc, off, rem, File(rec, rest), level)
  {
  }

  lemma HoldsDir(vol: Volume, loc: u32, off: nat, rem: nat, rec: Record, sub: Dir, rest: Body, level: nat)
    requires loc < |vol| && RecordHeldAt(vol[loc], off, rec) && rec.IsDir() && rec.drLen <= rem
    requires Holds(vol, loc, off + rec.drLen, rem - rec.drLen, rest, level)
    requires level < 7 ==> DirHeld(vol, rec.ext, sub, level + 1)
    ensures Holds(vol, loc, off, rem, SubDir(rec, sub, rest), level)
  {
  }

  lemma HoldsPad(vol: Volume, loc: u32, off: nat, rem: nat, rest: Body, level: nat)
    requires loc < |vol| && off <= 2048 && 2048 - off <= rem && (off < 2048 ==> vol[loc][off] == 0)
    requires Holds(vol, NextSector(loc), 0, rem - (2048 - off), rest, level)
    ensures Holds(vol, loc, off, rem, Pad(rest), level)
  {
  }

  /** The items are on the volume from sector `loc` on, where `cur` is already in it, and so is all below them. */
  predicate There(vol: Volume, loc: nat, items: Items, cur: seq<u8>)
  {
    Fits(items, |cur|) && At(vol, loc, Sectors(items, cur)) && BelowWritten(vol, items, |cur|)
  }

  /** The loader finds them there. */
  predicate Found(vol: Volume, loc: u32, items: Items, used: nat, level: nat)
  {
    && Fits(items, used) && used <= 2048 * Count(items)
    && Holds(vol, loc, used, 2048 * Count(items) - used, ToBody(items, used), level)
  }

  lemma DoneFound(vol: Volume, loc: u32, cur: seq<u8>, level: nat)
    requires There(vol, loc, Done, cur)
    ensures Found(vol, loc, Done, |cur|, level)
  {
    assert [ZeroFilled(cur)] + [] == [ZeroFilled(cur)];
    SectorThere(vol, loc, cur, []);
    HoldsPad(vol, loc, |cur|, 2048 - |cur|, End, level);
  }

  lemma BreakThere(vol: Volume, loc: u32, rest: Items, cur: seq<u8>)
    requires |vol| <= TWO32 && There(vol, loc, Break(rest), cur)
    ensures loc < |vol| && (|cur| < 2048 ==> vol[loc][|cur|] == 0)
    ensures There(vol, NextSector(loc), rest, []) && NextSector(loc) == loc + 1
  {
    SectorThere(vol, loc, cur, Sectors(rest, []));
    FirstSector(rest, []);
  }

  lemma BreakFound(vol: Volume, loc: u32, rest: Items, used: nat, level: nat)
    requires Fits(Break(rest), used) && loc < |vol| && (used < 2048 ==> vol[loc][used] == 0)
    requires Found(vol, NextSector(loc), rest, 0, level)
    ensures Found(vol, loc, Break(rest), used, level)
  {
    HoldsPad(vol, loc, used, 2048 * (1 + Count(rest)) - used, ToBody(rest, 0), level);
  }

  lemma FileThere(vol: Volume, loc: u32, m: Meta, extent: u32, size: u32, rest: Items, cur: seq<u8>)
    returns (r: seq<u8>)
    requires There(vol, loc, FileItem(m, extent, size, rest), cur)
    ensures There(vol, loc, rest, cur + r) && |r| == Length(m) && Sound(m)
    ensures loc < |vol| && RecordHeldAt(vol[loc], |cur|, RecordOf(m, false, extent, size))
  {
    r := RecordBytes(m, false, extent, size);
    ItemThere(vol, loc, rest, cur, r, m, false, extent, size);
  }

  lemma FolderThere(vol: Volume, loc: u32, m: Meta, f: Folder, rest: Items, cur: seq<u8>) returns (r: seq<u8>)
    requires There(vol, loc, FolderItem(m, f, rest), cur)
    ensures There(vol, loc, rest, cur + r) && |r| == Length(m) && Sound(m) && FolderFits(f) && FolderWritten(vol, f)
    ensures loc < |vol| && RecordHeldAt(vol[loc], |cur|, RecordOf(m, true, f.extent, Size(f)))
  {
    assert FolderFits(f);
    r := RecordBytes(m, true, f.extent, Size(f));
    ItemThere(vol, loc, rest, cur, r, m, true, f.extent, Size(f));
  }

  lemma FileFound(vol: Volume, loc: u32, m: Meta, extent: u32, size: u32, rest: Items, used: nat, level: nat)
    requires Fits(FileItem(m, extent, size, rest), used) && loc < |vol|
    requires RecordHeldAt(vol[loc], used, RecordOf(m, false, extent, size))
    requires Found(vol, loc, rest, used + Length(m), level)
    ensures Found(vol, loc, FileItem(m, extent, size, rest), used, level)
  {
    KindBack(m, false, extent, size);
    HoldsFile(vol, loc, used, 2048 * Count(rest) - used, RecordOf(m, false, extent, size),
              ToBody(rest, used + Length(m)), level);
  }

  /** What is known of a directory's record, of the directory and of the items after it. */
  predicate FolderKnown(vol: Volume, loc: u32, items: Items, used: nat, level: nat)
    requires items.FolderItem?
  {
    && FolderFits(items.folder) && Fits(items, used) && loc < |vol|
    && RecordHeldAt(vol[loc], used, RecordOf(items.meta, true, items.folder.extent, Size(items.folder)))
    && Found(vol, loc, items.rest, used + Length(items.meta), level)
    && DirHeld(vol, items.folder.extent, ToDir(items.folder), level + 1)
  }

  lemma FolderFound(vol: Volume, loc: u32, items: Items, used: nat, level: nat)
    requires items.FolderItem? && FolderKnown(vol, loc, items, used, level)
    ensures Found(vol, loc, items, used, level)
  {
    var m, f, rest := items.meta, items.folder, items.rest;
    KindBack(m, true, f.extent, Size(f));
    HoldsDir(vol, loc, used, 2048 * Count(rest) - used, RecordOf(m, true, f.extent, Size(f)), ToDir(f),
             ToBody(rest, used + Length(m)), level);
  }

  lemma {:induction false} ItemsHeld(vol: Volume, loc: u32, items: Items, cur: seq<u8>, level: nat)
    requires |vol| <= TWO32 && There(vol, loc, items, cur)
    ensures Found(vol, loc, items, |cur|, level)
    decreases items, 1
  {
    match items
    case Done => DoneFound(vol, loc, cur, level);
    case Break(rest) =>
      BreakThere(vol, loc, rest, cur);
      ItemsHeld(vol, NextSector(loc), rest, [], level);
      BreakFound(vol, loc, rest, |cur|, level);
    case FileItem(_, _, _, _) => FileHeld(vol, loc, items, cur, level);
    case FolderItem(_, _, _) => FolderItemHeld(vol, loc, items, cur, level);
  }

  lemma {:induction false} FileHeld(vol: Volume, loc: u32, items: Items, cur: seq<u8>, level: nat)
    requires |vol| <= TWO32 && items.FileItem? && There(vol, loc, items, cur)
    ensures Found(vol, loc, items, |cur|, level)
    decreases items, 0
  {
    var r := FileThere(vol, loc, items.meta, items.extent, items.size, items.rest, cur);
    ItemsHeld(vol, loc, items.rest, cur + r, level);
    FileFound(vol, loc, items.meta, items.extent, items.size, items.rest, |cur|, level);
  }

  lemma {:induction false} FolderItemHeld(vol: Volume, loc: u32, items: Items, cur: seq<u8>, level: nat)
    requires |vol| <= TWO32 && items.FolderItem? && There(vol, loc, items, cur)
    ensures Found(vol, loc, items, |cur|, level)
    decreases items, 0
  {
    var r := FolderThere(vol, loc, items.meta, items.folder, items.rest, cur);
    ItemsHeld(vol, loc, items.rest, cur + r, level);
    FolderHeld(vol, items.folder, level + 1);
    FolderFound(vol, loc, items, |cur|, level);
  }

  /** A volume so written holds the tree it was written from. */
  lemma {:induction false} FolderHeld(vol: Volume, f: Folder, level: nat)
    requires |vol| <= TWO32 && FolderFits(f) && FolderWritten(vol, f)
    ensures DirHeld(vol, f.extent, ToDir(f), level)
    decreases f, 2
  {
    HeadThere(vol, f);
    assert There(vol, f.extent, f.items, HeadBytes(f));
    ItemsHeld(vol, f.extent, f.items, HeadBytes(f), level);
    DirFound(vol, f, level);
  }

  lemma DirFound(vol: Volume, f: Folder, level: nat)
    requires FolderFits(f) && HeadHeld(vol, f.extent, ToDir(f))
    requires Found(vol, f.extent, f.items, Length(f.self) + Length(f.parent), level)
    ensures DirHeld(vol, f.extent, ToDir(f), level)
  {
  }

  lemma HeadThere(vol: Volume, f: Folder)
    requires FolderFits(f) && At(vol, f.extent, FolderSectors(f))
    ensures HeadHeld(vol, f.extent, ToDir(f))
  {
    var self := RecordBytes(f.self, true, f.extent, Size(f));
    var parent := RecordBytes(f.parent, true, f.up, f.upSize);
    FirstThere(vol, f.extent, f.items, HeadBytes(f));
    FirstSector(f.items, HeadBytes(f));
    assert vol[f.extent][..|self|] == vol[f.extent][..|self + parent|][..|self|];
    assert self == [] + self;
    RecordThere(vol[f.extent], [], self, f.self, true, f.extent, Size(f));
    RecordThere(vol[f.extent], self, parent, f.parent, true, f.up, f.upSize);
  }

  lemma RootBack(vol: Volume, root: Folder, meta: Meta)
    requires VolumeWritten(vol, root, meta)
    ensures RootLocation(vol) == root.extent
  {
    RecordBack(vol[16], 156, meta, true, root.extent, Size(root));
  }

  // ---------------------------------------------------------------------------------------------
  // The search on a volume so written

  /** The loader's preorder is the listing. */
  ghost predicate Same(records: seq<Record>, list: seq<(nat, nat)>)
  {
    |records| == |list| && forall k | 0 <= k < |list| :: (records[k].ext, records[k].dataLen) == list[k]
  }

  lemma {:induction false} PreorderListing(items: Items, used: nat, level: nat)
    requires Fits(items, used)
    ensures Same(Preorder(ToBody(items, used), level), Listing(items, level))
    decreases items
  {
    match items
    case Done => assert Preorder(Pad(End), level) == Preorder(End, level) == [];
    case Break(rest) => PreorderListing(rest, 0, level);
    case FileItem(meta, _, _, rest) => PreorderListing(rest, used + Length(meta), level);
    case FolderItem(meta, folder, rest) =>
      PreorderListing(rest, used + Length(meta), level);
      if level < 7 {
        PreorderListing(folder.items, Length(folder.self) + Length(folder.parent), level + 1);
      }
  }

  lemma FirstSame(records: seq<Record>, list: seq<(nat, nat)>, rba: u32, size: u32)
    requires Same(records, list) && IsFirstMatch(records, rba, size)
    ensures FirstListed(list, rba, size)
  {
    if IsFirst(records, rba, size) {
      var k: nat :| k < |records| && records[k].ext == rba && records[k].dataLen == size && NoMatch(records[..k], rba);
      forall j | 0 <= j < k ensures list[j].0 != rba {
        assert records[..k][j] in records[..k];
      }
    } else {
      forall k | 0 <= k < |list| ensures list[k].0 != rba {
        assert records[k] in records;
      }
    }
  }

  /** On a volume written from `root`, the walk answers for `root`. */
  method SizeOnVolume(vol: Volume, loadRba: u32, ghost root: Folder, ghost meta: Meta) returns (size: u32)
    requires VolumeWritten(vol, root, meta)
    ensures FirstListed(Listing(root.items, 0), loadRba, size)
  {
    RootBack(vol, root, meta);
    FolderHeld(vol, root, 0);
    size := IsoGetFileSize(vol, loadRba, ToDir(root));
    PreorderListing(root.items, Length(root.self) + Length(root.parent), 0);
    FirstSame(Preorder(ToDir(root).body, 0), Listing(root.items, 0), loadRba, size);
  }
}
