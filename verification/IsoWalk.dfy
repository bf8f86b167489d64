/**
 * The El Torito loader's search of an ISO 9660 volume (bootmap.c, iso_get_file_size): an iterative
 * directory walk with three hand-kept stacks, proved to find the first record in depth-first preorder.
 * Directory records follow section 9.1 of ECMA-119.
 */
module IsoWalk {
  import opened Common

  const SECTOR_SIZE: int := 2048
  const MAX_DIR_DEPTH: int := 8
  const PRIMARY_VD_SECTOR: u32 := 16
  const ROOT_RECORD_OFFSET: nat := 156
  const HEADER_SIZE: int := 33

  type Sector = s: seq<u8> | |s| == 2048 witness seq(2048, _ => 0)

  /** The readable sectors of the medium. */
  type Volume = seq<Sector>

  datatype Record = Record(drLen: u8, ext: u32, dataLen: u32, flags: u8)
  {
    predicate IsDir() { (flags / 2) % 2 == 1 }
  }

  /** A both-endian number (section 7.3.3 of ECMA-119) read on a big-endian machine: its second half. */
  function Both733(s: seq<u8>, o: nat): u32
    requires o + 8 <= |s|
  {
    Be32(s, o + 4)
  }

  function RecordAt(s: seq<u8>, o: nat): Record
    requires o + HEADER_SIZE <= |s|
  {
    Record(s[o], Both733(s, o + 2), Both733(s, o + 10), s[o + 25])
  }

  function NextSector(loc: u32): u32
  {
    (loc + 1) % TWO32
  }

  // ---------------------------------------------------------------------------------------------
  // Directory trees and how a volume holds them

  /** What follows the self and parent records of a directory; `Pad` ends a sector. */
  datatype Body =
    | End
    | Pad(rest: Body)
    | File(rec: Record, rest: Body)
    | SubDir(rec: Record, sub: Dir, rest: Body)

  datatype Dir = Dir(self: Record, parent: Record, body: Body)

  predicate RecordHeldAt(s: Sector, o: nat, rec: Record)
  {
    && HEADER_SIZE <= rec.drLen
    && o + rec.drLen <= SECTOR_SIZE
    && RecordAt(s, o) == rec
  }

  /**
   * From offset `off` of sector `loc`, with `rem` bytes of the directory left, the volume holds `b`.
   * Records do not cross sectors, and a sector's unused tail starts with a zero byte. Directories
   * below the depth limit are left unconstrained, so cyclic volumes are covered too.
   */
  predicate Holds(vol: Volume, loc: u32, off: nat, rem: nat, b: Body, level: nat)
    decreases b
  {
    match b
    case End => off == 0 && rem == 0
    case Pad(rest) =>
      && loc < |vol| && off <= SECTOR_SIZE && SECTOR_SIZE - off <= rem
      && (off < SECTOR_SIZE ==> vol[loc][off] == 0)
      && Holds(vol, NextSector(loc), 0, rem - (SECTOR_SIZE - off), rest, level)
    case File(rec, rest) =>
      && loc < |vol| && RecordHeldAt(vol[loc], off, rec) && !rec.IsDir() && rec.drLen <= rem
      && Holds(vol, loc, off + rec.drLen, rem - rec.drLen, rest, level)
    case SubDir(rec, sub, rest) =>
      && loc < |vol| && RecordHeldAt(vol[loc], off, rec) && rec.IsDir() && rec.drLen <= rem
      && (level < MAX_DIR_DEPTH - 1 ==>
            && HeadHeld(vol, rec.ext, sub)
            && Holds(vol, rec.ext, sub.self.drLen + sub.parent.drLen,
                     sub.self.dataLen - sub.self.drLen - sub.parent.drLen, sub.body, level + 1))
      && Holds(vol, loc, off + rec.drLen, rem - rec.drLen, rest, level)
  }

  /** The first sector of a directory starts with its self and parent records. */
  predicate HeadHeld(vol: Volume, loc: u32, d: Dir)
  {
    && loc < |vol| && RecordHeldAt(vol[loc], 0, d.self)
    && RecordHeldAt(vol[loc], d.self.drLen, d.parent)
    && d.self.drLen + d.parent.drLen <= d.self.dataLen
  }

  predicate DirHeld(vol: Volume, loc: u32, d: Dir, level: nat)
  {
    && HeadHeld(vol, loc, d)
    && Holds(vol, loc, d.self.drLen + d.parent.drLen,
             d.self.dataLen - d.self.drLen - d.parent.drLen, d.body, level)
  }

  function RootLocation(vol: Volume): u32
    requires PRIMARY_VD_SECTOR < |vol|
  {
    Both733(vol[PRIMARY_VD_SECTOR], ROOT_RECORD_OFFSET + 2)
  }

  // ---------------------------------------------------------------------------------------------
  // Specification: the records in depth-first preorder, and the first that matches

  function Preorder(b: Body, level: nat): seq<Record>
  {
    match b
    case End => []
    case Pad(rest) => Preorder(rest, level)
    case File(rec, rest) => [rec] + Preorder(rest, level)
    case SubDir(rec, sub, rest) =>
      [rec] + (if level < MAX_DIR_DEPTH - 1 then Preorder(sub.body, level + 1) else []) + Preorder(rest, level)
  }

  ghost predicate NoMatch(s: seq<Record>, rba: u32)
  {
    forall r | r in s :: r.ext != rba
  }

  /** `size` is the data length of the first record of `s` with extent `rba`. */
  ghost predicate IsFirst(s: seq<Record>, rba: u32, size: u32)
  {
    exists k: nat :: k < |s| && s[k].ext == rba && s[k].dataLen == size && NoMatch(s[..k], rba)
  }

  /** As `IsFirst`, or 0 if no record matches. */
  ghost predicate IsFirstMatch(s: seq<Record>, rba: u32, size: u32)
  {
    IsFirst(s, rba, size) || (size == 0 && NoMatch(s, rba))
  }

  // ---------------------------------------------------------------------------------------------
  // Ghost state of the walk: for each open directory, the part not yet visited

  /** What a recursive walk of `b` would find. */
  ghost function Search(b: Body, level: nat, rba: u32): Option<u32>
  {
    match b
    case End => None
    case Pad(rest) => Search(rest, level, rba)
    case File(rec, rest) => if rec.ext == rba then Some(rec.dataLen) else Search(rest, level, rba)
    case SubDir(rec, sub, rest) =>
      if rec.ext == rba then Some(rec.dataLen)
      else if level < MAX_DIR_DEPTH - 1 then OrElse(Search(sub.body, level + 1, rba), Search(rest, level, rba))
      else Search(rest, level, rba)
  }

  ghost function OrElse(x: Option<u32>, y: Option<u32>): Option<u32>
  {
    if x.Some? then x else y
  }

  ghost function Work(b: Body, level: nat): nat
  {
    match b
    case End => 0
    case Pad(rest) => 1 + Work(rest, level)
    case File(_, rest) => 1 + Work(rest, level)
    case SubDir(_, sub, rest) =>
      1 + (if level < MAX_DIR_DEPTH - 1 then 2 + Work(sub.body, level + 1) else 0) + Work(rest, level)
  }

  /** What the suspended directories still hold, the innermost first. */
  ghost function StackSearch(below: seq<Body>, rba: u32): Option<u32>
  {
    if below == [] then None
    else var n := |below| - 1; OrElse(Search(below[n], n, rba), StackSearch(below[..n], rba))
  }

  ghost function StackWork(below: seq<Body>): nat
  {
    if below == [] then 0
    else var n := |below| - 1; 1 + Work(below[n], n) + StackWork(below[..n])
  }

  lemma PushPop(below: seq<Body>, b: Body, rba: u32)
    ensures StackSearch(below + [b], rba) == OrElse(Search(b, |below|, rba), StackSearch(below, rba))
    ensures StackWork(below + [b]) == 1 + Work(b, |below|) + StackWork(below)
  {
    assert (below + [b])[..|below|] == below;
  }

  /** A suspended directory: the cursor is past at least one of its records, `b` is left. */
  ghost predicate Waiting(vol: Volume, loc: u32, off: u32, rem: u32, b: Body, level: nat)
  {
    off != 0 && loc < |vol| && Holds(vol, loc, off, rem, b, level)
  }

  /** The current directory: either about to be opened, or `cur` is left of it. */
  ghost predicate Here(vol: Volume, loc: u32, off: u32, rem: u32, temp: Sector, level: nat, cur: Body,
                       opening: Option<Dir>)
  {
    match opening
    case Some(d) => off == 0 && rem == 0 && cur == d.body && DirHeld(vol, loc, d, level)
    case None => Holds(vol, loc, off, rem, cur, level) && (off != 0 ==> loc < |vol| && temp == vol[loc])
  }

  /** Bytes of the self and parent records at the start of a directory. */
  function HeadSize(s: Sector): u32
  {
    var self: u32 := s[0];
    self + s[s[0]]
  }

  /** The first visit of a directory skips its self and parent records. */
  lemma OpenStep(vol: Volume, loc: u32, level: nat, d: Dir)
    requires DirHeld(vol, loc, d, level)
    ensures HeadSize(vol[loc]) <= Both733(vol[loc], 10) && d.body != End
    ensures Here(vol, loc, HeadSize(vol[loc]), Both733(vol[loc], 10) - HeadSize(vol[loc]), vol[loc],
                 level, d.body, None)
  {
  }

  /** Zero padding or the end of the sector. */
  lemma PadStep(vol: Volume, loc: u32, off: u32, rem: u32, temp: Sector, level: nat, cur: Body)
    requires Here(vol, loc, off, rem, temp, level, cur, None) && cur != End
    requires off == SECTOR_SIZE || (off < SECTOR_SIZE && loc < |vol| && temp == vol[loc] && temp[off] == 0)
    ensures cur.Pad? && SECTOR_SIZE - off <= rem
    ensures Here(vol, NextSector(loc), 0, rem - (SECTOR_SIZE - off), temp, level, cur.rest, None)
  {
  }

  /** A record under the cursor: what is known of it and of what follows. */
  lemma RecordStep(vol: Volume, loc: u32, off: u32, rem: u32, temp: Sector, level: nat, cur: Body)
    requires Here(vol, loc, off, rem, temp, level, cur, None) && cur != End
    requires off < SECTOR_SIZE && loc < |vol| && temp == vol[loc] && temp[off] != 0
    ensures (cur.File? || cur.SubDir?) && RecordHeldAt(temp, off, cur.rec) && cur.rec.drLen <= rem
    ensures cur.rec.IsDir() == cur.SubDir?
    ensures Waiting(vol, loc, off + cur.rec.drLen, rem - cur.rec.drLen, cur.rest, level)
    ensures cur.SubDir? && level < MAX_DIR_DEPTH - 1 ==> DirHeld(vol, cur.rec.ext, cur.sub, level + 1)
  {
  }

  /** A directory with no bytes left has no records left. */
  lemma Exhausted(vol: Volume, loc: u32, off: u32, cur: Body, level: nat, rba: u32)
    requires Holds(vol, loc, off, 0, cur, level)
    ensures Search(cur, level, rba) == None
  {
    if cur.Pad? {
      assert Holds(vol, NextSector(loc), 0, 0, cur.rest, level);
      assert cur.rest == End;
      assert Search(cur, level, rba) == Search(End, level, rba) == None;
    }
  }

  /** Ghost view of the walk: the rest of the current directory, how it starts, and the suspended ones. */
  datatype Rest = Rest(cur: Body, opening: Option<Dir>, below: seq<Body>)

  /** What the rest of the walk will find. */
  ghost function Outlook(g: Rest, rba: u32): Option<u32>
  {
    OrElse(Search(g.cur, |g.below|, rba), StackSearch(g.below, rba))
  }

  /** Steps left; it bounds the walk. */
  ghost function StepsLeft(g: Rest): nat
  {
    1 + Work(g.cur, |g.below|) + StackWork(g.below) + if g.opening.Some? then 1 else 0
  }

  /** The three stacks of the walk; slot `i` belongs to the open directory at depth `i`. */
  class Stacks {
    const secLoc: array<u32>      // current sector
    const secOffset: array<u32>   // offset in that sector
    const dirRem: array<u32>      // bytes left of the directory

    constructor (rootLoc: u32)
      ensures fresh(secLoc) && fresh(secOffset) && fresh(dirRem) && Shape()
      ensures secLoc[0] == rootLoc && secOffset[0] == 0 && dirRem[0] == 0
    {
      secLoc, secOffset, dirRem := new u32[8], new u32[8], new u32[8];
      new;
      secLoc[0], dirRem[0], secOffset[0] := rootLoc, 0, 0;
    }

    ghost predicate Shape()
    {
      && secLoc.Length == secOffset.Length == dirRem.Length == MAX_DIR_DEPTH
      && secLoc != secOffset && secLoc != dirRem && secOffset != dirRem
    }

    /** The invariant: every open directory's slot describes what is left of it. */
    ghost predicate Ok(vol: Volume, temp: Sector, level: int, g: Rest)
      reads secLoc, secOffset, dirRem
    {
      && Shape() && 0 <= level < MAX_DIR_DEPTH && |g.below| == level
      && Here(vol, secLoc[level], secOffset[level], dirRem[level], temp, level, g.cur, g.opening)
      && forall i | 0 <= i < level :: Waiting(vol, secLoc[i], secOffset[i], dirRem[i], g.below[i], i)
    }

    /** The first visit of a directory: skip its self and parent records. */
    method SkipSelfAndParent(vol: Volume, temp: Sector, level: int, ghost g: Rest) returns (ghost g': Rest)
      requires Ok(vol, temp, level, g) && g.opening.Some? && temp == vol[secLoc[level]]
      modifies secOffset, dirRem
      ensures Ok(vol, temp, level, g') && g' == g.(opening := None) && g'.cur != End && StepsLeft(g') < StepsLeft(g)
    {
      OpenStep(vol, secLoc[level], level, g.opening.value);
      dirRem[level] := Both733(temp, 10) - temp[0];
      secOffset[level] := temp[0];
      dirRem[level] := dirRem[level] - temp[secOffset[level]];
      secOffset[level] := secOffset[level] + temp[secOffset[level]];
      g' := g.(opening := None);
    }

    /** Zero padding or the end of the sector. */
    method EndSector(vol: Volume, temp: Sector, level: int, ghost rba: u32, ghost g: Rest) returns (ghost g': Rest)
      requires Ok(vol, temp, level, g) && g.opening.None? && g.cur != End
      requires secOffset[level] == SECTOR_SIZE
            || (secOffset[level] < SECTOR_SIZE && secLoc[level] < |vol| && temp == vol[secLoc[level]]
                && temp[secOffset[level]] == 0)
      modifies secLoc, secOffset, dirRem
      ensures Ok(vol, temp, level, g') && g'.opening.None?
      ensures Outlook(g', rba) == Outlook(g, rba) && StepsLeft(g') < StepsLeft(g)
    {
      PadStep(vol, secLoc[level], secOffset[level], dirRem[level], temp, level, g.cur);
      dirRem[level] := dirRem[level] - (SECTOR_SIZE - secOffset[level]);
      secOffset[level] := 0;
      secLoc[level] := NextSector(secLoc[level]);
      g' := g.(cur := g.cur.rest);
    }

    /** A record that does not match and is not entered: step over it. */
    method SkipRecord(vol: Volume, temp: Sector, level: int, rec: Record, ghost g: Rest) returns (ghost g': Rest)
      requires Ok(vol, temp, level, g) && g.opening.None? && g.cur != End
      requires secLoc[level] < |vol| && temp == vol[secLoc[level]]
      requires secOffset[level] < SECTOR_SIZE && temp[secOffset[level]] != 0
      requires (g.cur.File? || g.cur.SubDir?) && rec == g.cur.rec
      modifies secOffset, dirRem
      ensures Ok(vol, temp, level, g') && g' == g.(cur := g.cur.rest)
    {
      RecordStep(vol, secLoc[level], secOffset[level], dirRem[level], temp, level, g.cur);
      dirRem[level] := dirRem[level] - rec.drLen;
      secOffset[level] := secOffset[level] + rec.drLen;
      g' := g.(cur := g.cur.rest);
    }

    /** A directory that does not match, within the depth limit: step over its record and open it. */
    method EnterDirectory(vol: Volume, temp: Sector, level: int, rec: Record, ghost g: Rest) returns (ghost g': Rest)
      requires Ok(vol, temp, level, g) && g.opening.None?
      requires secLoc[level] < |vol| && temp == vol[secLoc[level]]
      requires secOffset[level] < SECTOR_SIZE && temp[secOffset[level]] != 0
      requires g.cur.SubDir? && rec == g.cur.rec && level < MAX_DIR_DEPTH - 1
      modifies secLoc, secOffset, dirRem
      ensures Ok(vol, temp, level + 1, g') && g' == Entered(g)
    {
      RecordStep(vol, secLoc[level], secOffset[level], dirRem[level], temp, level, g.cur);
      dirRem[level] := dirRem[level] - rec.drLen;
      secOffset[level] := secOffset[level] + rec.drLen;
      secLoc[level + 1], secOffset[level + 1], dirRem[level + 1] := rec.ext, 0, 0;
      g' := Entered(g);
    }
  }

  ghost function Entered(g: Rest): Rest
    requires g.cur.SubDir?
  {
    Rest(g.cur.sub.body, Some(g.cur.sub), g.below + [g.cur.rest])
  }

  /** Neither stepping over a record that does not match nor entering it changes what will be found. */
  lemma OutlookKept(g: Rest, rba: u32)
    requires g.opening.None? && (g.cur.File? || g.cur.SubDir?) && g.cur.rec.ext != rba
    ensures g.cur.SubDir? && |g.below| < MAX_DIR_DEPTH - 1 ==>
              Outlook(Entered(g), rba) == Outlook(g, rba) && StepsLeft(Entered(g)) < StepsLeft(g)
    ensures !(g.cur.SubDir? && |g.below| < MAX_DIR_DEPTH - 1) ==>
              var g' := g.(cur := g.cur.rest);
              Outlook(g', rba) == Outlook(g, rba) && StepsLeft(g') < StepsLeft(g)
  {
    PushPop(g.below, g.cur.rest, rba);
  }

  /** Nothing is left of the current directory: what resuming the enclosing one means. */
  lemma ResumeStep(vol: Volume, st: Stacks, temp: Sector, level: int, g: Rest, rba: u32)
    requires st.Ok(vol, temp, level, g) && g.opening.None? && st.dirRem[level] == 0
    ensures level == 0 ==> Outlook(g, rba) == None
    ensures level > 0 ==>
              var g' := Rest(g.below[level - 1], None, g.below[..level - 1]);
              && st.secLoc[level - 1] < |vol| && st.Ok(vol, vol[st.secLoc[level - 1]], level - 1, g') && g'.cur != End
              && Outlook(g', rba) == Outlook(g, rba) && StepsLeft(g') < StepsLeft(g)
  {
    Exhausted(vol, st.secLoc[level], st.secOffset[level], g.cur, level, rba);
    if level > 0 {
      var n := level - 1;
      assert Waiting(vol, st.secLoc[n], st.secOffset[n], st.dirRem[n], g.below[n], n);
    }
  }

  /** One visit to the record or padding under the cursor. */
  method Visit(st: Stacks, vol: Volume, temp: Sector, level: int, loadRba: u32, ghost g: Rest)
    returns (found: Option<u32>, entered: bool, ghost g': Rest)
    requires st.Ok(vol, temp, level, g) && g.opening.None? && g.cur != End
    requires st.secLoc[level] < |vol| && temp == vol[st.secLoc[level]]
    modifies st.secLoc, st.secOffset, st.dirRem
    ensures found.Some? ==> found == Outlook(g, loadRba)
    ensures found.None? ==> st.Ok(vol, temp, if entered then level + 1 else level, g') && entered == g'.opening.Some?
    ensures found.None? ==> Outlook(g', loadRba) == Outlook(g, loadRba) && StepsLeft(g') < StepsLeft(g)
  {
    found, entered, g' := None, false, g;
    var off := st.secOffset[level];
    if off == SECTOR_SIZE || temp[off] == 0 {
      g' := st.EndSector(vol, temp, level, loadRba, g);
    } else {
      RecordStep(vol, st.secLoc[level], off, st.dirRem[level], temp, level, g.cur);
      var rec := RecordAt(temp, off);
      if loadRba == rec.ext {
        found := Some(rec.dataLen);
      } else {
        OutlookKept(g, loadRba);
        if rec.IsDir() && level != MAX_DIR_DEPTH - 1 {
          g' := st.EnterDirectory(vol, temp, level, rec, g);
          entered := true;
        } else {
          g' := st.SkipRecord(vol, temp, level, rec, g);
        }
      }
    }
  }

  /** The current directory may have nothing left: then resume the enclosing one. */
  method Resume(st: Stacks, vol: Volume, temp: Sector, level: int, ghost loadRba: u32, ghost g: Rest)
    returns (temp': Sector, level': int, ghost g': Rest)
    requires st.Ok(vol, temp, level, g) && g.opening.None?
    ensures level' >= 0 ==> st.Ok(vol, temp', level', g') && g'.opening.None? && g'.cur != End
    ensures level' >= 0 ==> StepsLeft(g') <= StepsLeft(g)
    ensures level' >= -1 && Outlook(g, loadRba) == if level' < 0 then None else Outlook(g', loadRba)
  {
    temp', level', g' := temp, level, g;
    if st.dirRem[level] == 0 {
      ResumeStep(vol, st, temp, level, g, loadRba);
      level' := level - 1;
      if level' >= 0 {
        temp' := vol[st.secLoc[level']];
        g' := Rest(g.below[level'], None, g.below[..level']);
      }
    }
  }

  /**
   * The size recorded for the extent `loadRba`: the whole walk, for a volume whose root directory holds `root`.
   */
  method IsoGetFileSize(vol: Volume, loadRba: u32, ghost root: Dir) returns (size: u32)
    requires PRIMARY_VD_SECTOR < |vol| && DirHeld(vol, RootLocation(vol), root, 0)
    ensures IsFirstMatch(Preorder(root.body, 0), loadRba, size)
  {
    var st := new Stacks(RootLocation(vol));
    var temp: Sector := vol[PRIMARY_VD_SECTOR];
    var level := 0;
    ghost var g := Rest(root.body, Some(root), []);
    SearchIsFirst(root.body, 0, loadRba);

    while level >= 0
      invariant -1 <= level
      invariant level >= 0 ==> st.Ok(vol, temp, level, g) && (g.opening.Some? || g.cur != End)
      invariant Search(root.body, 0, loadRba) == if level < 0 then None else Outlook(g, loadRba)
      decreases if level < 0 then 0 else StepsLeft(g)
    {
      if st.secOffset[level] == 0 {
        temp := vol[st.secLoc[level]];
      }
      if st.secOffset[level] == 0 && st.dirRem[level] == 0 {
        g := st.SkipSelfAndParent(vol, temp, level, g);
      } else {
        var found, entered;
        found, entered, g := Visit(st, vol, temp, level, loadRba, g);
        if found.Some? {
          return found.value;
        }
        if entered {
          level := level + 1;
        } else {
          temp, level, g := Resume(st, vol, temp, level, loadRba, g);
        }
      }
    }
    return 0;
  }

  /** The recursive search finds the first match of the preorder. */
  lemma {:induction false} SearchIsFirst(b: Body, level: nat, rba: u32)
    ensures match Search(b, level, rba)
            case None => NoMatch(Preorder(b, level), rba)
            case Some(size) => IsFirst(Preorder(b, level), rba, size)
  {
    match b
    case End =>
    case Pad(rest) => SearchIsFirst(rest, level, rba);
    case File(rec, rest) =>
      SearchIsFirst(rest, level, rba);
      FirstOfAppend([rec], Preorder(rest, level), rba);
      FirstAtHead(rec, rba);
    case SubDir(rec, sub, rest) =>
      SearchIsFirst(rest, level, rba);
      FirstAtHead(rec, rba);
      if level < MAX_DIR_DEPTH - 1 {
        SearchIsFirst(sub.body, level + 1, rba);
        FirstOfAppend([rec], Preorder(sub.body, level + 1), rba);
        FirstOfAppend([rec] + Preorder(sub.body, level + 1), Preorder(rest, level), rba);
      } else {
        FirstOfAppend([rec] + [], Preorder(rest, level), rba);
        assert [rec] + [] == [rec];
      }
  }

  lemma FirstAtHead(rec: Record, rba: u32)
    ensures rec.ext == rba ==> IsFirst([rec], rba, rec.dataLen)
  {
    assert [rec][..0] == [];
    assert NoMatch([rec][..0], rba);
    assert [rec][0] == rec;
  }

  lemma FirstOfAppend(x: seq<Record>, y: seq<Record>, rba: u32)
    ensures forall size :: IsFirst(x, rba, size) ==> IsFirst(x + y, rba, size)
    ensures NoMatch(x, rba) ==> forall size :: IsFirst(y, rba, size) ==> IsFirst(x + y, rba, size)
    ensures NoMatch(x, rba) && NoMatch(y, rba) ==> NoMatch(x + y, rba)
  {
    forall size | IsFirst(x, rba, size) ensures IsFirst(x + y, rba, size) {
      var k: nat :| k < |x| && x[k].ext == rba && x[k].dataLen == size && NoMatch(x[..k], rba);
      assert (x + y)[..k] == x[..k] && (x + y)[k] == x[k];
    }
    if NoMatch(x, rba) {
      forall size | IsFirst(y, rba, size) ensures IsFirst(x + y, rba, size) {
        var k: nat :| k < |y| && y[k].ext == rba && y[k].dataLen == size && NoMatch(y[..k], rba);
        assert (x + y)[..|x| + k] == x + y[..k] && (x + y)[|x| + k] == y[k];
      }
    }
  }
}
