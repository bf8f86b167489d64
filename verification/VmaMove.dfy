/**
 * Moving an area to a hole (btplus.c, IOCTL_MVE_VMA): a first-fit search for a run of free pages, then a copy page by
 * page. Addresses are page numbers.
 */
module VmaMove {
  import opened Common

  const LAST_PAGE: nat := 0x7_ffff_ffff

  /** The copy loop counts pages in an int. */
  const MAX_PAGES: nat := 0x8000_0000

  type Page = seq<u8>

  /** The mapped pages and their contents. */
  type Pages = map<nat, Page>

  /** `n` pages from `p` on and the one after them are free, and all lie below the limit. */
  ghost predicate Hole(pages: Pages, p: nat, n: nat)
  {
    (p + n) * 4096 <= 0x7fff_ffff_ffff && forall q | p <= q <= p + n :: q !in pages
  }

  ghost predicate NoHole(pages: Pages, lo: nat, hi: nat, n: nat)
  {
    forall p | lo <= p < hi :: !Hole(pages, p, n)
  }

  /** The first hole from `vmEnd` on, or none if there is none: the run counter `j` restarts at every mapped page. */
  method FindHole(pages: Pages, vmEnd: nat, n: nat) returns (hole: Option<nat>)
    ensures hole.Some? ==> vmEnd <= hole.value && Hole(pages, hole.value, n) && NoHole(pages, vmEnd, hole.value, n)
    ensures hole.None? ==> forall p | vmEnd <= p :: !Hole(pages, p, n)
  {
    var j := 0;
    var to := vmEnd;
    while to <= LAST_PAGE
      invariant j <= n && vmEnd + j <= to
      invariant forall q | to - j <= q < to :: q !in pages
      invariant NoHole(pages, vmEnd, to - j, n)
      invariant to <= LAST_PAGE + 1 || to == vmEnd
    {
      if to !in pages {
        j := j + 1;
        if j == n + 1 {
          return Some(to - n);
        }
      } else {
        forall p | to - j <= p <= to ensures !Hole(pages, p, n) {
          assert p <= to <= p + n;
        }
        j := 0;
      }
      to := to + 1;
    }
    return None;
  }

  datatype Move = Move(from: nat, n: nat, dst: nat)

  predicate In(p: nat, n: nat, q: nat) { p <= q < p + n }

  /** A move the driver makes: a mapped range goes to a hole above it. */
  ghost predicate Legal(pages: Pages, m: Move)
  {
    m.from + m.n <= m.dst && (forall q | In(m.from, m.n, q) :: q in pages) && Hole(pages, m.dst, m.n)
  }

  /** Where a page goes. */
  function Target(m: Move, q: nat): nat
  {
    if In(m.from, m.n, q) then q - m.from + m.dst else q
  }

  /** The pages after a move. */
  ghost predicate IsMoved(pages: Pages, m: Move, after: Pages)
  {
    && (forall q | q in pages :: Target(m, q) in after && after[Target(m, q)] == pages[q])
    && (forall q | In(m.from, m.n, q) :: q !in after)
    && (forall r | r in after && !In(m.dst, m.n, r) :: r in pages && after[r] == pages[r])
  }

  // The three parts of a move: map the new range, copy, unmap the old one.

  ghost predicate IsMapped(pages: Pages, p: nat, n: nat, after: Pages)
  {
    && (forall q :: q in after <==> q in pages || In(p, n, q))
    && (forall q | q in pages :: after[q] == pages[q])
  }

  /** The page that is copied to `r`. */
  function Source(m: Move, r: nat): int { r - m.dst + m.from }

  ghost predicate IsCopied(pages: Pages, m: Move, i: nat, after: Pages)
  {
    && after.Keys == pages.Keys
    && (forall r | In(m.dst, i, r) :: r in pages && Source(m, r) in pages && after[r] == pages[Source(m, r)])
    && (forall r | r in pages && !In(m.dst, i, r) :: after[r] == pages[r])
  }

  ghost predicate IsUnmapped(pages: Pages, p: nat, n: nat, after: Pages)
  {
    && (forall q :: q in after <==> q in pages && !In(p, n, q))
    && (forall q | q in after :: after[q] == pages[q])
  }

  lemma PartsMove(pages: Pages, m: Move, mapped: Pages, copied: Pages, after: Pages)
    requires Legal(pages, m)
    requires IsMapped(pages, m.dst, m.n, mapped) && IsCopied(mapped, m, m.n, copied)
             && IsUnmapped(copied, m.from, m.n, after)
    ensures IsMoved(pages, m, after)
  {
    forall q | q in pages ensures Target(m, q) in after && after[Target(m, q)] == pages[q] {
      assert q in mapped && !In(m.dst, m.n, q);
      if In(m.from, m.n, q) {
        var r := Target(m, q);
        assert In(m.dst, m.n, r) && Source(m, r) == q;
      }
    }
  }

  class AddressSpace {
    var pages: Pages

    /** vm_mmap of a free range: new pages of zeros. */
    method Map(p: nat, n: nat)
      requires forall q | In(p, n, q) :: q !in pages
      modifies this
      ensures IsMapped(old(pages), p, n, pages)
    {
      var zero: Page := seq(4096, _ => 0);
      for i := 0 to n
        invariant IsMapped(old(pages), p, i, pages)
      {
        assert In(p, n, p + i);
        pages := pages[p + i := zero];
      }
    }

    method Unmap(p: nat, n: nat)
      modifies this
      ensures IsUnmapped(old(pages), p, n, pages)
    {
      pages := map q | q in pages && !In(p, n, q) :: pages[q];
    }

    method Copy(m: Move)
      requires m.from + m.n <= m.dst
      requires (forall q | In(m.from, m.n, q) :: q in pages) && (forall q | In(m.dst, m.n, q) :: q in pages)
      modifies this
      ensures IsCopied(old(pages), m, m.n, pages)
    {
      for i := 0 to m.n
        invariant IsCopied(old(pages), m, i, pages)
      {
        assert In(m.from, m.n, m.from + i) && In(m.dst, m.n, m.dst + i);
        assert Source(m, m.dst + i) == m.from + i && !In(m.dst, i, m.from + i);
        pages := pages[m.dst + i := pages[m.from + i]];
      }
    }

    method MovePages(m: Move)
      requires Legal(pages, m)
      modifies this
      ensures IsMoved(old(pages), m, pages)
    {
      Map(m.dst, m.n);
      ghost var mapped := pages;
      Copy(m);
      ghost var copied := pages;
      Unmap(m.from, m.n);
      PartsMove(old(pages), m, mapped, copied, pages);
    }

    /** The ioctl. `vmEnd` is the end of the area that `from` lies in. */
    method MoveToHole(from: nat, vmEnd: nat) returns (dst: Option<nat>)
      requires from < vmEnd < from + MAX_PAGES && (from in pages ==> forall q | from <= q < vmEnd :: q in pages)
      modifies this
      ensures var n := vmEnd - from;
              dst.None? <==> from !in old(pages) || forall p | vmEnd <= p :: !Hole(old(pages), p, n)
      ensures dst.None? ==> pages == old(pages)
      ensures dst.Some? ==> vmEnd <= dst.value && NoHole(old(pages), vmEnd, dst.value, vmEnd - from)
      ensures dst.Some? ==> Legal(old(pages), Move(from, vmEnd - from, dst.value))
      ensures dst.Some? ==> IsMoved(old(pages), Move(from, vmEnd - from, dst.value), pages)
    {
      if from !in pages {
        return None;
      }
      dst := FindHole(pages, vmEnd, vmEnd - from);
      if dst.Some? {
        MovePages(Move(from, vmEnd - from, dst.value));
      }
    }
  }

  // ---------------------------------------------------------------------------------------------
  // Any number of moves

  /** `states` are the pages before, between and after the moves. */
  ghost predicate Moves(states: seq<Pages>, moves: seq<Move>)
  {
    && |states| == |moves| + 1
    && forall i | 0 <= i < |moves| :: Legal(states[i], moves[i]) && IsMoved(states[i], moves[i], states[i + 1])
  }

  /** Where a page is after the moves. */
  function Where(moves: seq<Move>, q: nat): nat
    decreases |moves|
  {
    if moves == [] then q else Target(moves[|moves| - 1], Where(moves[..|moves| - 1], q))
  }

  /** One move takes no two pages to one place. */
  lemma OneMoveApart(pages: Pages, m: Move, q: nat, q': nat)
    requires Legal(pages, m) && q in pages && q' in pages && q != q'
    ensures Target(m, q) != Target(m, q')
  {
  }

  /** One move leaves no page that was not there. */
  lemma OneMoveOnly(pages: Pages, m: Move, after: Pages, r: nat) returns (q: nat)
    requires Legal(pages, m) && IsMoved(pages, m, after) && r in after
    ensures q in pages && Target(m, q) == r
  {
    q := if In(m.dst, m.n, r) then Source(m, r) else r;
  }

  /** The moves but the last. */
  lemma MovesInit(states: seq<Pages>, moves: seq<Move>)
    requires Moves(states, moves) && moves != []
    ensures Moves(states[..|moves|], moves[..|moves| - 1])
  {
  }

  lemma {:induction false} PagesKept(states: seq<Pages>, moves: seq<Move>, q: nat)
    requires Moves(states, moves) && q in states[0]
    ensures Where(moves, q) in states[|moves|] && states[|moves|][Where(moves, q)] == states[0][q]
    decreases |moves|
  {
    if moves != [] {
      var k := |moves| - 1;
      MovesInit(states, moves);
      PagesKept(states[..|moves|], moves[..k], q);
      assert IsMoved(states[k], moves[k], states[k + 1]);
    }
  }

  lemma {:induction false} PagesApart(states: seq<Pages>, moves: seq<Move>, q: nat, q': nat)
    requires Moves(states, moves) && q in states[0] && q' in states[0] && q != q'
    ensures Where(moves, q) != Where(moves, q')
    decreases |moves|
  {
    if moves != [] {
      var k := |moves| - 1;
      var states', moves' := states[..|moves|], moves[..k];
      MovesInit(states, moves);
      PagesApart(states', moves', q, q');
      PagesKept(states', moves', q);
      PagesKept(states', moves', q');
      OneMoveApart(states[k], moves[k], Where(moves', q), Where(moves', q'));
    }
  }

  lemma {:induction false} PagesOnly(states: seq<Pages>, moves: seq<Move>, r: nat) returns (q: nat)
    requires Moves(states, moves) && r in states[|moves|]
    ensures q in states[0] && Where(moves, q) == r
    decreases |moves|
  {
    if moves == [] {
      q := r;
    } else {
      var k := |moves| - 1;
      MovesInit(states, moves);
      var p := OneMoveOnly(states[k], moves[k], states[k + 1], r);
      q := PagesOnly(states[..|moves|], moves[..k], p);
    }
  }

  /**
   * After any sequence of moves every page is where the moves took it, with its contents; no two pages meet, and there
   * are no others.
   */
  lemma PagesPreserved(states: seq<Pages>, moves: seq<Move>)
    requires Moves(states, moves)
    ensures var first, last := states[0], states[|moves|];
            && (forall q | q in first :: Where(moves, q) in last && last[Where(moves, q)] == first[q])
            && (forall q, q' | q in first && q' in first && q != q' :: Where(moves, q) != Where(moves, q'))
            && (forall r | r in last :: exists q :: q in first && Where(moves, q) == r)
  {
    var first, last := states[0], states[|moves|];
    forall q | q in first ensures Where(moves, q) in last && last[Where(moves, q)] == first[q] {
      PagesKept(states, moves, q);
    }
    forall q, q' | q in first && q' in first && q != q' ensures Where(moves, q) != Where(moves, q') {
      PagesApart(states, moves, q, q');
    }
    forall r | r in last ensures exists q :: q in first && Where(moves, q) == r {
      var q := PagesOnly(states, moves, r);
    }
  }

  /** A page that no move names stays where it is. */
  lemma {:induction false} OthersStay(moves: seq<Move>, q: nat)
    requires forall m | m in moves :: !In(m.from, m.n, q)
    ensures Where(moves, q) == q
    decreases |moves|
  {
    if moves != [] {
      assert moves[|moves| - 1] in moves;
      OthersStay(moves[..|moves| - 1], q);
    }
  }
}
