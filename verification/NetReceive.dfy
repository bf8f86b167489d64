/**
 * Receiving packets over a virtqueue (virtio-net.c, virtio_net_init and recv): the driver posts 64 buffers once and
 * recycles them for ever, while the device takes and returns them whenever it likes. The driver's steps and the
 * device's are interleaved arbitrarily.
 */
module NetReceive {
  import opened Common
  import opened Arithmetic

  const BUFFERS: nat := 64
  const HEADER: nat := 10

  /** The rings and buffers both sides see, and the driver's read index. */
  datatype Shared = Shared(
    availRing: seq<nat>, availIdx: u16,
    usedId: seq<nat>, usedLen: seq<nat>, usedIdx: u16,
    lastIdx: u16,
    bufs: seq<seq<u8>>)

  /** Where the driver is in recv. */
  datatype Pc =
    | Idle
    | Got(id: nat, len: nat, maxLen: nat)   // read a used entry
    | Copied(id: nat)                       // copied the packet out
    | Slotted(id: nat)                      // wrote the buffer id to the next available slot
    | Published                             // moved the available index on

  /**
   * The whole state. The counters do not wrap: buffers made available, taken by the device, returned by the
   * device and recycled by the driver. `held` are the buffers the device has; `log` are the packets in the
   * order the device returned them, `asked` the caller's limits and `delivered` what recv has copied out.
   */
  datatype State = State(
    m: Shared, pc: Pc,
    posted: nat, taken: nat, returned: nat, recycled: nat,
    held: multiset<nat>, log: seq<seq<u8>>, asked: seq<nat>, delivered: seq<seq<u8>>)

  /** The packet without its header, cut to the caller's limit. */
  function Received(packet: seq<u8>, maxLen: nat): seq<u8>
    requires |packet| >= HEADER
  {
    if |packet| - HEADER > maxLen then packet[HEADER..HEADER + maxLen] else packet[HEADER..]
  }

  datatype Action =
    | Take                                  // the device takes the next available buffer
    | Return(id: nat, packet: seq<u8>)      // the device returns a buffer it holds, filled
    | Check(maxLen: nat)                    // recv looks at the used ring
    | Copy
    | PutSlot
    | Publish
    | Advance

  predicate SameSize(m: Shared)
  {
    |m.availRing| == |m.usedId| == |m.usedLen| > 0
  }

  // The steps. An action that is not possible now changes nothing.

  /** The device compares its 16-bit count with the available index. */
  function TakeStep(s: State): State
    requires SameSize(s.m)
  {
    if s.taken % TWO16 == s.m.availIdx then s
    else s.(taken := s.taken + 1, held := s.held + multiset{At(s.m.availRing, s.taken)})
  }

  function ReturnStep(s: State, id: nat, packet: seq<u8>): State
    requires SameSize(s.m)
  {
    if id in s.held && id < |s.m.bufs| && |packet| >= HEADER then
      var slot := s.returned % |s.m.usedId|;
      s.(m := s.m.(usedId := s.m.usedId[slot := id], usedLen := s.m.usedLen[slot := |packet|],
                   usedIdx := (s.m.usedIdx + 1) % TWO16, bufs := s.m.bufs[id := packet]),
         returned := s.returned + 1, held := s.held - multiset{id}, log := s.log + [packet])
    else s
  }

  function CheckStep(s: State, maxLen: nat): State
    requires SameSize(s.m)
  {
    if s.pc != Idle || s.m.lastIdx == s.m.usedIdx then s
    else
      var slot := s.m.lastIdx % |s.m.usedId|;
      s.(pc := Got(s.m.usedId[slot] % |s.m.usedId|, s.m.usedLen[slot], maxLen))
  }

  function CopyStep(s: State): State
  {
    if s.pc.Got? && s.pc.id < |s.m.bufs| && HEADER <= s.pc.len <= |s.m.bufs[s.pc.id]| then
      s.(pc := Copied(s.pc.id), asked := s.asked + [s.pc.maxLen],
         delivered := s.delivered + [Received(s.m.bufs[s.pc.id][..s.pc.len], s.pc.maxLen)])
    else s
  }

  function PutSlotStep(s: State): State
    requires SameSize(s.m)
  {
    if s.pc.Copied? then
      s.(pc := Slotted(s.pc.id), m := s.m.(availRing := s.m.availRing[s.m.availIdx % |s.m.availRing| := s.pc.id]))
    else s
  }

  function PublishStep(s: State): State
  {
    if s.pc.Slotted? then
      s.(pc := Published, m := s.m.(availIdx := (s.m.availIdx + 1) % TWO16),
         posted := s.posted + 1, recycled := s.recycled + 1)
    else s
  }

  function AdvanceStep(s: State): State
  {
    if s.pc.Published? then s.(pc := Idle, m := s.m.(lastIdx := (s.m.lastIdx + 1) % TWO16)) else s
  }

  function Step(s: State, a: Action): State
    requires SameSize(s.m)
  {
    match a
    case Take => TakeStep(s)
    case Return(id, packet) => ReturnStep(s, id, packet)
    case Check(maxLen) => CheckStep(s, maxLen)
    case Copy => CopyStep(s)
    case PutSlot => PutSlotStep(s)
    case Publish => PublishStep(s)
    case Advance => AdvanceStep(s)
  }

  // ---------------------------------------------------------------------------------------------
  // The invariant

  /** How often `x` occurs in the ring slots `lo` up to `hi`, counted without wrapping. */
  function Occurs(ring: seq<nat>, lo: nat, hi: nat, x: nat): nat
    requires |ring| > 0
    decreases hi
  {
    if hi <= lo then 0 else Occurs(ring, lo, hi - 1, x) + if At(ring, hi - 1) == x then 1 else 0
  }

  /** The ring entry at a count that does not wrap. */
  function At(ring: seq<nat>, i: nat): nat
    requires |ring| > 0
  {
    ring[i % |ring|]
  }

  /** In how many places buffer `x` is: available, with the device, or returned and not yet recycled. */
  function Places(avail: seq<nat>, taken: nat, posted: nat, held: multiset<nat>,
                  used: seq<nat>, recycled: nat, returned: nat, x: nat): nat
    requires |avail| > 0 && |used| > 0
  {
    Occurs(avail, taken, posted, x) + held[x] + Occurs(used, recycled, returned, x)
  }

  /** Every posted buffer is in exactly one place, and there are no others. */
  ghost predicate Partitioned(avail: seq<nat>, taken: nat, posted: nat, held: multiset<nat>,
                              used: seq<nat>, recycled: nat, returned: nat)
    requires |avail| > 0 && |used| > 0
  {
    forall x: nat :: Places(avail, taken, posted, held, used, recycled, returned, x) == if x < BUFFERS then 1 else 0
  }

  ghost predicate Counters(s: State)
  {
    && s.recycled <= s.returned <= s.taken <= s.posted == s.recycled + BUFFERS
    && |s.held| == s.taken - s.returned
    && s.m.availIdx == s.posted % TWO16 && s.m.usedIdx == s.returned % TWO16
    && s.m.lastIdx == (if s.pc == Published then s.recycled - 1 else s.recycled) % TWO16
    && (s.pc == Published ==> s.recycled > 0)
  }

  ghost predicate Shape(m: Shared)
  {
    && |m.availRing| == |m.usedId| == |m.usedLen| && |m.bufs| == BUFFERS
    && BUFFERS <= |m.availRing| && TWO16 % |m.availRing| == 0
  }

  /** What the driver has read is the entry it is working on. */
  ghost predicate PcOk(m: Shared, pc: Pc, recycled: nat, returned: nat, posted: nat)
    requires Shape(m)
  {
    match pc
    case Idle => true
    case Got(id, len, _) => recycled < returned && id == At(m.usedId, recycled) && len == At(m.usedLen, recycled)
    case Copied(id) => recycled < returned && id == At(m.usedId, recycled)
    case Slotted(id) => recycled < returned && id == At(m.usedId, recycled) && At(m.availRing, posted) == id
    case Published => true
  }

  /** Returned buffers keep their packets until they are recycled. */
  ghost predicate Packets(ids: seq<nat>, lens: seq<nat>, bufs: seq<seq<u8>>, recycled: nat, returned: nat,
                          log: seq<seq<u8>>)
    requires |ids| == |lens| > 0 && |bufs| == BUFFERS
  {
    && |log| == returned && (forall p | p in log :: |p| >= HEADER)
    && forall i | recycled <= i < returned ::
         At(ids, i) < BUFFERS && bufs[At(ids, i)] == log[i] && At(lens, i) == |log[i]|
  }

  /** What has been delivered is the packets in order, each once. */
  ghost predicate Delivered(pc: Pc, recycled: nat, log: seq<seq<u8>>, asked: seq<nat>, delivered: seq<seq<u8>>)
  {
    && |delivered| == |asked| == recycled + (if pc.Copied? || pc.Slotted? then 1 else 0)
    && |delivered| <= |log|
    && forall i | 0 <= i < |delivered| :: |log[i]| >= HEADER && delivered[i] == Received(log[i], asked[i])
  }

  ghost predicate Inv(s: State)
  {
    && Shape(s.m) && Counters(s)
    && Partitioned(s.m.availRing, s.taken, s.posted, s.held, s.m.usedId, s.recycled, s.returned)
    && PcOk(s.m, s.pc, s.recycled, s.returned, s.posted)
    && Packets(s.m.usedId, s.m.usedLen, s.m.bufs, s.recycled, s.returned, s.log)
    && Delivered(s.pc, s.recycled, s.log, s.asked, s.delivered)
  }

  // ---------------------------------------------------------------------------------------------
  // Rings

  /** Positions less than a ring apart fall into different slots. */
  lemma SlotsDiffer(i: nat, j: nat, n: nat)
    requires i < j < i + n
    ensures i % n != j % n
  {
    var d := j / n - i / n;
    assert i == i / n * n + i % n && j == j / n * n + j % n;
    assert j - i == d * n + (j % n - i % n);
    MultipleSize(n, d);
  }

  /** Stepping a 16-bit index steps the count behind it. */
  lemma Next16(x: nat)
    ensures (x % TWO16 + 1) % TWO16 == (x + 1) % TWO16
  {
  }

  /** Counts at most a ring apart are told apart by their 16-bit indices. */
  lemma IndicesTellApart(lo: nat, hi: nat)
    requires lo <= hi <= lo + BUFFERS
    ensures lo % TWO16 == hi % TWO16 <==> lo == hi
  {
  }

  /** A 16-bit index picks the slot of the count behind it. */
  lemma IndexPicksSlot(x: nat, n: nat)
    requires n > 0 && TWO16 % n == 0
    ensures x % TWO16 % n == x % n
  {
    var r, k, q := x % TWO16, TWO16 / n, x / TWO16;
    assert TWO16 == k * n && x == q * TWO16 + r;
    assert q * (k * n) == (q * k) * n;
    ModAddMultiple(r, q * k, n);
  }

  /** The ring size must divide the range of the index: otherwise the first wrap picks a wrong slot. */
  lemma RingSizeDivides(n: nat)
    requires n > 0
    ensures (forall x: nat :: x % TWO16 % n == x % n) <==> TWO16 % n == 0
  {
    if TWO16 % n == 0 {
      forall x: nat ensures x % TWO16 % n == x % n {
        IndexPicksSlot(x, n);
      }
    } else {
      assert TWO16 % TWO16 % n != TWO16 % n;
    }
  }

  /** Writing a slot ahead of the window leaves the window alone. */
  lemma {:induction false} OccursFrame(ring: seq<nat>, lo: nat, hi: nat, k: nat, v: nat, x: nat)
    requires |ring| > 0 && hi <= k < lo + |ring|
    ensures Occurs(ring[k % |ring| := v], lo, hi, x) == Occurs(ring, lo, hi, x)
    decreases hi
  {
    if lo < hi {
      OccursFrame(ring, lo, hi - 1, k, v, x);
      SlotsDiffer(hi - 1, k, |ring|);
    }
  }

  lemma {:induction false} OccursHead(ring: seq<nat>, lo: nat, hi: nat, x: nat)
    requires |ring| > 0 && lo < hi
    ensures Occurs(ring, lo, hi, x) == (if At(ring, lo) == x then 1 else 0) + Occurs(ring, lo + 1, hi, x)
    decreases hi
  {
    if lo < hi - 1 {
      OccursHead(ring, lo, hi - 1, x);
    }
  }

  lemma {:induction false} OccursHas(ring: seq<nat>, lo: nat, hi: nat, i: nat)
    requires |ring| > 0 && lo <= i < hi
    ensures Occurs(ring, lo, hi, At(ring, i)) >= 1
    decreases hi
  {
    if i < hi - 1 {
      OccursHas(ring, lo, hi - 1, i);
    }
  }

  // ---------------------------------------------------------------------------------------------
  // Every step keeps the invariant

  lemma TakeMoves(avail: seq<nat>, taken: nat, posted: nat, held: multiset<nat>, used: seq<nat>, recycled: nat,
                  returned: nat)
    requires |avail| > 0 && |used| > 0 && taken < posted
    requires Partitioned(avail, taken, posted, held, used, recycled, returned)
    ensures Partitioned(avail, taken + 1, posted, held + multiset{At(avail, taken)}, used, recycled, returned)
  {
    var taken', held' := taken + 1, held + multiset{At(avail, taken)};
    forall x: nat
      ensures Places(avail, taken', posted, held', used, recycled, returned, x) == if x < BUFFERS then 1 else 0
    {
      assert Places(avail, taken, posted, held, used, recycled, returned, x) == if x < BUFFERS then 1 else 0;
      OccursHead(avail, taken, posted, x);
    }
  }

  lemma TakeCounts(s: State)
    requires Shape(s.m) && Counters(s) && s.taken % TWO16 != s.m.availIdx
    ensures s.taken < s.posted
    ensures Counters(s.(taken := s.taken + 1, held := s.held + multiset{At(s.m.availRing, s.taken)}))
  {
  }

  lemma TakeKeeps(s: State)
    requires Inv(s)
    ensures Inv(TakeStep(s))
  {
    if s.taken % TWO16 != s.m.availIdx {
      var held := s.held + multiset{At(s.m.availRing, s.taken)};
      var s' := s.(taken := s.taken + 1, held := held);
      assert TakeStep(s) == s';
      assert s.taken < s.posted && Counters(s') by {
        TakeCounts(s);
      }
      assert Partitioned(s.m.availRing, s.taken + 1, s.posted, held, s.m.usedId, s.recycled, s.returned) by {
        TakeMoves(s.m.availRing, s.taken, s.posted, s.held, s.m.usedId, s.recycled, s.returned);
      }
    }
  }

  /** A buffer the device holds is not among the returned ones. */
  lemma HeldApart(s: State, id: nat)
    requires Inv(s) && id in s.held
    ensures id < BUFFERS && s.returned < s.taken
    ensures forall i | s.recycled <= i < s.returned :: At(s.m.usedId, i) != id
  {
    assert Places(s.m.availRing, s.taken, s.posted, s.held, s.m.usedId, s.recycled, s.returned, id) <= 1;
    forall i | s.recycled <= i < s.returned ensures At(s.m.usedId, i) != id {
      OccursHas(s.m.usedId, s.recycled, s.returned, i);
    }
  }

  lemma ReturnMoves(avail: seq<nat>, taken: nat, posted: nat, held: multiset<nat>, used: seq<nat>, recycled: nat,
                    returned: nat, id: nat)
    requires |avail| > 0 && |used| > 0 && id in held && recycled <= returned < recycled + |used|
    requires Partitioned(avail, taken, posted, held, used, recycled, returned)
    ensures Partitioned(avail, taken, posted, held - multiset{id}, used[returned % |used| := id],
                        recycled, returned + 1)
  {
    var held', used', returned' := held - multiset{id}, used[returned % |used| := id], returned + 1;
    forall x: nat
      ensures Places(avail, taken, posted, held', used', recycled, returned', x) == if x < BUFFERS then 1 else 0
    {
      assert Places(avail, taken, posted, held, used, recycled, returned, x) == if x < BUFFERS then 1 else 0;
      OccursFrame(used, recycled, returned, returned, id, x);
    }
  }

  /** Filling a held buffer and its used entry keeps the packets returned before. */
  lemma ReturnPackets(ids: seq<nat>, lens: seq<nat>, bufs: seq<seq<u8>>, recycled: nat, returned: nat,
                      log: seq<seq<u8>>,
                      id: nat, packet: seq<u8>)
    requires |ids| == |lens| > 0 && |bufs| == BUFFERS && id < BUFFERS && |packet| >= HEADER
    requires recycled <= returned < recycled + |ids|
    requires forall i | recycled <= i < returned :: At(ids, i) != id
    requires Packets(ids, lens, bufs, recycled, returned, log)
    ensures Packets(ids[returned % |ids| := id], lens[returned % |ids| := |packet|], bufs[id := packet],
                    recycled, returned + 1, log + [packet])
  {
    var ids', lens' := ids[returned % |ids| := id], lens[returned % |ids| := |packet|];
    forall i | recycled <= i < returned ensures At(ids', i) == At(ids, i) && At(lens', i) == At(lens, i) {
      SlotsDiffer(i, returned, |ids|);
    }
  }

  /** The entry the driver is working on is not the one being written. */
  lemma ReturnPc(m: Shared, pc: Pc, recycled: nat, returned: nat, posted: nat, id: nat, packet: seq<u8>, idx: u16)
    requires Shape(m) && PcOk(m, pc, recycled, returned, posted) && recycled <= returned < recycled + BUFFERS
             && id < BUFFERS
    ensures var n := |m.usedId|;
            PcOk(m.(usedId := m.usedId[returned % n := id], usedLen := m.usedLen[returned % n := |packet|],
                    usedIdx := idx, bufs := m.bufs[id := packet]), pc, recycled, returned + 1, posted)
  {
    if recycled < returned {
      SlotsDiffer(recycled, returned, |m.usedId|);
    }
  }

  lemma ReturnCounts(s: State, id: nat, packet: seq<u8>)
    requires Shape(s.m) && Counters(s) && id in s.held && id < BUFFERS && |packet| >= HEADER && s.returned < s.taken
    ensures Counters(ReturnStep(s, id, packet))
  {
    Next16(s.returned);
  }

  lemma LogGrows(pc: Pc, recycled: nat, log: seq<seq<u8>>, asked: seq<nat>, delivered: seq<seq<u8>>, packet: seq<u8>)
    requires Delivered(pc, recycled, log, asked, delivered)
    ensures Delivered(pc, recycled, log + [packet], asked, delivered)
  {
  }

  lemma ReturnKeeps(s: State, id: nat, packet: seq<u8>)
    requires Inv(s)
    ensures Inv(ReturnStep(s, id, packet))
  {
    if id in s.held && id < |s.m.bufs| && |packet| >= HEADER {
      HeldApart(s, id);
      var s' := ReturnStep(s, id, packet);
      assert Partitioned(s'.m.availRing, s'.taken, s'.posted, s'.held, s'.m.usedId, s'.recycled, s'.returned) by {
        ReturnMoves(s.m.availRing, s.taken, s.posted, s.held, s.m.usedId, s.recycled, s.returned, id);
      }
      assert Packets(s'.m.usedId, s'.m.usedLen, s'.m.bufs, s'.recycled, s'.returned, s'.log) by {
        ReturnPackets(s.m.usedId, s.m.usedLen, s.m.bufs, s.recycled, s.returned, s.log, id, packet);
      }
      assert PcOk(s'.m, s'.pc, s'.recycled, s'.returned, s'.posted) by {
        ReturnPc(s.m, s.pc, s.recycled, s.returned, s.posted, id, packet, (s.m.usedIdx + 1) % TWO16);
      }
      assert Counters(s') by {
        ReturnCounts(s, id, packet);
      }
      assert Delivered(s'.pc, s'.recycled, s'.log, s'.asked, s'.delivered) by {
        LogGrows(s.pc, s.recycled, s.log, s.asked, s.delivered, packet);
      }
    }
  }

  lemma SmallMod(x: nat, n: nat)
    requires x < n
    ensures x % n == x
  {
  }

  /** The entry recv reads is the oldest one not yet recycled. */
  lemma CheckReads(ids: seq<nat>, lens: seq<nat>, recycled: nat, n: nat)
    requires |ids| == |lens| == n && BUFFERS <= n && TWO16 % n == 0 && At(ids, recycled) < BUFFERS
    ensures ids[recycled % TWO16 % n] % n == At(ids, recycled) && lens[recycled % TWO16 % n] == At(lens, recycled)
  {
    IndexPicksSlot(recycled, n);
    SmallMod(At(ids, recycled), n);
  }

  lemma CheckKeeps(s: State, maxLen: nat)
    requires Inv(s)
    ensures Inv(CheckStep(s, maxLen))
  {
    IndicesTellApart(s.recycled, s.returned);
    if s.pc == Idle && s.recycled < s.returned {
      assert At(s.m.usedId, s.recycled) < BUFFERS;
      CheckReads(s.m.usedId, s.m.usedLen, s.recycled, |s.m.usedId|);
    }
  }

  lemma CopyDelivers(pc: Pc, recycled: nat, log: seq<seq<u8>>, asked: seq<nat>, delivered: seq<seq<u8>>)
    requires pc.Got? && recycled < |log| && |log[recycled]| >= HEADER && Delivered(pc, recycled, log, asked, delivered)
    ensures Delivered(Copied(pc.id), recycled, log, asked + [pc.maxLen],
                      delivered + [Received(log[recycled], pc.maxLen)])
  {
  }

  /** What recv copies out is the packet it has found. */
  lemma CopyReads(s: State)
    requires Inv(s) && s.pc.Got?
    ensures s.pc.id < BUFFERS && s.recycled < |s.log| && |s.log[s.recycled]| >= HEADER
    ensures s.pc.len == |s.m.bufs[s.pc.id]| && s.m.bufs[s.pc.id][..s.pc.len] == s.log[s.recycled]
  {
    assert s.m.bufs[At(s.m.usedId, s.recycled)] == s.log[s.recycled];
  }

  lemma CopyKeeps(s: State)
    requires Inv(s)
    ensures Inv(CopyStep(s))
  {
    if s.pc.Got? {
      CopyReads(s);
      CopyDelivers(s.pc, s.recycled, s.log, s.asked, s.delivered);
      assert CopyStep(s) == s.(pc := Copied(s.pc.id), asked := s.asked + [s.pc.maxLen],
                               delivered := s.delivered + [Received(s.log[s.recycled], s.pc.maxLen)]);
    }
  }

  lemma SlotMoves(avail: seq<nat>, taken: nat, posted: nat, held: multiset<nat>, used: seq<nat>, recycled: nat,
                  returned: nat, id: nat)
    requires |avail| > 0 && |used| > 0 && taken <= posted < taken + |avail|
    requires Partitioned(avail, taken, posted, held, used, recycled, returned)
    ensures Partitioned(avail[posted % |avail| := id], taken, posted, held, used, recycled, returned)
  {
    var avail' := avail[posted % |avail| := id];
    forall x: nat
      ensures Places(avail', taken, posted, held, used, recycled, returned, x) == if x < BUFFERS then 1 else 0
    {
      assert Places(avail, taken, posted, held, used, recycled, returned, x) == if x < BUFFERS then 1 else 0;
      OccursFrame(avail, taken, posted, posted, id, x);
    }
  }

  lemma PutSlotKeeps(s: State)
    requires Inv(s)
    ensures Inv(PutSlotStep(s))
  {
    if s.pc.Copied? {
      IndexPicksSlot(s.posted, |s.m.availRing|);
      SlotMoves(s.m.availRing, s.taken, s.posted, s.held, s.m.usedId, s.recycled, s.returned, s.pc.id);
    }
  }

  lemma PublishMoves(avail: seq<nat>, taken: nat, posted: nat, held: multiset<nat>, used: seq<nat>, recycled: nat,
                     returned: nat)
    requires |avail| > 0 && |used| > 0 && taken <= posted && recycled < returned
             && At(avail, posted) == At(used, recycled)
    requires Partitioned(avail, taken, posted, held, used, recycled, returned)
    ensures Partitioned(avail, taken, posted + 1, held, used, recycled + 1, returned)
  {
    var posted', recycled' := posted + 1, recycled + 1;
    forall x: nat
      ensures Places(avail, taken, posted', held, used, recycled', returned, x) == if x < BUFFERS then 1 else 0
    {
      assert Places(avail, taken, posted, held, used, recycled, returned, x) == if x < BUFFERS then 1 else 0;
      OccursHead(used, recycled, returned, x);
    }
  }

  lemma PublishCounts(s: State)
    requires Shape(s.m) && Counters(s) && s.pc.Slotted? && s.recycled < s.returned
    ensures Counters(PublishStep(s))
  {
    Next16(s.posted);
  }

  lemma PublishKeeps(s: State)
    requires Inv(s)
    ensures Inv(PublishStep(s))
  {
    if s.pc.Slotted? {
      PublishCounts(s);
      PublishMoves(s.m.availRing, s.taken, s.posted, s.held, s.m.usedId, s.recycled, s.returned);
    }
  }

  lemma AdvanceKeeps(s: State)
    requires Inv(s)
    ensures Inv(AdvanceStep(s))
  {
    if s.pc.Published? {
      Next16(s.recycled - 1);
    }
  }

  lemma StepKeeps(s: State, a: Action)
    requires Inv(s)
    ensures Inv(Step(s, a))
  {
    match a
    case Take => TakeKeeps(s);
    case Return(id, packet) => ReturnKeeps(s, id, packet);
    case Check(maxLen) => CheckKeeps(s, maxLen);
    case Copy => CopyKeeps(s);
    case PutSlot => PutSlotKeeps(s);
    case Publish => PublishKeeps(s);
    case Advance => AdvanceKeeps(s);
  }

  // ---------------------------------------------------------------------------------------------
  // Whole runs

  /** After initialisation: buffer `i` is in available slot `i`, and nothing has been exchanged. */
  ghost predicate Initial(s: State)
  {
    && Shape(s.m) && (forall i | 0 <= i < BUFFERS :: s.m.availRing[i] == i)
    && s.m.availIdx == BUFFERS && s.m.usedIdx == 0 && s.m.lastIdx == 0 && s.pc == Idle
    && s.posted == BUFFERS && s.taken == 0 && s.returned == 0 && s.recycled == 0
    && s.held == multiset{} && s.log == [] && s.asked == [] && s.delivered == []
  }

  lemma {:induction false} InitialOccurs(ring: seq<nat>, hi: nat, x: nat)
    requires hi <= BUFFERS <= |ring| && forall i | 0 <= i < BUFFERS :: ring[i] == i
    ensures Occurs(ring, 0, hi, x) == if x < hi then 1 else 0
  {
    if hi > 0 {
      InitialOccurs(ring, hi - 1, x);
      SmallMod(hi - 1, |ring|);
    }
  }

  lemma InitialInv(s: State)
    requires Initial(s)
    ensures Inv(s)
  {
    forall x: nat
      ensures Places(s.m.availRing, s.taken, s.posted, s.held, s.m.usedId, s.recycled, s.returned, x)
           == if x < BUFFERS then 1 else 0
    {
      InitialOccurs(s.m.availRing, BUFFERS, x);
    }
  }

  lemma StepSize(s: State, a: Action)
    requires SameSize(s.m)
    ensures SameSize(Step(s, a).m)
  {
  }

  function Run(s: State, acts: seq<Action>): State
    requires SameSize(s.m)
    decreases |acts|
  {
    if acts == [] then s else StepSize(s, acts[0]); Run(Step(s, acts[0]), acts[1..])
  }

  lemma {:induction false} RunKeeps(s: State, acts: seq<Action>)
    requires Inv(s)
    ensures Inv(Run(s, acts))
    decreases |acts|
  {
    if acts != [] {
      StepKeeps(s, acts[0]);
      RunKeeps(Step(s, acts[0]), acts[1..]);
    }
  }

  /** No slot that still matters is written: neither one the device has yet to read nor one recv has yet to read. */
  ghost predicate NothingOverwritten(s: State)
    requires Shape(s.m)
  {
    && (s.pc.Copied? ==> forall i | s.taken <= i < s.posted :: i % |s.m.availRing| != s.m.availIdx % |s.m.availRing|)
    && (s.held != multiset{}
        ==> forall i | s.recycled <= i < s.returned :: i % |s.m.usedId| != s.returned % |s.m.usedId|)
  }

  lemma InvNothingOverwritten(s: State)
    requires Inv(s)
    ensures NothingOverwritten(s)
  {
    var n := |s.m.availRing|;
    IndexPicksSlot(s.posted, n);
    if s.pc.Copied? {
      forall i | s.taken <= i < s.posted ensures i % n != s.posted % n {
        SlotsDiffer(i, s.posted, n);
      }
    }
    if s.held != multiset{} {
      assert |s.held| > 0;
      forall i | s.recycled <= i < s.returned ensures i % n != s.returned % n {
        SlotsDiffer(i, s.returned, n);
      }
    }
  }

  ghost predicate Guarantees(s: State)
  {
    && Shape(s.m) && NothingOverwritten(s)
    // Each of the 64 buffers is in exactly one place.
    && Partitioned(s.m.availRing, s.taken, s.posted, s.held, s.m.usedId, s.recycled, s.returned) && |s.m.bufs| == 64
    // Outside recv the indices are 64 apart, and equal indices mean that nothing is unread.
    && (s.pc == Idle ==> s.m.availIdx == (s.m.lastIdx + 64) % 0x1_0000)
    && (s.pc == Idle ==> (s.m.lastIdx == s.m.usedIdx <==> s.recycled == s.returned))
    // Packets are delivered in the order the device returned them, each once.
    && Delivered(s.pc, s.recycled, s.log, s.asked, s.delivered) && |s.log| == s.returned
  }

  /** Moving a count on by the number of buffers moves its 16-bit index on likewise. */
  lemma Ahead16(x: nat)
    ensures (x % TWO16 + BUFFERS) % TWO16 == (x + BUFFERS) % TWO16
  {
  }

  lemma InvGuarantees(s: State)
    requires Inv(s)
    ensures Guarantees(s)
  {
    InvNothingOverwritten(s);
    IndicesTellApart(s.recycled, s.returned);
    Ahead16(s.recycled);
  }

  /** In every interleaving of driver and device, from initialisation on. */
  lemma EveryRun(s0: State, acts: seq<Action>)
    requires Initial(s0)
    ensures Inv(s0) && Guarantees(Run(s0, acts))
  {
    InitialInv(s0);
    RunKeeps(s0, acts);
    InvGuarantees(Run(s0, acts));
  }

  // ---------------------------------------------------------------------------------------------
  // Packets on the wire

  /** The header that the device puts in front of a frame. */
  datatype Header = Header(flags: u8, gsoType: u8, hdrLen: u16, gsoSize: u16, csumStart: u16, csumOffset: u16)

  function HeaderBytes(h: Header): seq<u8>
  {
    [h.flags, h.gsoType] + ToBe16(h.hdrLen) + ToBe16(h.gsoSize) + ToBe16(h.csumStart) + ToBe16(h.csumOffset)
  }

  /** The packet is this frame with some header. */
  ghost predicate IsFrame(packet: seq<u8>, frame: seq<u8>)
  {
    exists h :: packet == HeaderBytes(h) + frame
  }

  function CutTo(frame: seq<u8>, maxLen: nat): seq<u8>
  {
    if |frame| > maxLen then frame[..maxLen] else frame
  }

  /** What recv makes of a packet is its frame, cut to the limit. */
  lemma ReceivedFrame(packet: seq<u8>, frame: seq<u8>, maxLen: nat)
    requires IsFrame(packet, frame)
    ensures |packet| >= HEADER && Received(packet, maxLen) == CutTo(frame, maxLen)
  {
    var h :| packet == HeaderBytes(h) + frame;
    assert |HeaderBytes(h)| == 10;
    assert packet[10..] == frame;
    if |frame| > maxLen {
      assert packet[10..10 + maxLen] == packet[10..][..maxLen];
    }
  }

  /** The packet that the device returns by an action, if it does. */
  function ReturnedBy(s: State, a: Action): seq<seq<u8>>
  {
    if a.Return? && a.id in s.held && a.id < |s.m.bufs| && |a.packet| >= 10 then [a.packet] else []
  }

  /** The limit of a call of recv that finds a packet. */
  function AskedBy(s: State, a: Action): seq<nat>
  {
    if a.Check? && s.pc == Idle && s.m.lastIdx != s.m.usedIdx then [a.maxLen] else []
  }

  /** The packets that the device returns in a run, in order. */
  function Returns(s: State, acts: seq<Action>): seq<seq<u8>>
    requires SameSize(s.m)
    decreases |acts|
  {
    if acts == [] then [] else
      StepSize(s, acts[0]);
      ReturnedBy(s, acts[0]) + Returns(Step(s, acts[0]), acts[1..])
  }

  /** The limits of the calls of recv that find a packet, in order. */
  function Limits(s: State, acts: seq<Action>): seq<nat>
    requires SameSize(s.m)
    decreases |acts|
  {
    if acts == [] then [] else
      StepSize(s, acts[0]);
      AskedBy(s, acts[0]) + Limits(Step(s, acts[0]), acts[1..])
  }

  /** The limits so far, with that of the call at work. */
  function AllAsked(s: State): seq<nat>
  {
    s.asked + if s.pc.Got? then [s.pc.maxLen] else []
  }

  lemma StepRecords(s: State, a: Action)
    requires SameSize(s.m)
    ensures Step(s, a).log == s.log + ReturnedBy(s, a) && AllAsked(Step(s, a)) == AllAsked(s) + AskedBy(s, a)
  {
  }

  lemma {:induction false} RunReturns(s: State, acts: seq<Action>)
    requires SameSize(s.m)
    ensures Run(s, acts).log == s.log + Returns(s, acts)
    decreases |acts|
  {
    if acts != [] {
      var s' := Step(s, acts[0]);
      StepSize(s, acts[0]);
      StepRecords(s, acts[0]);
      RunReturns(s', acts[1..]);
      Assoc(s.log, ReturnedBy(s, acts[0]), Returns(s', acts[1..]));
    }
  }

  lemma {:induction false} RunLimits(s: State, acts: seq<Action>)
    requires SameSize(s.m)
    ensures AllAsked(Run(s, acts)) == AllAsked(s) + Limits(s, acts)
    decreases |acts|
  {
    if acts != [] {
      var s' := Step(s, acts[0]);
      StepSize(s, acts[0]);
      StepRecords(s, acts[0]);
      RunLimits(s', acts[1..]);
      Assoc(AllAsked(s), AskedBy(s, acts[0]), Limits(s', acts[1..]));
    }
  }

  /**
   * In every run: the i-th call of recv that finds a packet delivers the i-th frame that the device returned, cut to
   * the limit of that call.
   */
  lemma FramesDelivered(s0: State, acts: seq<Action>)
    requires Initial(s0)
    ensures Inv(s0)
    ensures var s := Run(s0, acts);
            && |s.delivered| <= |Returns(s0, acts)| && |s.delivered| <= |Limits(s0, acts)|
            && forall i, frame | 0 <= i < |s.delivered| && IsFrame(Returns(s0, acts)[i], frame) ::
                 s.delivered[i] == CutTo(frame, Limits(s0, acts)[i])
  {
    InitialInv(s0);
    RunKeeps(s0, acts);
    RunReturns(s0, acts);
    RunLimits(s0, acts);
    var s, sent, limits := Run(s0, acts), Returns(s0, acts), Limits(s0, acts);
    assert s.log == sent && AllAsked(s) == limits;
    forall i, frame | 0 <= i < |s.delivered| && IsFrame(sent[i], frame)
      ensures s.delivered[i] == CutTo(frame, limits[i])
    {
      assert s.asked[i] == limits[i];
      ReceivedFrame(s.log[i], frame, s.asked[i]);
    }
  }

  // ---------------------------------------------------------------------------------------------
  // The routine itself

  /** The used entry under the read index names a buffer and a length that fits it. */
  predicate EntrySane(m: Shared)
  {
    && SameSize(m)
    && var slot := m.lastIdx % |m.usedId|;
       var id := m.usedId[slot] % |m.usedId|;
       id < |m.bufs| && HEADER <= m.usedLen[slot] <= |m.bufs[id]|
  }

  /** The memory after one call of recv that finds a packet. */
  function Recycled(m: Shared): Shared
    requires SameSize(m)
  {
    m.(availRing := m.availRing[m.availIdx % |m.availRing| := m.usedId[m.lastIdx % |m.usedId|] % |m.usedId|],
       availIdx := (m.availIdx + 1) % TWO16, lastIdx := (m.lastIdx + 1) % TWO16)
  }

  /** The packet under the read index. */
  function Arrived(m: Shared): seq<u8>
    requires EntrySane(m)
  {
    var slot := m.lastIdx % |m.usedId|;
    m.bufs[m.usedId[slot] % |m.usedId|][..m.usedLen[slot]]
  }

  function Packet(m: Shared, maxLen: nat): seq<u8>
    requires EntrySane(m)
  {
    Received(Arrived(m), maxLen)
  }

  /** Copying out of the buffer past the header is cutting the packet. */
  lemma CutIs(buf: seq<u8>, n: nat, maxLen: nat, len: nat)
    requires HEADER <= n <= |buf| && len == if n - HEADER > maxLen then maxLen else n - HEADER
    ensures Received(buf[..n], maxLen) == buf[HEADER..HEADER + len]
  {
  }

  /** The entry that recv finds is that of the oldest packet not yet delivered. */
  lemma RecvFinds(s: State, maxLen: nat)
    requires Inv(s) && s.pc == Idle && s.m.lastIdx != s.m.usedIdx
    ensures EntrySane(s.m) && s.recycled < |s.log| && |s.log[s.recycled]| >= HEADER
    ensures Packet(s.m, maxLen) == Received(s.log[s.recycled], maxLen)
  {
    CheckKeeps(s, maxLen);
    CopyReads(CheckStep(s, maxLen));
  }

  lemma StepsCompose(s: State, maxLen: nat)
    requires EntrySane(s.m) && s.pc == Idle && s.m.lastIdx != s.m.usedIdx
    ensures var s' := AdvanceStep(PublishStep(PutSlotStep(CopyStep(CheckStep(s, maxLen)))));
            && s'.m == Recycled(s.m) && s'.pc == Idle
            && s'.delivered == s.delivered + [Packet(s.m, maxLen)]
  {
    var slot := s.m.lastIdx % |s.m.usedId|;
    var id := s.m.usedId[slot] % |s.m.usedId|;
    var s2 := CopyStep(CheckStep(s, maxLen));
    assert s2.m == s.m && s2.pc == Copied(id);
    var s3 := PutSlotStep(s2);
    assert s3.pc == Slotted(id);
  }

  /** recv, undisturbed, is the five driver steps: it delivers that packet and recycles its buffer. */
  lemma RecvIsSteps(s: State, maxLen: nat)
    requires Inv(s) && s.pc == Idle && s.m.lastIdx != s.m.usedIdx
    ensures EntrySane(s.m) && s.recycled < |s.log| && |s.log[s.recycled]| >= HEADER
    ensures var s' := AdvanceStep(PublishStep(PutSlotStep(CopyStep(CheckStep(s, maxLen)))));
            && s'.m == Recycled(s.m) && s'.pc == Idle
            && s'.delivered == s.delivered + [Received(s.log[s.recycled], maxLen)]
  {
    RecvFinds(s, maxLen);
    StepsCompose(s, maxLen);
  }

  class ReceiveQueue {
    const availRing: array<nat>
    const usedId: array<nat>
    const usedLen: array<nat>
    var availIdx: u16
    var usedIdx: u16
    var lastIdx: u16
    var bufs: seq<seq<u8>>

    ghost function View(): Shared
      reads this, availRing, usedId, usedLen
    {
      Shared(availRing[..], availIdx, usedId[..], usedLen[..], usedIdx, lastIdx, bufs)
    }

    ghost predicate Valid()
      reads this, availRing, usedId, usedLen
    {
      && availRing != usedId && availRing != usedLen
      && SameSize(View()) && (lastIdx != usedIdx ==> EntrySane(View()))
    }

    method Recv(maxLen: nat) returns (packet: Option<seq<u8>>)
      requires Valid()
      modifies this`availIdx, this`lastIdx, availRing
      ensures packet.None? <==> old(lastIdx) == old(usedIdx)
      ensures packet.None? ==> View() == old(View())
      ensures packet.Some? ==> View() == Recycled(old(View())) && packet.value == Packet(old(View()), maxLen)
      ensures packet.Some? ==>
                forall frame | IsFrame(Arrived(old(View())), frame) :: packet.value == CutTo(frame, maxLen)
    {
      if lastIdx == usedIdx {
        return None;
      }
      ghost var arrived := Arrived(View());
      forall frame | IsFrame(arrived, frame) ensures Received(arrived, maxLen) == CutTo(frame, maxLen) {
        ReceivedFrame(arrived, frame, maxLen);
      }
      var slot := lastIdx % usedId.Length;
      var id := usedId[slot] % usedId.Length;
      var len := usedLen[slot] - HEADER;
      if len > maxLen {
        len := maxLen;
      }
      packet := Some(bufs[id][HEADER..HEADER + len]);
      CutIs(bufs[id], usedLen[slot], maxLen, len);
      PutAvailable(id);
      lastIdx := (lastIdx + 1) % TWO16;
    }

    /** Makes one buffer available: the slot first, then the index. */
    method PutAvailable(id: nat)
      requires availRing.Length > 0
      modifies this`availIdx, availRing
      ensures availRing[..] == old(availRing[..])[old(availIdx) % availRing.Length := id]
      ensures availIdx == (old(availIdx) + 1) % TWO16
    {
      var slot := availIdx % availRing.Length;
      availRing[slot] := id;
      availIdx := (availIdx + 1) % TWO16;
    }
  }
}

/** Posting the receive buffers (virtio-net.c, virtio_net_init). */
module NetInit {
  import opened Common
  import opened V = VRing
  import NetReceive

  /** The receive queue before anything is exchanged, over a ring and the buffers' contents. */
  ghost function Posted(avail: seq<nat>, availIdx: u16, usedIdx: u16, ids: seq<nat>, lens: seq<nat>,
                        contents: seq<seq<u8>>): NetReceive.State
  {
    NetReceive.State(NetReceive.Shared(avail, availIdx, ids, lens, usedIdx, 0, contents), NetReceive.Idle,
                     NetReceive.BUFFERS, 0, 0, 0, multiset{}, [], [], [])
  }

  /**
   * On a freshly initialised queue, buffer `i` gets descriptor `i` and available slot `i`, and the receive protocol
   * can start, if the ring size divides the range of the indices. `ids` and `lens` are the used ring's entries.
   */
  method PostBuffers(rx: V.VRing, bufs: seq<u64>, size: u32,
                     ghost ids: seq<nat>, ghost lens: seq<nat>, ghost contents: seq<seq<u8>>)
    requires rx.Valid() && rx.num >= NetReceive.BUFFERS && |bufs| == |contents| == NetReceive.BUFFERS
    requires rx.View() == Position(0, 0, 0, 0) && |ids| == |lens| == rx.num
    modifies rx`availIdx, rx`nextIdx, rx.desc, rx.availRing
    ensures rx.Valid() && rx.View() == Position(64, 64, 0, 0)
    ensures forall i | 0 <= i < 64 ::
              rx.availRing[i] == i && rx.desc[i] == Desc(bufs[i], size, 2, i + 1)
    ensures TWO16 % rx.num == 0 ==>
              NetReceive.Initial(Posted(rx.availRing[..], rx.availIdx, rx.usedIdx, ids, lens, contents))
  {
    for i := 0 to NetReceive.BUFFERS
      invariant rx.Valid() && rx.View() == Position(i, i, 0, 0)
      invariant forall k | 0 <= k < i :: rx.availRing[k] == k && rx.desc[k] == Desc(bufs[k], size, 2, k + 1)
    {
      ghost var before := rx.availRing[..];
      assert forall k | 0 <= k < i :: before[k] == k;
      NetReceive.SmallMod(i, rx.num);
      rx.SendBuf(bufs[i], size, F_WRITE);
      assert rx.availRing[..] == before[i := i];
      assert forall k | 0 <= k <= i :: rx.availRing[..][k] == k;
    }
    assert forall k | 0 <= k < NetReceive.BUFFERS :: rx.availRing[..][k] == rx.availRing[k];
  }
}
