/**
 * The split virtqueue of the s390-ccw firmware (virtio.c): descriptors and rings shared with the device,
 * after sections 2.4.5, 2.4.6 and 2.4.8 of Virtio 1.0.
 */
module VRing {
  import opened Common

  const F_NEXT: u16 := 1
  const F_WRITE: u16 := 2
  /** Driver-internal: this buffer is not the first of its chain. */
  const HIDDEN_IS_CHAIN: u16 := 256

  predicate HasNext(f: u16) { f % 2 == 1 }

  predicate IsHidden(f: u16) { f / HIDDEN_IS_CHAIN % 2 == 1 }

  /** The flags without the driver's own bit. */
  function Visible(f: u16): u16 { if IsHidden(f) then f - HIDDEN_IS_CHAIN else f }

  /** The flags with the driver's own bit. */
  function Hidden(f: u16): u16 { if IsHidden(f) then f else f + HIDDEN_IS_CHAIN }

  lemma FlagBits(f: u16)
    ensures Visible(Hidden(f)) == Visible(f) && IsHidden(Hidden(f)) && !IsHidden(Visible(f))
    ensures HasNext(Hidden(f)) == HasNext(f) == HasNext(Visible(f))
  {
  }

  datatype Desc = Desc(addr: u64, len: u32, flags: u16, next: u16)

  /** One buffer as the device sees it. */
  datatype Buffer = Buffer(addr: u64, len: u32, flags: u16)

  datatype Cmd = Cmd(data: u64, size: u32, flags: u16)

  /** Every entry but the last asks for a successor. */
  ghost predicate IsChain(cmds: seq<Cmd>)
  {
    |cmds| > 0 && !IsHidden(cmds[0].flags) && Linked(cmds)
  }

  /** The descriptor that describes a command's buffer from slot `k`. */
  function DescOf(c: Cmd, k: nat): Desc
  {
    Desc(c.data, c.size, Visible(c.flags), (k + 1) % TWO16)
  }

  function BufferOf(c: Cmd): Buffer
  {
    Buffer(c.data, c.size, Visible(c.flags))
  }

  function Buffers(cmds: seq<Cmd>): seq<Buffer>
  {
    if cmds == [] then [] else [BufferOf(cmds[0])] + Buffers(cmds[1..])
  }

  /** What a device reads that follows a descriptor chain from `head`; a longer chain than the table is cut. */
  function Follow(desc: seq<Desc>, head: nat, fuel: nat): seq<Buffer>
    decreases fuel
  {
    if fuel == 0 || head >= |desc| then []
    else
      [Buffer(desc[head].addr, desc[head].len, desc[head].flags)]
      + if HasNext(desc[head].flags) then Follow(desc, desc[head].next, fuel - 1) else []
  }

  /** The descriptor table holds the chain from `base` on, each descriptor naming the one after it. */
  ghost predicate LaidOut(desc: seq<Desc>, base: nat, cmds: seq<Cmd>)
  {
    && base + |cmds| <= |desc|
    && forall i | 0 <= i < |cmds| ::
         desc[base + i] == DescOf(cmds[i], base + i)
  }

  ghost predicate Linked(cmds: seq<Cmd>)
  {
    forall k | 0 <= k < |cmds| :: HasNext(cmds[k].flags) <==> k < |cmds| - 1
  }

  lemma LaidOutTail(desc: seq<Desc>, base: nat, cmds: seq<Cmd>)
    requires LaidOut(desc, base, cmds) && Linked(cmds) && |cmds| > 1
    ensures LaidOut(desc, base + 1, cmds[1..]) && Linked(cmds[1..])
  {
    var rest := cmds[1..];
    forall i | 0 <= i < |rest| ensures desc[base + 1 + i] == DescOf(rest[i], base + 1 + i) {
      assert rest[i] == cmds[i + 1] && desc[base + (i + 1)] == DescOf(cmds[i + 1], base + (i + 1));
    }
  }

  lemma FollowHead(desc: seq<Desc>, base: nat, cmds: seq<Cmd>, fuel: nat)
    requires LaidOut(desc, base, cmds) && Linked(cmds) && |cmds| > 0 && |desc| < TWO16 && fuel > 0
    ensures Follow(desc, base, fuel)
            == [BufferOf(cmds[0])] + if |cmds| > 1 then Follow(desc, base + 1, fuel - 1) else []
  {
    assert desc[base + 0] == DescOf(cmds[0], base);
    FlagBits(cmds[0].flags);
  }

  /** A device that follows the laid out chain visits exactly its buffers, in order. */
  lemma {:induction false} FollowLaidOut(desc: seq<Desc>, base: nat, cmds: seq<Cmd>, fuel: nat)
    requires LaidOut(desc, base, cmds) && Linked(cmds) && |cmds| > 0 && |desc| < TWO16 && fuel >= |cmds|
    ensures Follow(desc, base, fuel) == Buffers(cmds)
    decreases |cmds|
  {
    FollowHead(desc, base, cmds, fuel);
    if |cmds| > 1 {
      LaidOutTail(desc, base, cmds);
      FollowLaidOut(desc, base + 1, cmds[1..], fuel - 1);
    }
  }

  /** The driver's and the device's position in one queue. */
  datatype Position = Position(next: nat, avail: u16, used: u16, seen: u16)

  /** One poll: report an update exactly when the device's index has moved since the last one. */
  function PollStep(p: Position): Position
  {
    if p.used == p.seen then p else p.(seen := p.used, next := 0)
  }

  class VRing {
    const num: nat
    const desc: array<Desc>
    const availRing: array<u16>
    var availIdx: u16
    var usedIdx: u16    // written by the device
    var nextIdx: nat
    var seenIdx: u16    // the device's index at the last poll that saw it move

    ghost predicate Valid()
      reads this
    {
      0 < num < TWO16 && desc.Length == num && availRing.Length == num && nextIdx <= num
    }

    ghost function View(): Position
      reads this
    {
      Position(nextIdx, availIdx, usedIdx, seenIdx)
    }

    constructor (num: nat)
      requires 0 < num < TWO16
      ensures Valid() && this.num == num && View() == Position(0, 0, 0, 0)
      ensures fresh(desc) && fresh(availRing)
    {
      this.num := num;
      desc := new Desc[num](_ => Desc(0, 0, 0, 0));
      availRing := new u16[num];
      availIdx, usedIdx, nextIdx, seenIdx := 0, 0, 0, 0;
    }

    /** Append one buffer; the first of a chain names the chain's head, the last publishes it. */
    method SendBuf(p: u64, len: u32, flags: u16)
      requires Valid() && nextIdx < num
      modifies this`availIdx, this`nextIdx, desc, availRing
      ensures Valid() && nextIdx == old(nextIdx) + 1
      ensures desc[old(nextIdx)] == DescOf(Cmd(p, len, flags), old(nextIdx))
      ensures forall k | 0 <= k < num && k != old(nextIdx) :: desc[k] == old(desc[k])
      ensures availRing[..] == if !IsHidden(flags) then old(availRing[..])[old(availIdx) % num := old(nextIdx)]
                               else old(availRing[..])
      ensures availIdx == if !HasNext(flags) then (old(availIdx) + 1) % TWO16 else old(availIdx)
    {
      if !IsHidden(flags) {
        availRing[availIdx % num] := nextIdx;
      }
      desc[nextIdx] := Desc(p, len, Visible(flags), (nextIdx + 1) % TWO16);
      nextIdx := nextIdx + 1;
      if !HasNext(flags) {
        availIdx := (availIdx + 1) % TWO16;
      }
    }

    /** A buffer that continues a chain: only the descriptor table changes, until the last one publishes the chain. */
    method SendFollowUp(c: Cmd)
      requires Valid() && nextIdx < num
      modifies this`availIdx, this`nextIdx, desc, availRing
      ensures Valid() && nextIdx == old(nextIdx) + 1 && availRing[..] == old(availRing[..])
      ensures desc[old(nextIdx)] == DescOf(c, old(nextIdx))
      ensures forall k | 0 <= k < num && k != old(nextIdx) :: desc[k] == old(desc[k])
      ensures availIdx == if HasNext(c.flags) then old(availIdx) else (old(availIdx) + 1) % TWO16
    {
      FlagBits(c.flags);
      SendBuf(c.data, c.size, Hidden(c.flags));
    }

    /** The sending loop of virtio_run: one buffer per command, up to the first that has no successor. */
    method SendLoop(cmds: seq<Cmd>)
      requires Valid() && IsChain(cmds) && nextIdx + |cmds| <= num
      modifies this`availIdx, this`nextIdx, desc, availRing
      ensures Valid() && nextIdx == old(nextIdx) + |cmds| && availIdx == (old(availIdx) + 1) % TWO16
      ensures availRing[..] == old(availRing[..])[old(availIdx) % num := old(nextIdx)]
      ensures forall k | 0 <= k < |cmds| :: desc[old(nextIdx) + k] == DescOf(cmds[k], old(nextIdx) + k)
      ensures forall k | 0 <= k < num && !(old(nextIdx) <= k < old(nextIdx) + |cmds|) :: desc[k] == old(desc[k])
    {
      var i := 0;
      ghost var base, idx, was := nextIdx, availIdx, desc[..];
      ghost var published := availRing[..][idx % num := base];
      SendBuf(cmds[0].data, cmds[0].size, cmds[0].flags);
      while HasNext(cmds[i].flags)
        invariant 0 <= i < |cmds| && Valid() && nextIdx == base + i + 1
        invariant forall k | base <= k <= base + i :: desc[k] == DescOf(cmds[k - base], k)
        invariant forall k | 0 <= k < num && !(base <= k <= base + i) :: desc[k] == was[k]
        invariant availRing[..] == published
        invariant availIdx == if i < |cmds| - 1 then idx else (idx + 1) % TWO16
        decreases |cmds| - i
      {
        i := i + 1;
        SendFollowUp(cmds[i]);
      }
    }

    /** Publish a chain: it takes one slot of the ring, and a device that follows it visits exactly its buffers. */
    method Send(cmds: seq<Cmd>)
      requires Valid() && IsChain(cmds) && nextIdx + |cmds| <= num
      modifies this`availIdx, this`nextIdx, desc, availRing
      ensures Valid()
      ensures View() == old(View()).(next := old(nextIdx) + |cmds|, avail := (old(availIdx) + 1) % TWO16)
      ensures availRing[..] == old(availRing[..])[old(availIdx) % num := old(nextIdx)]
      ensures forall k | 0 <= k < num && !(old(nextIdx) <= k < old(nextIdx) + |cmds|) :: desc[k] == old(desc[k])
      ensures Follow(desc[..], availRing[old(availIdx) % num], num) == Buffers(cmds)
    {
      SendLoop(cmds);
      FollowLaidOut(desc[..], old(nextIdx), cmds, num);
    }

    /** vr_poll. */
    method Poll() returns (updated: bool)
      requires Valid()
      modifies this`nextIdx, this`seenIdx, desc
      ensures Valid() && View() == PollStep(old(View())) && updated == (old(usedIdx) != old(seenIdx))
      ensures updated ==> desc[..] == old(desc[..])[0 := old(desc[0]).(len := 0, flags := 0)]
      ensures !updated ==> desc[..] == old(desc[..])
    {
      if usedIdx == seenIdx {
        return false;
      }
      seenIdx := usedIdx;
      nextIdx := 0;
      desc[0] := desc[0].(len := 0, flags := 0);
      return true;
    }
  }
}
