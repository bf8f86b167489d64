/**
 * Who may write a descriptor (virtio.c): vring_send_buf fills descriptors from the next free one on, and a poll that
 * reports an update makes descriptor 0 the next free one and clears it, whatever the device still owns.
 */
module Descriptors {
  import opened Common
  import opened Requests
  import opened V = VRing

  /** What the device does during the waits of some calls, one after the other. */
  type Waits = seq<seq<Round>>

  ghost predicate AllFit(waits: Waits, n: nat)
  {
    forall j | 0 <= j < |waits| :: Shaped(waits[j], n)
  }

  predicate Positive(ns: seq<nat>)
  {
    forall j | 0 <= j < |ns| :: ns[j] > 0
  }

  /** The queues after one call. */
  ghost function Next(qs: seq<Queue>, v: nat, n: nat, rounds: seq<Round>): (r: seq<Queue>)
    requires v < |qs| && Shaped(rounds, |qs|)
    ensures |r| == |qs|
  {
    RunOnce(qs, v, n, rounds).1
  }

  /** The call's poll reported an update, and cleared descriptor 0 while the device owned it. */
  ghost predicate ClearedOwned(q: Queue)
  {
    q.pos.next == 0 && DeviceOwns(q, 0)
  }

  /** In a run of calls of `ns` descriptors on queue `v`, no descriptor that the device owns is written. */
  ghost predicate Untouched(qs: seq<Queue>, v: nat, ns: seq<nat>, waits: Waits)
    requires v < |qs| && |ns| == |waits| && AllFit(waits, |qs|)
    decreases |waits|
  {
    waits != [] ==>
      var qs' := Next(qs, v, ns[0], waits[0]);
      !WritesOwned(qs[v], ns[0]) && !ClearedOwned(qs'[v]) && Untouched(qs', v, ns[1..], waits[1..])
  }

  /**
   * Whenever a call ends with an update, nothing is left with the device; for the last call it is enough that the
   * request that has descriptor 0 is not.
   */
  ghost predicate Clean(qs: seq<Queue>, v: nat, ns: seq<nat>, waits: Waits)
    requires v < |qs| && |ns| == |waits| && AllFit(waits, |qs|)
    decreases |waits|
  {
    waits != [] ==>
      var qs' := Next(qs, v, ns[0], waits[0]);
      && (qs'[v].pos.next == 0 ==> if |waits| > 1 then qs'[v].held == map[] else !HasFirst(qs'[v]))
      && Clean(qs', v, ns[1..], waits[1..])
  }

  /** A request that has descriptor 0 is with the device. */
  ghost predicate HasFirst(q: Queue)
  {
    exists id :: id in q.held && q.held[id].lo == 0
  }

  // ---------------------------------------------------------------------------------------------
  // What a call does to the ranges

  ghost predicate Solid(q: Queue)
  {
    forall id | id in q.held :: q.held[id].lo < q.held[id].hi
  }

  /** All that the device has lies before the next free descriptor. */
  ghost predicate Below(q: Queue)
  {
    forall id | id in q.held :: q.held[id].hi <= q.pos.next
  }

  /** `q'` has some of the requests of `q`, and the same next descriptor or 0. */
  ghost predicate Lessened(q: Queue, q': Queue)
  {
    && (forall id | id in q'.held :: id in q.held && q'.held[id] == q.held[id])
    && (q'.pos.next == q.pos.next || q'.pos.next == 0)
  }

  lemma {:induction false} WaitLessens(qs: seq<Queue>, rounds: seq<Round>, v: nat)
    requires v < |qs| && Shaped(rounds, |qs|)
    ensures Lessened(qs[v], Wait(qs, rounds).1[v])
    decreases |rounds|
  {
    if rounds != [] {
      assert Lessened(qs[v], After(qs, rounds[0])[v]);
      WaitLessens(After(qs, rounds[0]), rounds[1..], v);
    }
  }

  lemma NextSolid(qs: seq<Queue>, v: nat, n: nat, rounds: seq<Round>)
    requires v < |qs| && Shaped(rounds, |qs|) && n > 0 && Solid(qs[v])
    ensures Solid(Next(qs, v, n, rounds)[v])
  {
    WaitLessens(qs[v := Publish(qs[v], n)], rounds, v);
  }

  lemma NextBelow(qs: seq<Queue>, v: nat, n: nat, rounds: seq<Round>)
    requires v < |qs| && Shaped(rounds, |qs|) && n > 0 && Below(qs[v])
    ensures var q' := Next(qs, v, n, rounds)[v]; (q'.pos.next == 0 ==> q'.held == map[]) ==> Below(q')
  {
    WaitLessens(qs[v := Publish(qs[v], n)], rounds, v);
  }

  lemma BelowSafe(q: Queue, n: nat)
    requires Below(q)
    ensures !WritesOwned(q, n)
  {
  }

  lemma FirstOwned(q: Queue)
    requires Solid(q)
    ensures DeviceOwns(q, 0) <==> HasFirst(q)
  {
  }

  lemma {:induction false} CleanUntouched(qs: seq<Queue>, v: nat, ns: seq<nat>, waits: Waits)
    requires v < |qs| && |ns| == |waits| && AllFit(waits, |qs|) && Positive(ns)
    requires Solid(qs[v]) && Below(qs[v]) && Clean(qs, v, ns, waits)
    ensures Untouched(qs, v, ns, waits)
    decreases |waits|
  {
    if waits != [] {
      var qs' := Next(qs, v, ns[0], waits[0]);
      BelowSafe(qs[v], ns[0]);
      NextSolid(qs, v, ns[0], waits[0]);
      NextBelow(qs, v, ns[0], waits[0]);
      FirstOwned(qs'[v]);
      if |waits| > 1 {
        CleanUntouched(qs', v, ns[1..], waits[1..]);
      }
    }
  }

  // ---------------------------------------------------------------------------------------------
  // The course of a run does not depend on the sizes

  /** Queues that differ in the sizes of requests only. */
  ghost predicate Alike(q: Queue, q': Queue)
  {
    && q.held.Keys == q'.held.Keys && q.published == q'.published
    && q.pos.avail == q'.pos.avail && q.pos.used == q'.pos.used && q.pos.seen == q'.pos.seen
    && (q.pos.next == 0 <==> q'.pos.next == 0)
    && forall id | id in q.held :: q.held[id].lo == 0 <==> q'.held[id].lo == 0
  }

  ghost predicate AllAlike(qs: seq<Queue>, qs': seq<Queue>)
  {
    |qs| == |qs'| && forall i | 0 <= i < |qs| :: Alike(qs[i], qs'[i])
  }

  lemma StepAlike(q: Queue, q': Queue, ids: set<nat>)
    requires Alike(q, q')
    ensures Alike(Polled(Complete(q, ids)), Polled(Complete(q', ids)))
    ensures Updated(Complete(q, ids)) == Updated(Complete(q', ids))
  {
    assert (q.held - ids).Keys == q.held.Keys - ids && (q'.held - ids).Keys == q'.held.Keys - ids;
  }

  lemma PublishAlike(q: Queue, q': Queue, n: nat, n': nat)
    requires Alike(q, q') && n > 0 && n' > 0
    ensures Alike(Publish(q, n), Publish(q', n'))
  {
    var sent, sent' := Publish(q, n), Publish(q', n');
    assert sent.held.Keys == q.held.Keys + {q.published} && sent'.held.Keys == q'.held.Keys + {q.published};
  }

  lemma RoundAlike(qs: seq<Queue>, qs': seq<Queue>, round: Round)
    requires AllAlike(qs, qs') && |round| == |qs|
    ensures AllAlike(After(qs, round), After(qs', round)) && Hit(qs, round) == Hit(qs', round)
  {
    forall i | 0 <= i < |qs|
      ensures Alike(After(qs, round)[i], After(qs', round)[i])
      ensures Updated(Complete(qs[i], round[i])) == Updated(Complete(qs'[i], round[i]))
    {
      StepAlike(qs[i], qs'[i], round[i]);
    }
  }

  lemma {:induction false} WaitAlike(qs: seq<Queue>, qs': seq<Queue>, rounds: seq<Round>)
    requires AllAlike(qs, qs') && Shaped(rounds, |qs|)
    ensures AllAlike(Wait(qs, rounds).1, Wait(qs', rounds).1)
    decreases |rounds|
  {
    if rounds != [] {
      RoundAlike(qs, qs', rounds[0]);
      WaitAlike(After(qs, rounds[0]), After(qs', rounds[0]), rounds[1..]);
    }
  }

  lemma NextAlike(qs: seq<Queue>, qs': seq<Queue>, v: nat, n: nat, n': nat, rounds: seq<Round>)
    requires AllAlike(qs, qs') && v < |qs| && Shaped(rounds, |qs|) && n > 0 && n' > 0
    ensures AllAlike(Next(qs, v, n, rounds), Next(qs', v, n', rounds))
  {
    PublishAlike(qs[v], qs'[v], n, n');
    WaitAlike(qs[v := Publish(qs[v], n)], qs'[v := Publish(qs'[v], n')], rounds);
  }

  lemma EndAlike(q: Queue, q': Queue)
    requires Alike(q, q')
    ensures (q.held == map[] <==> q'.held == map[]) && (HasFirst(q) <==> HasFirst(q'))
  {
    assert q.held == map[] <==> q.held.Keys == {};
    assert q'.held == map[] <==> q'.held.Keys == {};
    if HasFirst(q) {
      var id :| id in q.held && q.held[id].lo == 0;
      assert id in q'.held.Keys;
    }
    if HasFirst(q') {
      var id :| id in q'.held && q'.held[id].lo == 0;
      assert id in q.held.Keys;
    }
  }

  lemma {:induction false} CleanAlike(qs: seq<Queue>, qs': seq<Queue>, v: nat, ns: seq<nat>, ns': seq<nat>,
                                      waits: Waits)
    requires AllAlike(qs, qs') && v < |qs| && |ns| == |ns'| == |waits| && AllFit(waits, |qs|)
    requires Positive(ns) && Positive(ns')
    ensures Clean(qs, v, ns, waits) <==> Clean(qs', v, ns', waits)
    decreases |waits|
  {
    if waits != [] {
      var next, next' := Next(qs, v, ns[0], waits[0]), Next(qs', v, ns'[0], waits[0]);
      NextAlike(qs, qs', v, ns[0], ns'[0], waits[0]);
      EndAlike(next[v], next'[v]);
      CleanAlike(next, next', v, ns[1..], ns'[1..], waits[1..]);
    }
  }

  // ---------------------------------------------------------------------------------------------
  // The theorem

  /** If it is not clean, some sizes of requests have the driver write a descriptor that the device owns. */
  lemma {:induction false} UncleanTouched(qs: seq<Queue>, v: nat, ns: seq<nat>, waits: Waits) returns (ns': seq<nat>)
    requires v < |qs| && |ns| == |waits| && AllFit(waits, |qs|) && Positive(ns)
    requires Solid(qs[v]) && !Clean(qs, v, ns, waits)
    ensures |ns'| == |waits| && Positive(ns') && !Untouched(qs, v, ns', waits)
    decreases |waits|
  {
    var qs' := Next(qs, v, ns[0], waits[0]);
    NextSolid(qs, v, ns[0], waits[0]);
    FirstOwned(qs'[v]);
    if qs'[v].pos.next == 0 && |waits| > 1 && qs'[v].held != map[] {
      var id :| id in qs'[v].held;
      ns' := ns[1 := qs'[v].held[id].hi];
      LongTouches(qs'[v], id);
      assert ns'[1..][0] == qs'[v].held[id].hi;
      assert waits[1..] != [];
    } else if qs'[v].pos.next == 0 && |waits| == 1 && HasFirst(qs'[v]) {
      ns' := ns;
    } else {
      var more := UncleanTouched(qs', v, ns[1..], waits[1..]);
      ns' := [ns[0]] + more;
      assert ns'[1..] == more;
    }
  }

  lemma LongTouches(q: Queue, id: nat)
    requires Solid(q) && q.pos.next == 0 && id in q.held
    ensures WritesOwned(q, q.held[id].hi)
  {
    assert DeviceOwns(q, q.held[id].lo);
  }

  /**
   * From a quiet queue, for a given course of the waits: no descriptor that the device owns is written, whatever the
   * sizes of the requests, if and only if no call ends with an update while the device has a request left; for the
   * last call, while it has the request with descriptor 0.
   */
  lemma OwnedUntouched(qs: seq<Queue>, v: nat, ns: seq<nat>, waits: Waits)
    requires v < |qs| && Quiet(qs[v]) && |ns| == |waits| && AllFit(waits, |qs|) && Positive(ns)
    ensures (forall ns' | |ns'| == |waits| && Positive(ns') :: Untouched(qs, v, ns', waits))
            <==> Clean(qs, v, ns, waits)
  {
    if Clean(qs, v, ns, waits) {
      forall ns' | |ns'| == |waits| && Positive(ns') ensures Untouched(qs, v, ns', waits) {
        CleanAlike(qs, qs, v, ns, ns', waits);
        CleanUntouched(qs, v, ns', waits);
      }
    } else {
      var ns' := UncleanTouched(qs, v, ns, waits);
    }
  }

  // ---------------------------------------------------------------------------------------------
  // The end of the table

  function Sum(ns: seq<nat>): nat
  {
    if ns == [] then 0 else ns[0] + Sum(ns[1..])
  }

  /** No request writes beyond a table of `num` descriptors. */
  ghost predicate InTable(qs: seq<Queue>, v: nat, ns: seq<nat>, waits: Waits, num: nat)
    requires v < |qs| && |ns| == |waits| && AllFit(waits, |qs|)
    decreases |waits|
  {
    waits != [] ==>
      qs[v].pos.next + ns[0] <= num && InTable(Next(qs, v, ns[0], waits[0]), v, ns[1..], waits[1..], num)
  }

  /** No call but the last sees an update of the queue: all time out, or end on another queue. */
  ghost predicate Silent(qs: seq<Queue>, v: nat, ns: seq<nat>, waits: Waits)
    requires v < |qs| && |ns| == |waits| && AllFit(waits, |qs|)
    decreases |waits|
  {
    |waits| > 1 ==>
      var qs' := Next(qs, v, ns[0], waits[0]);
      qs'[v].pos.next != 0 && Silent(qs', v, ns[1..], waits[1..])
  }

  /** The next free descriptor only moves on until an update is seen: then the table must hold all the requests. */
  lemma {:induction false} TimeoutsOverrun(qs: seq<Queue>, v: nat, ns: seq<nat>, waits: Waits, num: nat)
    requires v < |qs| && |ns| == |waits| && AllFit(waits, |qs|) && Silent(qs, v, ns, waits) && waits != []
    ensures InTable(qs, v, ns, waits, num) <==> qs[v].pos.next + Sum(ns) <= num
    decreases |waits|
  {
    var qs' := Next(qs, v, ns[0], waits[0]);
    WaitLessens(qs[v := Publish(qs[v], ns[0])], waits[0], v);
    if |waits| > 1 {
      TimeoutsOverrun(qs', v, ns[1..], waits[1..], num);
    } else {
      assert ns[1..] == [] && waits[1..] == [];
    }
  }

  // ---------------------------------------------------------------------------------------------
  // On the ring itself

  /** The ring is where the queue says. */
  ghost predicate Matches(r: V.VRing, q: Queue)
    reads r
  {
    r.Valid() && r.View() == q.pos
  }

  /** The rounds of a device with one queue. */
  function OneQueue(rounds: seq<set<nat>>): seq<Round>
  {
    seq(|rounds|, k requires 0 <= k < |rounds| => [rounds[k]])
  }

  /** `used` are the values of the device's index that the polls find, until one reports an update. */
  ghost predicate Reports(q: Queue, rounds: seq<set<nat>>, used: seq<u16>)
    decreases |rounds|
  {
    && |used| == |rounds|
    && (rounds != [] ==>
          var q' := Complete(q, rounds[0]);
          used[0] == q'.pos.used && (Updated(q') || Reports(Polled(q'), rounds[1..], used[1..])))
  }

  lemma OneQueueWait(q: Queue, rounds: seq<set<nat>>)
    requires rounds != []
    ensures Shaped(OneQueue(rounds), 1) && Shaped(OneQueue(rounds[1..]), 1)
    ensures var q' := Complete(q, rounds[0]);
            Wait([q], OneQueue(rounds))
            == if Updated(q') then (true, [Polled(q')]) else Wait([Polled(q')], OneQueue(rounds[1..]))
  {
    var q' := Complete(q, rounds[0]);
    assert OneQueue(rounds)[0] == [rounds[0]] && OneQueue(rounds)[1..] == OneQueue(rounds[1..]);
    assert After([q], [rounds[0]]) == [Polled(q')];
    assert Updated(q') ==> Updated(Complete([q][0], [rounds[0]][0]));
  }

  /** One poll of the ring, after the device has written its index. */
  method PollOnce(r: V.VRing, used: u16, ghost q: Queue, ghost ids: set<nat>) returns (updated: bool)
    requires Matches(r, q) && used == Complete(q, ids).pos.used
    modifies r`nextIdx, r`seenIdx, r`usedIdx, r.desc
    ensures updated == Updated(Complete(q, ids)) && Matches(r, Polled(Complete(q, ids)))
    ensures forall k | 0 <= k < r.num && (k == 0 ==> !updated) :: r.desc[k] == old(r.desc[k])
  {
    r.usedIdx := used;
    ghost var before := r.desc[..];
    updated := r.Poll();
    assert forall k | 0 <= k < r.num && (k == 0 ==> !updated) :: r.desc[..][k] == before[k];
  }

  /**
   * virtio_run on a device with one queue, in whatever state earlier calls have left it. The ring ends where the
   * protocol says; of the descriptors only the request's own are written, and descriptor 0 if the wait succeeds; until
   * then the published chain is intact. So a call that keeps to the two conditions of `Untouched` leaves what the
   * device owns alone.
   */
  method RunRing(r: V.VRing, cmds: seq<Cmd>, used: seq<u16>, ghost q: Queue, ghost rounds: seq<set<nat>>)
    returns (rc: int, ghost q': Queue)
    requires Matches(r, q) && IsChain(cmds) && r.nextIdx + |cmds| <= r.num && Reports(Publish(q, |cmds|), rounds, used)
    modifies r`availIdx, r`nextIdx, r`seenIdx, r`usedIdx, r.desc, r.availRing
    ensures Shaped(OneQueue(rounds), 1) && (rc == 0, [q']) == Wait([Publish(q, |cmds|)], OneQueue(rounds))
    ensures Matches(r, q') && (rc == 0 || rc == 1)
    ensures forall k | 0 <= k < r.num && !(old(r.nextIdx) <= k < old(r.nextIdx) + |cmds|) && (k == 0 ==> rc != 0) ::
              r.desc[k] == old(r.desc[k])
    ensures rc != 0 ==> Follow(r.desc[..], r.availRing[old(r.availIdx) % r.num], r.num) == Buffers(cmds)
    ensures !WritesOwned(q, |cmds|) && !ClearedOwned(q') ==>
              forall k | 0 <= k < r.num && DeviceOwns(q, k) && DeviceOwns(q', k) :: r.desc[k] == old(r.desc[k])
  {
    ghost var slot := r.availIdx % r.num;
    r.Send(cmds);
    ghost var chain, head := r.desc[..], r.availRing[slot];
    q' := Publish(q, |cmds|);
    for k := 0 to |used|
      invariant Matches(r, q') && Reports(q', rounds[k..], used[k..])
      invariant Shaped(OneQueue(rounds[k..]), 1) && Shaped(OneQueue(rounds), 1)
      invariant Wait([q'], OneQueue(rounds[k..])) == Wait([Publish(q, |cmds|)], OneQueue(rounds))
      invariant r.desc[..] == chain && r.availRing[slot] == head
    {
      assert rounds[k..][0] == rounds[k] && rounds[k..][1..] == rounds[k + 1..];
      assert used[k..][0] == used[k] && used[k..][1..] == used[k + 1..];
      OneQueueWait(q', rounds[k..]);
      var updated := PollOnce(r, used[k], q', rounds[k]);
      q' := Polled(Complete(q', rounds[k]));
      if updated {
        return 0, q';
      }
      assert r.desc[..] == chain;
    }
    return 1, q';
  }
}
