/**
 * The request protocol over the virtqueues (virtio.c, vring_wait_reply and virtio_run): the driver publishes one
 * request, then polls every queue of the device until one of them reports an update or the time is up.
 */
module Requests {
  import opened Common
  import opened V = VRing

  datatype Range = Range(lo: nat, hi: nat)

  /**
   * One queue. `pos` holds the 16-bit indices; `published` counts without wrapping, and `held` gives the descriptors of
   * the requests that the device has not completed. Requests are numbered as they are published.
   */
  datatype Queue = Queue(pos: Position, published: nat, held: map<nat, Range>)

  ghost predicate Counted(q: Queue)
  {
    && (forall id | id in q.held :: id < q.published) && |q.held| <= q.published
    && q.pos.avail == q.published % TWO16 && q.pos.used == (q.published - |q.held|) % TWO16
  }

  /** Nothing outstanding and nothing unseen. */
  ghost predicate Idle(q: Queue)
  {
    Counted(q) && q.held == map[] && q.pos.seen == q.pos.used
  }

  ghost predicate Quiet(q: Queue)
  {
    Idle(q) && q.pos.next == 0
  }

  ghost predicate AllCounted(qs: seq<Queue>)
  {
    forall i | 0 <= i < |qs| :: Counted(qs[i])
  }

  ghost predicate AllIdle(qs: seq<Queue>)
  {
    forall i | 0 <= i < |qs| :: Idle(qs[i])
  }

  /** Publishing a chain of `n` descriptors. */
  function Publish(q: Queue, n: nat): Queue
  {
    Queue(q.pos.(next := q.pos.next + n, avail := (q.pos.avail + 1) % TWO16), q.published + 1,
          q.held[q.published := Range(q.pos.next, q.pos.next + n)])
  }

  /** The device completes some of the requests it has, in any order. */
  function Complete(q: Queue, ids: set<nat>): Queue
  {
    q.(pos := q.pos.(used := (q.pos.used + |q.held.Keys * ids|) % TWO16), held := q.held - ids)
  }

  predicate Updated(q: Queue) { q.pos.used != q.pos.seen }

  function Polled(q: Queue): Queue { q.(pos := PollStep(q.pos)) }

  /** What the device completes on each queue up to the moment it is polled. */
  type Round = seq<set<nat>>

  ghost predicate Shaped(rounds: seq<Round>, n: nat)
  {
    forall k | 0 <= k < |rounds| :: |rounds[k]| == n
  }

  function After(qs: seq<Queue>, round: Round): (r: seq<Queue>)
    requires |round| == |qs|
    ensures |r| == |qs|
  {
    seq(|qs|, i requires 0 <= i < |qs| => Polled(Complete(qs[i], round[i])))
  }

  ghost predicate Hit(qs: seq<Queue>, round: Round)
    requires |round| == |qs|
  {
    exists i :: 0 <= i < |qs| && Updated(Complete(qs[i], round[i]))
  }

  /** The wait: whether it succeeds within the rounds of polls that fit in the time, and the queues after it. */
  ghost function Wait(qs: seq<Queue>, rounds: seq<Round>): (r: (bool, seq<Queue>))
    requires Shaped(rounds, |qs|)
    ensures |r.1| == |qs|
    decreases |rounds|
  {
    if rounds == [] then (false, qs)
    else if Hit(qs, rounds[0]) then (true, After(qs, rounds[0]))
    else Wait(After(qs, rounds[0]), rounds[1..])
  }

  /** Poll all queues once. */
  method PollAll(qs: seq<Queue>, round: Round) returns (r: nat, qs': seq<Queue>)
    requires |round| == |qs|
    ensures qs' == After(qs, round) && (r > 0 <==> Hit(qs, round))
  {
    r, qs' := 0, qs;
    for i := 0 to |qs|
      invariant |qs'| == |qs| && forall k | 0 <= k < i :: qs'[k] == Polled(Complete(qs[k], round[k]))
      invariant forall k | i <= k < |qs| :: qs'[k] == qs[k]
      invariant r > 0 <==> exists k :: 0 <= k < i && Updated(Complete(qs[k], round[k]))
    {
      var q := Complete(qs'[i], round[i]);
      if Updated(q) {
        r := r + 1;
      }
      qs' := qs'[i := Polled(q)];
    }
  }

  /** vring_wait_reply: 0 on success, 1 on timeout. */
  method WaitReply(qs: seq<Queue>, rounds: seq<Round>) returns (rc: int, qs': seq<Queue>)
    requires Shaped(rounds, |qs|)
    ensures (rc == 0, qs') == Wait(qs, rounds) && (rc == 0 || rc == 1)
  {
    qs' := qs;
    var k := 0;
    while k < |rounds|
      invariant 0 <= k <= |rounds| && |qs'| == |qs| && Shaped(rounds[k..], |qs|)
      invariant Wait(qs', rounds[k..]) == Wait(qs, rounds)
    {
      assert rounds[k..][0] == rounds[k] && rounds[k..][1..] == rounds[k + 1..];
      var r: nat;
      r, qs' := PollAll(qs', rounds[k]);
      if r > 0 {
        return 0, qs';
      }
      k := k + 1;
    }
    return 1, qs';
  }

  // ---------------------------------------------------------------------------------------------
  // What a successful wait means

  lemma RemoveCard(m: map<nat, Range>, ids: set<nat>)
    ensures |m - ids| == |m| - |m.Keys * ids| && |m.Keys * ids| <= |m|
  {
    assert (m - ids).Keys == m.Keys - ids;
    assert |m.Keys - ids| == |m.Keys| - |m.Keys * ids|;
  }

  lemma AddCard(m: map<nat, Range>, id: nat, r: Range)
    requires id !in m
    ensures |m[id := r]| == |m| + 1
  {
    assert m[id := r].Keys == m.Keys + {id};
  }

  lemma Wraps(x: nat, n: nat)
    ensures (x % TWO16 + n) % TWO16 == (x + n) % TWO16
    ensures 0 < n < TWO16 ==> (x + n) % TWO16 != x % TWO16
  {
  }

  lemma CompleteCounts(q: Queue, ids: set<nat>)
    requires Counted(q)
    ensures Counted(Complete(q, ids))
  {
    RemoveCard(q.held, ids);
    Wraps(q.published - |q.held|, |q.held.Keys * ids|);
  }

  lemma PublishCounts(q: Queue, n: nat)
    requires Counted(q)
    ensures Counted(Publish(q, n))
  {
    AddCard(q.held, q.published, Range(q.pos.next, q.pos.next + n));
    Wraps(q.published, 1);
  }

  lemma NoneHeld(m: map<nat, Range>, ids: set<nat>)
    requires m.Keys !! ids
    ensures |m.Keys * ids| == 0 && m - ids == m
  {
    assert m.Keys * ids == {};
  }

  /** Queues with nothing outstanding do not move. */
  lemma IdleStays(q: Queue, ids: set<nat>)
    requires Idle(q)
    ensures Complete(q, ids) == q && !Updated(q) && Polled(q) == q
  {
    NoneHeld(q.held, ids);
  }

  /** The device does nothing for the queue. */
  lemma NothingDone(q: Queue, ids: set<nat>)
    requires Counted(q) && q.held.Keys !! ids
    ensures Complete(q, ids) == q
  {
    NoneHeld(q.held, ids);
  }

  lemma OneHeld(m: map<nat, Range>, id: nat, ids: set<nat>)
    requires id in m && m.Keys * ids == {id}
    ensures |m.Keys * ids| == 1
  {
  }

  /** The reply to one request is always seen: one step of a 16-bit index is never zero. */
  lemma OneReplySeen(q: Queue, id: nat, ids: set<nat>)
    requires Counted(q) && q.pos.seen == q.pos.used && id in q.held && q.held.Keys * ids == {id}
    ensures Updated(Complete(q, ids))
  {
    OneHeld(q.held, id, ids);
    Wraps(q.published - |q.held|, 1);
  }

  /** An idle queue after publishing: the reply is seen when it comes, and leaves the queue quiet. */
  lemma ReplyComes(q: Queue, n: nat, ids: set<nat>)
    requires Idle(q) && q.published in ids
    ensures var q' := Complete(Publish(q, n), ids);
            Updated(q') && Quiet(Polled(q')) && Polled(q').published == q.published + 1
  {
    var sent := Publish(q, n);
    PublishCounts(q, n);
    CompleteCounts(sent, ids);
    OnlyNew(q.held, q.published, Range(q.pos.next, q.pos.next + n), ids);
    OneReplySeen(sent, q.published, ids);
    PolledQuiet(Complete(sent, ids));
  }

  lemma PolledQuiet(q: Queue)
    requires Counted(q) && q.held == map[] && Updated(q)
    ensures Quiet(Polled(q)) && Polled(q).published == q.published
  {
  }

  lemma OnlyNew(m: map<nat, Range>, id: nat, r: Range, ids: set<nat>)
    requires m == map[] && id in ids
    ensures m[id := r].Keys * ids == {id} && m[id := r] - ids == map[]
  {
  }

  /** And not before. */
  lemma ReplyMissing(q: Queue, n: nat, ids: set<nat>)
    requires Idle(q) && q.published !in ids
    ensures var sent := Publish(q, n); Complete(sent, ids) == sent && !Updated(sent) && Polled(sent) == sent
  {
    PublishCounts(q, n);
    assert Publish(q, n).held.Keys == {q.published};
    NothingDone(Publish(q, n), ids);
  }

  /** The device completes request `id` of queue `v` in one of the rounds. */
  ghost predicate Answered(rounds: seq<Round>, v: nat, id: nat)
  {
    exists k :: 0 <= k < |rounds| && v < |rounds[k]| && id in rounds[k][v]
  }

  lemma AnsweredCons(rounds: seq<Round>, v: nat, id: nat)
    requires rounds != [] && v < |rounds[0]|
    ensures Answered(rounds, v, id) <==> id in rounds[0][v] || Answered(rounds[1..], v, id)
  {
    assert forall k | 0 < k < |rounds| :: rounds[k] == rounds[1..][k - 1];
  }

  /** One round after publishing on queue `v` of a device whose queues were all idle. */
  lemma OneRound(qs: seq<Queue>, v: nat, n: nat, round: Round)
    requires v < |qs| == |round| && AllIdle(qs)
    ensures var sent, id := qs[v := Publish(qs[v], n)], qs[v].published;
            && (Hit(sent, round) <==> id in round[v])
            && After(sent, round) == if id in round[v] then qs[v := Polled(Complete(sent[v], round[v]))] else sent
  {
    var sent := qs[v := Publish(qs[v], n)];
    forall i | 0 <= i < |qs| && i != v
      ensures Polled(Complete(sent[i], round[i])) == qs[i] && !Updated(Complete(sent[i], round[i]))
    {
      IdleStays(qs[i], round[i]);
    }
    if qs[v].published in round[v] {
      ReplyComes(qs[v], n, round[v]);
      assert Updated(Complete(sent[v], round[v]));
    } else {
      ReplyMissing(qs[v], n, round[v]);
    }
  }

  /** After publishing on idle queues, the wait succeeds if and only if the request is answered; then all is quiet. */
  lemma {:induction false} IdleWait(qs: seq<Queue>, v: nat, n: nat, rounds: seq<Round>)
    requires v < |qs| && AllIdle(qs) && Shaped(rounds, |qs|)
    ensures var sent, id := qs[v := Publish(qs[v], n)], qs[v].published;
            var (ok, qs') := Wait(sent, rounds);
            && (ok <==> Answered(rounds, v, id))
            && (ok ==> Quiet(qs'[v]) && qs'[v].published == id + 1 && qs' == qs[v := qs'[v]])
            && (!ok ==> qs' == sent && id in qs'[v].held)
    decreases |rounds|
  {
    if rounds != [] {
      OneRound(qs, v, n, rounds[0]);
      if qs[v].published in rounds[0][v] {
        ReplyComes(qs[v], n, rounds[0][v]);
      }
      IdleWait(qs, v, n, rounds[1..]);
      AnsweredCons(rounds, v, qs[v].published);
    }
  }

  /** Nothing happens but that the device completes request `id` of queue `i`. */
  function OnlyOne(n: nat, i: nat, ids: set<nat>): Round
  {
    seq(n, k => if k == i then ids else {})
  }

  /** A wait that ends in its first round, on queue `i`. */
  lemma EndsAtOnce(qs: seq<Queue>, i: nat, ids: set<nat>)
    requires i < |qs| && Updated(Complete(qs[i], ids))
    ensures var round := OnlyOne(|qs|, i, ids);
            Shaped([round], |qs|) && Wait(qs, [round]) == (true, After(qs, round))
  {
    var round := OnlyOne(|qs|, i, ids);
    assert Updated(Complete(qs[i], round[i]));
    assert [round][0] == round;
  }

  /** A queue that is not idle can be updated without its request `id`. */
  lemma MovesWithout(q: Queue, id: nat) returns (ids: set<nat>)
    requires Counted(q) && (q.pos.seen == q.pos.used ==> exists x :: x in q.held && x != id)
    ensures Updated(Complete(q, ids)) && id !in ids
  {
    if Updated(q) {
      ids := {};
      NothingDone(q, ids);
    } else {
      var other :| other in q.held && other != id;
      ids := {other};
      OneReplySeen(q, other, ids);
    }
  }

  /** A queue that is not idle lets the wait succeed at once, without the new request. */
  lemma FalseSuccess(qs: seq<Queue>, v: nat, n: nat, i: nat) returns (rounds: seq<Round>)
    requires v < |qs| && i < |qs| && AllCounted(qs) && !Idle(qs[i])
    ensures Shaped(rounds, |qs|)
    ensures var (ok, qs') := Wait(qs[v := Publish(qs[v], n)], rounds); ok && qs[v].published in qs'[v].held
  {
    var sent, id := qs[v := Publish(qs[v], n)], qs[v].published;
    PublishCounts(qs[v], n);
    var ids;
    if i == v {
      StillOld(qs[v], n);
      ids := MovesWithout(sent[i], id);
    } else {
      ids := MovesOther(sent[i]);
    }
    EndsAtOnce(sent, i, ids);
    rounds := [OnlyOne(|qs|, i, ids)];
    assert After(sent, rounds[0])[v] == Polled(Complete(sent[v], rounds[0][v]));
    assert id in sent[v].held && id !in rounds[0][v];
  }

  /** Publishing on a queue that is not idle leaves something old on it. */
  lemma StillOld(q: Queue, n: nat)
    requires Counted(q) && !Idle(q)
    ensures var sent := Publish(q, n);
            sent.pos.seen == sent.pos.used ==> exists x :: x in sent.held && x != q.published
  {
    if q.pos.seen == q.pos.used {
      var x :| x in q.held;
      assert x in Publish(q, n).held && x != q.published;
    }
  }

  lemma MovesOther(q: Queue) returns (ids: set<nat>)
    requires Counted(q) && !Idle(q)
    ensures Updated(Complete(q, ids))
  {
    if Updated(q) {
      ids := {};
      NothingDone(q, ids);
    } else {
      var x :| x in q.held;
      ids := {x};
      OneReplySeen(q, x, ids);
    }
  }

  /**
   * Whatever the device does, a successful wait means that the request just published is complete: this holds if and
   * only if nothing was outstanding or unseen on any queue before the call.
   */
  lemma SuccessMeansDone(qs: seq<Queue>, v: nat, n: nat)
    requires v < |qs| && AllCounted(qs)
    ensures (forall rounds | Shaped(rounds, |qs|) ::
               Wait(qs[v := Publish(qs[v], n)], rounds).0 ==>
                 qs[v].published !in Wait(qs[v := Publish(qs[v], n)], rounds).1[v].held)
            <==> AllIdle(qs)
  {
    if AllIdle(qs) {
      forall rounds | Shaped(rounds, |qs|) && Wait(qs[v := Publish(qs[v], n)], rounds).0
        ensures qs[v].published !in Wait(qs[v := Publish(qs[v], n)], rounds).1[v].held
      {
        IdleWait(qs, v, n, rounds);
      }
    } else {
      var i :| 0 <= i < |qs| && !Idle(qs[i]);
      var rounds := FalseSuccess(qs, v, n, i);
    }
  }

  // ---------------------------------------------------------------------------------------------
  // Runs of requests

  /** One call of virtio_run: the result of the wait is ignored. */
  ghost function RunOnce(qs: seq<Queue>, v: nat, n: nat, rounds: seq<Round>): (r: (bool, seq<Queue>))
    requires v < |qs| && Shaped(rounds, |qs|)
    ensures |r.1| == |qs|
  {
    Wait(qs[v := Publish(qs[v], n)], rounds)
  }

  method VirtioRun(qs: seq<Queue>, v: nat, n: nat, rounds: seq<Round>) returns (rc: int, qs': seq<Queue>)
    requires v < |qs| && Shaped(rounds, |qs|)
    ensures (rc == 0, qs') == RunOnce(qs, v, n, rounds)
    ensures AllIdle(qs) ==> (Quiet(qs'[v]) <==> Answered(rounds, v, qs[v].published))
  {
    rc, qs' := WaitReply(qs[v := Publish(qs[v], n)], rounds);
    if AllIdle(qs) {
      IdleWait(qs, v, n, rounds);
    }
  }

  /** One request: how many descriptors, and what the device does while it is waited for. */
  datatype Request = Request(n: nat, rounds: seq<Round>)

  ghost predicate AllShaped(rs: seq<Request>, n: nat)
  {
    forall j | 0 <= j < |rs| :: Shaped(rs[j].rounds, n)
  }

  /** Before, between and after the requests all indices of the queue agree and the device owns no descriptor of it. */
  ghost predicate QuietThroughout(qs: seq<Queue>, v: nat, rs: seq<Request>)
    requires v < |qs| && AllShaped(rs, |qs|)
    decreases |rs|
  {
    && Quiet(qs[v])
    && (rs != [] ==> QuietThroughout(RunOnce(qs, v, rs[0].n, rs[0].rounds).1, v, rs[1..]))
  }

  /** Requests numbered from `id` on are answered, each while it is waited for. */
  ghost predicate AllAnswered(rs: seq<Request>, v: nat, id: nat)
    decreases |rs|
  {
    rs != [] ==> Answered(rs[0].rounds, v, id) && AllAnswered(rs[1..], v, id + 1)
  }

  lemma {:induction false} AllAnsweredIs(rs: seq<Request>, v: nat, id: nat)
    ensures AllAnswered(rs, v, id) <==> forall j | 0 <= j < |rs| :: Answered(rs[j].rounds, v, id + j)
    decreases |rs|
  {
    if rs != [] {
      var rest := rs[1..];
      AllAnsweredIs(rest, v, id + 1);
      if AllAnswered(rs, v, id) {
        forall j | 0 <= j < |rs| ensures Answered(rs[j].rounds, v, id + j) {
          assert j > 0 ==> Answered(rest[j - 1].rounds, v, id + 1 + (j - 1));
        }
      } else if Answered(rs[0].rounds, v, id) {
        var j :| 0 <= j < |rest| && !Answered(rest[j].rounds, v, id + 1 + j);
        assert !Answered(rs[j + 1].rounds, v, id + (j + 1));
      } else {
        assert !Answered(rs[0].rounds, v, id + 0);
      }
    }
  }

  /** One request on idle queues. */
  lemma OneRequest(qs: seq<Queue>, v: nat, n: nat, rounds: seq<Round>)
    requires v < |qs| && AllIdle(qs) && Shaped(rounds, |qs|)
    ensures var qs', id := RunOnce(qs, v, n, rounds).1, qs[v].published;
            && (Answered(rounds, v, id) ==> AllIdle(qs') && Quiet(qs'[v]) && qs'[v].published == id + 1)
            && (!Answered(rounds, v, id) ==> !Quiet(qs'[v]))
  {
    IdleWait(qs, v, n, rounds);
  }

  /** A run is quiet throughout if and only if every request is answered while it is waited for. */
  lemma {:induction false} AnsweredRuns(qs: seq<Queue>, v: nat, rs: seq<Request>)
    requires v < |qs| && AllIdle(qs) && Quiet(qs[v]) && AllShaped(rs, |qs|)
    ensures QuietThroughout(qs, v, rs) <==> AllAnswered(rs, v, qs[v].published)
    decreases |rs|
  {
    if rs != [] {
      var qs', id := RunOnce(qs, v, rs[0].n, rs[0].rounds).1, qs[v].published;
      OneRequest(qs, v, rs[0].n, rs[0].rounds);
      if Answered(rs[0].rounds, v, id) {
        AnsweredRuns(qs', v, rs[1..]);
      }
    }
  }

  /** Descriptor `k` belongs to a request the device has not completed. */
  ghost predicate DeviceOwns(q: Queue, k: nat)
  {
    exists id :: id in q.held && q.held[id].lo <= k < q.held[id].hi
  }

  /** The next request, of `n` descriptors, writes one that the device owns. */
  ghost predicate WritesOwned(q: Queue, n: nat)
  {
    exists k :: q.pos.next <= k < q.pos.next + n && DeviceOwns(q, k)
  }

  /**
   * The failure, on any queue that is quiet: the first request, of `n` descriptors, times out; the wait for the second
   * succeeds when the first is answered, and the second is still with the device. A third request writes descriptors of
   * the second if and only if it is longer than the first was.
   */
  lemma StaleReply(qs: seq<Queue>, v: nat, n: nat, n': nat)
    requires v < |qs| && AllIdle(qs) && Quiet(qs[v]) && n' > 0
    ensures var none, late := OnlyOne(|qs|, v, {}), OnlyOne(|qs|, v, {qs[v].published});
            && Shaped([none], |qs|) && Shaped([late], |qs|)
            && var (ok, qs1) := RunOnce(qs, v, n, [none]);
               var (ok', qs2) := RunOnce(qs1, v, n', [late]);
               && !ok && ok' && qs1[v].published in qs2[v].held && qs2[v].pos.next == 0
               && forall m: nat :: WritesOwned(qs2[v], m) <==> m > n
  {
    var none, late := OnlyOne(|qs|, v, {}), OnlyOne(|qs|, v, {qs[v].published});
    assert forall k | 0 <= k < 1 :: [none][k] == none;
    IdleWait(qs, v, n, [none]);
    var qs1 := RunOnce(qs, v, n, [none]).1;
    StaleQueue(qs[v], n, n');
    var sent := qs1[v := Publish(qs1[v], n')];
    EndsAtOnce(sent, v, {qs[v].published});
  }

  lemma StaleQueue(q: Queue, n: nat, n': nat)
    requires Quiet(q) && n' > 0
    ensures var late := Complete(Publish(Publish(q, n), n'), {q.published});
            && Updated(late) && q.published + 1 in Polled(late).held && Polled(late).pos.next == 0
            && forall m: nat :: WritesOwned(Polled(late), m) <==> m > n
  {
    var late := Complete(Publish(Publish(q, n), n'), {q.published});
    StaleSeen(q, n, n');
    TwoHeld(q.held, q.published, Range(0, n), Range(n, n + n'));
    forall m: nat ensures WritesOwned(Polled(late), m) <==> m > n {
      LateOwned(Polled(late), q.published + 1, n, n', m);
    }
  }

  lemma StaleSeen(q: Queue, n: nat, n': nat)
    requires Quiet(q)
    ensures Updated(Complete(Publish(Publish(q, n), n'), {q.published}))
  {
    PublishCounts(q, n);
    PublishCounts(Publish(q, n), n');
    TwoHeld(q.held, q.published, Range(0, n), Range(n, n + n'));
    OneReplySeen(Publish(Publish(q, n), n'), q.published, {q.published});
  }

  lemma LateOwned(late: Queue, id: nat, n: nat, n': nat, m: nat)
    requires late.pos.next == 0 && late.held == map[id := Range(n, n + n')] && n' > 0
    ensures WritesOwned(late, m) <==> m > n
  {
    if m > n {
      assert id in late.held && DeviceOwns(late, n);
    }
  }

  lemma TwoHeld(m: map<nat, Range>, id: nat, r: Range, r': Range)
    requires m == map[]
    ensures m[id := r][id + 1 := r'] - {id} == map[id + 1 := r']
    ensures m[id := r][id + 1 := r'].Keys * {id} == {id}
  {
  }
}
