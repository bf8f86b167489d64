/**
 * The option each process chooses (Assignment_1/part3/driver.c): stores push a node to the front of a list under a
 * mutex, reads look for the reader's first node.
 */
module OptionList {
  import opened Common

  /** A store by a process; `parsed` is the number that sscanf found, if any. */
  datatype Store = Store(pid: int, parsed: Option<int>)

  type Entry = (int, int)

  // ---------------------------------------------------------------------------------------------
  // The list

  /** Nodes are never changed once linked. `entries` is the list from here on. */
  class Node {
    const pid: int
    const value: int
    const next: Node?
    ghost const entries: seq<Entry>

    constructor (pid: int, value: int, next: Node?)
      requires next != null ==> next.Valid()
      ensures Valid() && entries == [(pid, value)] + Entries(next)
    {
      this.pid, this.value, this.next, this.entries := pid, value, next, [(pid, value)] + Entries(next);
    }

    ghost predicate Valid()
      decreases |entries|
    {
      && entries == [(pid, value)] + Entries(next)
      && (next != null ==> next.Valid())
    }
  }

  ghost function Entries(n: Node?): seq<Entry>
  {
    if n == null then [] else n.entries
  }

  /** The value of the first entry of a process. */
  function Find(entries: seq<Entry>, pid: int): Option<int>
  {
    if entries == [] then None
    else if entries[0].0 == pid then Some(entries[0].1)
    else Find(entries[1..], pid)
  }

  class Options {
    var head: Node?
    var last: int       // the number scanned last, by any process
    ghost var history: seq<Store>

    ghost predicate Valid()
      reads this
    {
      && (head != null ==> head.Valid())
      && Entries(head) == EntriesAfter(history) && last == LastScanned(history)
    }

    constructor ()
      ensures Valid() && history == []
    {
      head, last, history := null, 0, [];
    }

    method Put(pid: int, parsed: Option<int>)
      requires Valid()
      modifies this
      ensures Valid() && history == old(history) + [Store(pid, parsed)]
    {
      if parsed.Some? {
        last := parsed.value;
      }
      head := new Node(pid, last, head);
      history := history + [Store(pid, parsed)];
    }

    /** The option of the reading process, or None if it has none: the driver then uses an unset variable. */
    method Get(pid: int) returns (value: Option<int>)
      requires Valid()
      ensures value == Seen(history, pid)
    {
      FindSeen(history, pid);
      var temp := head;
      while temp != null
        invariant temp != null ==> temp.Valid()
        invariant Find(Entries(temp), pid) == Find(Entries(head), pid)
        decreases |Entries(temp)|
      {
        assert Entries(temp)[1..] == Entries(temp.next);
        if temp.pid == pid {
          return Some(temp.value);
        }
        temp := temp.next;
      }
      return None;
    }
  }

  // ---------------------------------------------------------------------------------------------
  // What a history of stores means

  /** The number left in the driver's global variable. */
  function LastScanned(h: seq<Store>): int
  {
    if h == [] then 0
    else if h[|h| - 1].parsed.Some? then h[|h| - 1].parsed.value
    else LastScanned(h[..|h| - 1])
  }

  /** The entries after the stores, newest first. */
  function EntriesAfter(h: seq<Store>): seq<Entry>
  {
    if h == [] then [] else [(h[|h| - 1].pid, LastScanned(h))] + EntriesAfter(h[..|h| - 1])
  }

  /** Whether the process stored last at position `i`. */
  predicate LatestAt(h: seq<Store>, pid: int, i: nat)
  {
    i < |h| && h[i].pid == pid && forall k | i < k < |h| :: h[k].pid != pid
  }

  /** What a map from processes to their latest stored numbers gives, whatever the others did since. */
  function Seen(h: seq<Store>, pid: int): Option<int>
  {
    if h == [] then None
    else if h[|h| - 1].pid == pid then Some(LastScanned(h))
    else Seen(h[..|h| - 1], pid)
  }

  lemma {:induction false} FindSeen(h: seq<Store>, pid: int)
    ensures Find(EntriesAfter(h), pid) == Seen(h, pid)
  {
    if h != [] {
      var h' := h[..|h| - 1];
      FindSeen(h', pid);
      assert EntriesAfter(h)[1..] == EntriesAfter(h');
    }
  }

  /** A process sees the driver's number as it was at the process's latest store. */
  lemma {:induction false} SeenAtLatest(h: seq<Store>, pid: int, i: nat)
    requires LatestAt(h, pid, i)
    ensures Seen(h, pid) == Some(LastScanned(h[..i + 1]))
  {
    if i == |h| - 1 {
      assert h[..i + 1] == h;
    } else {
      SeenAtLatest(h[..|h| - 1], pid, i);
      assert h[..|h| - 1][..i + 1] == h[..i + 1];
    }
  }

  /** If its latest store was a number, a process sees that number. */
  lemma OwnNumber(h: seq<Store>, pid: int, i: nat)
    requires LatestAt(h, pid, i) && h[i].parsed.Some?
    ensures Seen(h, pid) == h[i].parsed
  {
    SeenAtLatest(h, pid, i);
  }

  /** Otherwise it sees the number that some process, perhaps another, stored before. */
  lemma BorrowedNumber(h: seq<Store>, pid: int, i: nat)
    requires LatestAt(h, pid, i) && h[i].parsed.None?
    ensures Seen(h, pid) == Some(LastScanned(h[..i]))
  {
    SeenAtLatest(h, pid, i);
    assert h[..i + 1][..i] == h[..i];
  }

  /** Process 2 sees the number of process 1. */
  lemma BorrowedExample()
    ensures Seen([Store(1, Some(3)), Store(2, None)], 2) == Some(3)
  {
    var h := [Store(1, Some(3)), Store(2, None)];
    BorrowedNumber(h, 2, 1);
    assert h[..1] == [Store(1, Some(3))];
  }

  lemma {:induction false} NeverStored(h: seq<Store>, pid: int)
    ensures Seen(h, pid) == None <==> forall i | 0 <= i < |h| :: h[i].pid != pid
  {
    if h != [] {
      NeverStored(h[..|h| - 1], pid);
    }
  }
}
