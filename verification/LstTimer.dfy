/**
 The ascending doubly linked list of timers, updated in place.  `nodes` is the
 list from head to tail; `tail` means something only while `head` is not null,
 because `Tick` leaves it behind when it drains the list.
 */
module LstTimer {
  import opened Sequences
  import opened SortedTimers

  class UtilTimer {
    const user: int  // user_data, as the descriptor that indexes the clients
    var expire: int
    var prev: UtilTimer?
    var next: UtilTimer?

    constructor (user: int, expire: int)
      ensures this.user == user && this.expire == expire && prev == null && next == null
    {
      this.user, this.expire := user, expire;
      prev, next := null, null;
    }
  }

  ghost function At(ns: seq<UtilTimer>, i: int): UtilTimer? {
    if 0 <= i < |ns| then ns[i] else null
  }

  /** `ns` is a null-terminated doubly linked chain without repetition. */
  ghost predicate Linked(ns: seq<UtilTimer>)
    reads ns
  {
    && (forall i, j :: 0 <= i < j < |ns| ==> ns[i] != ns[j])
    && (forall i {:trigger ns[i].next} :: 0 <= i < |ns| ==> ns[i].next == At(ns, i + 1))
    && (forall i {:trigger ns[i].prev} :: 0 <= i < |ns| ==> ns[i].prev == At(ns, i - 1))
  }

  ghost function Snapshot(ns: seq<UtilTimer>): (s: seq<Entry<UtilTimer>>)
    reads ns
    ensures |s| == |ns|
  {
    seq(|ns|, i requires 0 <= i < |ns| reads ns => Entry(ns[i], ns[i].expire))
  }

  /** The chain `ns` with its links opened at position `j` to make room for `t`. */
  ghost predicate OpenedFor(ns: seq<UtilTimer>, j: nat, t: UtilTimer)
    reads ns, t
  {
    && j <= |ns| && t !in ns
    && t.next == At(ns, j) && t.prev == At(ns, j - 1)
    && (forall i, k :: 0 <= i < k < |ns| ==> ns[i] != ns[k])
    && (forall i {:trigger ns[i].next} :: 0 <= i < |ns| ==> ns[i].next == if i + 1 == j then t else At(ns, i + 1))
    && (forall i {:trigger ns[i].prev} :: 0 <= i < |ns| ==> ns[i].prev == if i == j then t else At(ns, i - 1))
  }

  lemma LinkedIn(ns: seq<UtilTimer>, j: nat, t: UtilTimer)
    requires OpenedFor(ns, j, t)
    ensures Linked(With(ns, j, t))
  {
    var r := With(ns, j, t);
    assert forall i {:trigger r[i].next} :: 0 <= i < |r| ==> r[i].next == At(r, i + 1);
    assert forall i {:trigger r[i].prev} :: 0 <= i < |r| ==> r[i].prev == At(r, i - 1);
  }

  lemma SnapshotIn(ns: seq<UtilTimer>, j: nat, t: UtilTimer)
    requires j <= |ns|
    ensures Snapshot(With(ns, j, t)) == With(Snapshot(ns), j, Entry(t, t.expire))
  {
  }

  /** The chain `ns` with the neighbours of the node at `k` linked past it. */
  ghost predicate ClosedOver(ns: seq<UtilTimer>, k: nat)
    reads ns
  {
    && k < |ns|
    && (forall i, m :: 0 <= i < m < |ns| ==> ns[i] != ns[m])
    && (forall i {:trigger ns[i].next} :: 0 <= i < |ns| && i != k ==>
      ns[i].next == At(ns, if i + 1 == k then k + 1 else i + 1))
    && (forall i {:trigger ns[i].prev} :: 0 <= i < |ns| && i != k ==>
      ns[i].prev == At(ns, if i == k + 1 then k - 1 else i - 1))
  }

  lemma LinkedOut(ns: seq<UtilTimer>, k: nat)
    requires ClosedOver(ns, k)
    ensures Linked(Without(ns, k))
  {
    var r := Without(ns, k);
    assert forall i {:trigger r[i].next} :: 0 <= i < |r| ==> r[i].next == At(r, i + 1);
    assert forall i {:trigger r[i].prev} :: 0 <= i < |r| ==> r[i].prev == At(r, i - 1);
  }

  lemma SnapshotOut(ns: seq<UtilTimer>, k: nat)
    requires k < |ns|
    ensures Snapshot(Without(ns, k)) == Without(Snapshot(ns), k)
  {
  }

  lemma SnapshotIndex(ns: seq<UtilTimer>, k: nat)
    requires k < |ns|
    requires forall i, m :: 0 <= i < m < |ns| ==> ns[i] != ns[m]
    ensures IndexOf(Snapshot(ns), ns[k]) == k
  {
    assert Snapshot(ns)[k].timer == ns[k];
  }

  class SortTimerLst {
    var head: UtilTimer?
    var tail: UtilTimer?
    ghost var nodes: seq<UtilTimer>

    ghost predicate Valid()
      reads this, nodes
    {
      && Linked(nodes)
      && head == At(nodes, 0)
      && (nodes != [] ==> tail == nodes[|nodes| - 1])
    }

    ghost function Contents(): seq<Entry<UtilTimer>>
      reads this, nodes
    {
      Snapshot(nodes)
    }

    constructor ()
      ensures Valid() && Contents() == []
    {
      head, tail := null, null;
      nodes := [];
    }

    /** Insert a detached timer; a null argument is ignored. */
    method AddTimer(timer: UtilTimer?)
      requires Valid()
      requires timer != null ==> timer !in nodes && timer.prev == null && timer.next == null
      modifies this, nodes, timer
      ensures Valid()
      ensures timer == null ==> Contents() == old(Contents())
      ensures timer != null ==> Contents() == StableInsert(old(Contents()), Entry(timer, old(timer.expire)))
    {
      if timer == null {
        return;
      }
      if head == null {
        head, tail := timer, timer;
        nodes := [timer];
      } else if timer.expire < head.expire {
        LinkFirst(timer);
      } else {
        PlaceSkips(Contents(), 0, 1, timer.expire);
        AddAfter(timer, head, 0);
      }
    }

    method LinkFirst(timer: UtilTimer)
      requires Valid() && head != null && timer !in nodes && timer.prev == null
      modifies this, nodes, timer
      ensures Valid()
      ensures Contents() == With(old(Contents()), 0, Entry(timer, old(timer.expire)))
    {
      head.prev := timer;
      timer.next := head;
      head := timer;
      assert OpenedFor(nodes, 0, timer);
      assert Snapshot(nodes) == old(Contents());
      Admit(timer, 0);
    }

    /** The links already make room for `timer`; count it in. */
    ghost method Admit(timer: UtilTimer, j: nat)
      requires OpenedFor(nodes, j, timer)
      modifies this`nodes
      ensures nodes == With(old(nodes), j, timer) && Linked(nodes)
      ensures Snapshot(nodes) == With(old(Snapshot(nodes)), j, Entry(timer, timer.expire))
    {
      LinkedIn(nodes, j, timer);
      SnapshotIn(nodes, j, timer);
      nodes := With(nodes, j, timer);
    }

    /** The links already lead past the node at `k`; count it out. */
    ghost method Dismiss(k: nat)
      requires ClosedOver(nodes, k)
      modifies this`nodes
      ensures nodes == Without(old(nodes), k) && Linked(nodes)
      ensures Snapshot(nodes) == Without(old(Snapshot(nodes)), k)
    {
      LinkedOut(nodes, k);
      SnapshotOut(nodes, k);
      nodes := Without(nodes, k);
    }

    /** The private overload: `timer` is not linked in; scan from the node behind `start`. */
    method AddAfter(timer: UtilTimer, start: UtilTimer, ghost k: nat)
      requires Valid() && k < |nodes| && nodes[k] == start && timer !in nodes
      modifies this, nodes, timer
      ensures Valid() && head == old(head)
      ensures Contents() == InsertFrom(old(Contents()), k + 1, Entry(timer, old(timer.expire)))
    {
      var tmp := start.next;
      ghost var j := k + 1;
      while tmp != null && timer.expire >= tmp.expire
        invariant k < j <= |nodes|
        invariant tmp == At(nodes, j)
        invariant Place(Contents(), k + 1, timer.expire) == Place(Contents(), j, timer.expire)
        decreases |nodes| - j
      {
        tmp := tmp.next;
        j := j + 1;
      }
      if tmp != null {
        LinkBefore(timer, tmp, j);
      } else {
        LinkLast(timer);
      }
    }

    method LinkBefore(timer: UtilTimer, tmp: UtilTimer, ghost j: nat)
      requires Valid() && 0 < j < |nodes| && nodes[j] == tmp && timer !in nodes
      modifies this`nodes, nodes, timer
      ensures Valid() && head == old(head)
      ensures Contents() == With(old(Contents()), j, Entry(timer, old(timer.expire)))
    {
      HookBefore(timer, tmp, j);
      Admit(timer, j);
    }

    method HookBefore(timer: UtilTimer, tmp: UtilTimer, ghost j: nat)
      requires Linked(nodes) && 0 < j < |nodes| && nodes[j] == tmp && timer !in nodes
      modifies nodes, timer
      ensures OpenedFor(nodes, j, timer) && timer.expire == old(timer.expire)
      ensures Snapshot(nodes) == old(Snapshot(nodes))
    {
      assert tmp.prev == nodes[j - 1];
      timer.next := tmp;
      timer.prev := tmp.prev;
      tmp.prev.next := timer;
      tmp.prev := timer;
    }

    method LinkLast(timer: UtilTimer)
      requires Valid() && nodes != [] && timer !in nodes
      modifies this, nodes, timer
      ensures Valid() && head == old(head)
      ensures Contents() == With(old(Contents()), |old(Contents())|, Entry(timer, old(timer.expire)))
    {
      tail.next := timer;
      timer.next := null;
      timer.prev := tail;
      tail := timer;
      assert OpenedFor(nodes, |nodes|, timer);
      assert Snapshot(nodes) == old(Contents());
      Admit(timer, |nodes|);
    }

    /** Reposition a linked timer whose `expire` the caller has changed. */
    method AdjustTimer(timer: UtilTimer?)
      requires Valid() && (timer != null ==> timer in nodes)
      modifies this, nodes
      ensures Valid()
      ensures timer == null ==> Contents() == old(Contents())
      ensures timer != null ==> IndexOf(old(Contents()), timer) < |old(Contents())|
      ensures timer != null ==> Contents() == Adjust(old(Contents()), IndexOf(old(Contents()), timer))
    {
      if timer == null {
        return;
      }
      ghost var k :| 0 <= k < |nodes| && nodes[k] == timer;
      SnapshotIndex(nodes, k);
      Reposition(timer, k);
    }

    method Reposition(timer: UtilTimer, ghost k: nat)
      requires Valid() && k < |nodes| && nodes[k] == timer
      modifies this, nodes
      ensures Valid() && Contents() == Adjust(old(Contents()), k)
    {
      assert Contents()[k] == Entry(timer, timer.expire);
      var tmp := timer.next;
      if tmp == null || timer.expire < tmp.expire {
        return;
      }
      if timer == head {
        DetachHead(timer);
        AddAfter(timer, head, 0);
      } else {
        UnlinkMiddle(timer, k);
        AddAfter(timer, timer.next, k);
      }
    }

    method DetachHead(timer: UtilTimer)
      requires Valid() && timer == head && |nodes| > 1
      modifies this, nodes
      ensures Valid() && nodes == Without(old(nodes), 0) && timer !in nodes && timer.expire == old(timer.expire)
      ensures Contents() == Without(old(Contents()), 0)
    {
      UnlinkHead(timer);
      timer.next := null;
    }

    /** Unlink a linked timer; the node itself is given up by the list. */
    method DelTimer(timer: UtilTimer?)
      requires Valid() && (timer != null ==> timer in nodes)
      modifies this, nodes
      ensures Valid()
      ensures timer == null ==> Contents() == old(Contents())
      ensures timer != null ==> timer !in nodes && IndexOf(old(Contents()), timer) < |old(Contents())|
      ensures timer != null ==> Contents() == Without(old(Contents()), IndexOf(old(Contents()), timer))
    {
      if timer == null {
        return;
      }
      ghost var k :| 0 <= k < |nodes| && nodes[k] == timer;
      SnapshotIndex(nodes, k);
      if timer == head && timer == tail {
        head, tail := null, null;
        nodes := [];
      } else if timer == head {
        UnlinkHead(timer);
      } else if timer == tail {
        UnlinkTail(timer);
      } else {
        UnlinkMiddle(timer, k);
      }
    }

    method UnlinkHead(timer: UtilTimer)
      requires Valid() && timer == head && |nodes| > 1
      modifies this, nodes
      ensures Valid() && nodes == Without(old(nodes), 0) && timer.expire == old(timer.expire)
      ensures Contents() == Without(old(Contents()), 0)
    {
      head := head.next;
      head.prev := null;
      assert ClosedOver(nodes, 0);
      assert Snapshot(nodes) == old(Contents());
      Dismiss(0);
    }

    method UnlinkTail(timer: UtilTimer)
      requires Valid() && timer == tail && |nodes| > 1
      modifies this, nodes
      ensures Valid() && nodes == Without(old(nodes), |old(nodes)| - 1)
      ensures Contents() == Without(old(Contents()), |old(nodes)| - 1)
    {
      tail.prev.next := null;
      tail := tail.prev;
      assert ClosedOver(nodes, |nodes| - 1);
      assert Snapshot(nodes) == old(Contents());
      Dismiss(|nodes| - 1);
    }

    method UnlinkMiddle(timer: UtilTimer, ghost k: nat)
      requires Valid() && 0 < k < |nodes| - 1 && nodes[k] == timer
      modifies this`nodes, nodes
      ensures Valid() && nodes == Without(old(nodes), k) && timer !in nodes && timer.next == nodes[k] &&
        timer.expire == old(timer.expire)
      ensures Contents() == Without(old(Contents()), k)
    {
      Unhook(timer, k);
      Dismiss(k);
    }

    method Unhook(timer: UtilTimer, ghost k: nat)
      requires Linked(nodes) && 0 < k < |nodes| - 1 && nodes[k] == timer
      modifies nodes
      ensures ClosedOver(nodes, k) && timer.next == nodes[k + 1] && timer.expire == old(timer.expire)
      ensures Snapshot(nodes) == old(Snapshot(nodes))
    {
      timer.next.prev := timer.prev;
      timer.prev.next := timer.next;
    }

    /** Invoke and drop every timer that has expired; `fired` records the callbacks in order. */
    method Tick(now: int) returns (fired: seq<UtilTimer>)
      requires Valid()
      modifies this, nodes
      ensures Valid()
      ensures Contents() == old(Contents())[ExpiredCount(old(Contents()), now)..]
      ensures fired == Timers(old(Contents())[..ExpiredCount(old(Contents()), now)])
    {
      fired := [];
      ghost var c, n := Contents(), 0;
      if head == null {
        return;
      }
      var tmp := head;
      while tmp != null
        invariant Valid() && tmp == head && n <= |c|
        invariant nodes == old(nodes)[n..]
        invariant Contents() == c[n..] && fired == Timers(c[..n])
        invariant Place(c, 0, now) == Place(c, n, now)
        decreases |c| - n
      {
        if now < tmp.expire {
          break;
        }
        fired := fired + [tmp];
        DropHead(tmp);
        tmp := head;
        n := n + 1;
      }
    }

    method DropHead(tmp: UtilTimer)
      requires Valid() && tmp == head
      modifies this, nodes
      ensures Valid() && nodes == old(nodes)[1..] && Contents() == old(Contents())[1..]
    {
      head := tmp.next;
      if head != null {
        head.prev := null;
      }
      assert ClosedOver(nodes, 0);
      assert Snapshot(nodes) == old(Contents());
      WithoutFirst(nodes);
      WithoutFirst(Snapshot(nodes));
      Dismiss(0);
    }
  }
}
