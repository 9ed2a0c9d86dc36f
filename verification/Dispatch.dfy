/**
 The parent's side of the process pool: round-robin choice of a child that is alive and not
 busy, busy flags, release notices and the reaping of children.
 */
module Dispatch {

  /** Child `i` can be given a connection. */
  predicate Free(pids: seq<int>, used: seq<int>, i: nat)
    requires i < |pids| == |used|
  {
    pids[i] != -1 && used[i] != 1
  }

  /** The index `d` places after `start` on a ring of `n`. */
  function At(start: nat, d: nat, n: nat): (i: nat)
    requires start < n && d <= n
    ensures i < n
  {
    if start + d < n then start + d else start + d - n
  }

  lemma RingStep(i: nat, n: nat)
    requires i < n
    ensures (i + 1) % n == if i + 1 == n then 0 else i + 1
  {
  }

  /** How many places `j` lies after `start` on the ring. */
  function Distance(start: nat, j: nat, n: nat): (d: nat)
    requires start < n && j < n
    ensures d < n && At(start, d, n) == j
  {
    if start <= j then j - start else j + n - start
  }

  /** Where the search that has passed `d` busy children stops. */
  function Scan(pids: seq<int>, used: seq<int>, start: nat, d: nat): (i: nat)
    requires |pids| == |used| && start < |pids| && d <= |pids|
    ensures i < |pids|
    decreases |pids| - d
  {
    if d == |pids| then start
    else if Free(pids, used, At(start, d, |pids|)) then At(start, d, |pids|)
    else Scan(pids, used, start, d + 1)
  }

  lemma {:induction false} ScanFinds(pids: seq<int>, used: seq<int>, start: nat, d: nat, j: nat)
    requires |pids| == |used| && start < |pids| && d <= |pids| && j < |pids|
    requires Free(pids, used, j) && d <= Distance(start, j, |pids|)
    ensures var i := Scan(pids, used, start, d);
      Free(pids, used, i) && d <= Distance(start, i, |pids|) <= Distance(start, j, |pids|)
    decreases |pids| - d
  {
    if !Free(pids, used, At(start, d, |pids|)) { ScanFinds(pids, used, start, d + 1, j); }
  }

  /** The search finds a free child if and only if there is one, and then the first in ring order. */
  lemma SelectIsFirstFree(pids: seq<int>, used: seq<int>, start: nat)
    requires |pids| == |used| && start < |pids|
    ensures var i := Scan(pids, used, start, 0);
      && (Free(pids, used, i) <==> exists j :: 0 <= j < |pids| && Free(pids, used, j))
      && (forall j :: 0 <= j < |pids| && Free(pids, used, j) ==>
            Distance(start, i, |pids|) <= Distance(start, j, |pids|))
  {
    forall j | 0 <= j < |pids| && Free(pids, used, j)
      ensures var i := Scan(pids, used, start, 0);
        Free(pids, used, i) && Distance(start, i, |pids|) <= Distance(start, j, |pids|)
    {
      ScanFinds(pids, used, start, 0, j);
    }
  }

  /** The slots after the pids in `joined` have been waited for. */
  function Reaped(pids: seq<int>, joined: seq<int>): (r: seq<int>)
    ensures |r| == |pids|
  {
    seq(|pids|, i requires 0 <= i < |pids| => if pids[i] in joined then -1 else pids[i])
  }

  // ---------- release notices ----------

  /** The least index from `k` on at which the two agree, or |pipes|. */
  function FirstMatch(slots: seq<int>, pipes: seq<int>, k: nat): (m: nat)
    requires k <= |pipes| <= |slots|
    ensures k <= m <= |pipes| && (m < |pipes| ==> slots[m] == pipes[m])
    ensures forall l :: k <= l < m ==> slots[l] != pipes[l]
    decreases |pipes| - k
  {
    if k == |pipes| || slots[k] == pipes[k] then k else FirstMatch(slots, pipes, k + 1)
  }

  /** The busy flags after the loop that compares slot k with the pipe of child k, for k = 0, 1, ... */
  function Released(used: seq<int>, slots: seq<int>, pipes: seq<int>): (r: seq<int>)
    requires |used| == |pipes| <= |slots|
    ensures |r| == |used|
  {
    var m := FirstMatch(slots, pipes, 0);
    if m < |pipes| then used[m := 0] else used
  }

  /** Every slot holds the descriptor that reported: what the loop should compare with. */
  function Repeat(fd: int, n: nat): (r: seq<int>)
    ensures |r| == n && forall i :: 0 <= i < n ==> r[i] == fd
  {
    seq(n, i => fd)
  }

  /** Slot j holds the pipe of child j, and no slot before it does likewise; if the flag is down
      already, it is enough that the slot that is found belongs to a flag that is down. */
  predicate FindsReporter(used: seq<int>, slots: seq<int>, pipes: seq<int>, j: nat)
    requires j < |used| == |pipes| <= |slots|
  {
    if used[j] != 0 then slots[j] == pipes[j] && forall k :: 0 <= k < j ==> slots[k] != pipes[k]
    else forall k :: 0 <= k < |pipes| && slots[k] == pipes[k] && used[k] != 0 ==>
      exists l :: 0 <= l < k && slots[l] == pipes[l]
  }

  /** Whatever the slots hold, the loop clears exactly the flag of child j if and only if it finds j. */
  lemma ReleaseIsRight(used: seq<int>, slots: seq<int>, pipes: seq<int>, j: nat)
    requires j < |used| == |pipes| <= |slots|
    ensures Released(used, slots, pipes) == used[j := 0] <==> FindsReporter(used, slots, pipes, j)
  {
    var m := FirstMatch(slots, pipes, 0);
    if m < |pipes| {
      assert Released(used, slots, pipes)[m] == 0;
      assert m != j ==> used[j := 0][m] == used[m] && Released(used, slots, pipes)[j] == used[j];
      if used[m] == 0 { assert Released(used, slots, pipes) == used; }
    }
    if used[j] == 0 { assert used[j := 0] == used; }
  }

  /** Comparing with the descriptor that reported always finds the reporter. */
  lemma RepeatFinds(used: seq<int>, pipes: seq<int>, j: nat)
    requires j < |used| == |pipes| && forall k :: 0 <= k < |pipes| && k != j ==> pipes[k] != pipes[j]
    ensures FirstMatch(Repeat(pipes[j], |pipes|), pipes, 0) == j
    ensures Released(used, Repeat(pipes[j], |pipes|), pipes) == used[j := 0]
  {
  }

  // ---------- one entry of an epoll result ----------

  /** The descriptors the parent watches; pipes[i] is its end of the pipe on which child i reports. */
  datatype Wiring = Wiring(listenfd: int, sigfd: int, pipes: seq<int>)

  ghost predicate Wired(w: Wiring) {
    && w.listenfd != w.sigfd && w.listenfd !in w.pipes && w.sigfd !in w.pipes
    && (forall i, j :: 0 <= i < j < |w.pipes| ==> w.pipes[i] != w.pipes[j])
  }

  /** The loop over the children looks at events[k] for child k, as published, or at the
      descriptor that reported. */
  datatype Lookup = AsWritten | Repaired

  datatype Desk = Desk(pids: seq<int>, used: seq<int>, next: nat, stop: bool)

  predicate InRange(d: Desk) {
    0 < |d.pids| == |d.used| && d.next < |d.pids|
  }

  /** The child that is told to accept a new connection, or -1. */
  function Chosen(d: Desk): (i: int)
    requires InRange(d)
    ensures -1 <= i < |d.pids| && (i != -1 ==> Free(d.pids, d.used, i))
  {
    var i := Scan(d.pids, d.used, d.next, 0);
    if Free(d.pids, d.used, i) then i else -1
  }

  /** A new connection. */
  function Assign(d: Desk): (r: Desk)
    requires InRange(d)
    ensures InRange(r) && |r.pids| == |d.pids|
  {
    var i := Chosen(d);
    if i != -1 then d.(next := (i + 1) % |d.pids|, used := d.used[i := 1]) else d
  }

  /** What a connection means for the children: it goes to one that is alive and idle, which is
      marked busy and nothing else but the round robin moves; or there is none and nothing changes. */
  ghost predicate Serves(d: Desk, child: int, r: Desk)
    requires InRange(d)
  {
    if child == -1 then
      r == d && forall j :: 0 <= j < |d.pids| ==> d.pids[j] == -1 || d.used[j] == 1
    else
      && 0 <= child < |d.pids| && d.pids[child] != -1 && d.used[child] != 1
      && r == d.(used := d.used[child := 1], next := (child + 1) % |d.pids|)
  }

  lemma ChosenServes(d: Desk)
    requires InRange(d)
    ensures Serves(d, Chosen(d), Assign(d))
  {
    SelectIsFirstFree(d.pids, d.used, d.next);
    assert forall j :: 0 <= j < |d.pids| ==> (Free(d.pids, d.used, j) <==> d.pids[j] != -1 && d.used[j] != 1);
  }

  /** SIGCHLD, when `joined` are the pids that wait returns before it fails. */
  function Reap(d: Desk, joined: seq<int>): (r: Desk)
    ensures |r.pids| == |d.pids|
  {
    var pids := Reaped(d.pids, joined);
    d.(pids := pids, stop := forall i :: 0 <= i < |pids| ==> pids[i] == -1)
  }

  /** What the lookup compares the pipes with. */
  function Slots(w: Wiring, lookup: Lookup, events: seq<int>, at: nat): (r: seq<int>)
    requires |w.pipes| <= |events| && at < |events|
    ensures |w.pipes| <= |r|
  {
    if lookup.AsWritten? then events else Repeat(events[at], |w.pipes|)
  }

  /** The parent handles the entry `at` of its event array; `exits` says whether SIGCHLD was
      among the signals read. */
  function OnEntry(d: Desk, w: Wiring, lookup: Lookup, events: seq<int>, at: nat, exits: bool,
      joined: seq<int>): (r: Desk)
    requires InRange(d) && |w.pipes| == |d.pids| <= |events| && at < |events|
    ensures InRange(r) && |r.pids| == |d.pids|
  {
    if events[at] == w.listenfd then Assign(d)
    else if events[at] == w.sigfd then if exits then Reap(d, joined) else d
    else d.(used := Released(d.used, Slots(w, lookup, events, at), w.pipes))
  }

  class Parent {
    const pids: array<int>
    const used: array<int>
    const pipes: array<int>   // m_c2p_pipefd[1] of each child
    const events: array<int>  // the descriptors in the event array, which outlives each epoll_wait
    const listenfd: int
    const sigfd: int
    var subProcessCount: nat
    var stop: bool

    ghost predicate Valid()
      reads this
    {
      && pids != used && pids != pipes && used != pipes && events != pids && events != used && events != pipes
      && pids.Length == used.Length == pipes.Length <= events.Length
      && subProcessCount < pids.Length
    }

    ghost function View(): (d: Desk)
      requires Valid()
      reads this, pids, used
      ensures InRange(d)
    {
      Desk(pids[..], used[..], subProcessCount, stop)
    }

    constructor (children: seq<int>, w: Wiring, capacity: nat)
      requires children != [] && |w.pipes| == |children| <= capacity
      ensures Valid() && fresh(pids) && fresh(used) && fresh(pipes) && fresh(events)
      ensures View() == Desk(children, Repeat(0, |children|), 0, false)
      ensures listenfd == w.listenfd && sigfd == w.sigfd && pipes[..] == w.pipes && events.Length == capacity
    {
      pids := new int[|children|](i requires 0 <= i < |children| => children[i]);
      used := new int[|children|](i => 0);
      pipes := new int[|children|](i requires 0 <= i < |w.pipes| => w.pipes[i]);
      events := new int[capacity](i => 0);
      listenfd, sigfd := w.listenfd, w.sigfd;
      subProcessCount, stop := 0, false;
    }

    /** The do-while loop over the children, starting at the round-robin position. */
    method Select() returns (i: nat)
      requires Valid()
      ensures i == Scan(pids[..], used[..], subProcessCount, 0)
    {
      ghost var p, u, n, d := pids[..], used[..], pids.Length, 0;
      i := subProcessCount;
      while true
        invariant d < n && i == At(subProcessCount, d, n)
        invariant Scan(p, u, subProcessCount, 0) == Scan(p, u, subProcessCount, d)
        decreases n - d
      {
        if pids[i] != -1 && used[i] != 1 {
          break;
        }
        RingStep(i, n);
        i := (i + 1) % pids.Length;
        d := d + 1;
        if i == subProcessCount {
          break;
        }
      }
    }

    /** A new connection: the child that is told to accept it, or -1 when it is turned away. */
    method OnConnection() returns (child: int)
      requires Valid()
      modifies this`subProcessCount, used
      ensures Valid() && View() == Assign(old(View())) && child == Chosen(old(View()))
      ensures Serves(old(View()), child, View())
    {
      ChosenServes(View());
      var i := Select();
      if pids[i] == -1 || used[i] == 1 {
        return -1;
      }
      subProcessCount := (i + 1) % pids.Length;
      used[i] := 1;
      child := i;
    }

    /** A pipe reports.  The loop's own index hides that of the entry, so that slot i of the
        event array is compared with pipe i. */
    method OnNotice()
      requires Valid()
      modifies used
      ensures used[..] == Released(old(used[..]), events[..], pipes[..])
    {
      ghost var before := used[..];
      for i := 0 to used.Length
        invariant used[..] == before
        invariant FirstMatch(events[..], pipes[..], 0) == FirstMatch(events[..], pipes[..], i)
      {
        if events[i] == pipes[i] {
          used[i] := 0;
          break;
        }
      }
    }

    /** The same loop with the descriptor that reported: exactly the reporter's flag is cleared. */
    method OnNoticeRepaired(sockfd: int, ghost child: nat)
      requires Valid() && child < pipes.Length && pipes[child] == sockfd
      requires forall k :: 0 <= k < pipes.Length && k != child ==> pipes[k] != sockfd
      modifies used
      ensures used[..] == old(used[..])[child := 0]
    {
      for i := 0 to used.Length
        invariant i <= child && used[..] == old(used[..])
      {
        if sockfd == pipes[i] {
          used[i] := 0;
          break;
        }
      }
    }

    /** The body of the loop over an epoll result, as published; the child that is sent a token, or -1. */
    method Handle(at: nat, exits: bool, joined: seq<int>) returns (child: int)
      requires Valid() && at < events.Length && -1 !in joined
      modifies this`subProcessCount, this`stop, pids, used
      ensures Valid()
      ensures View() == OnEntry(old(View()), Wiring(listenfd, sigfd, pipes[..]), AsWritten, events[..], at, exits,
        joined)
      ensures events[at] == listenfd ==> child == Chosen(old(View()))
      ensures events[at] == listenfd ==> Serves(old(View()), child, View())
      ensures events[at] != listenfd ==> child == -1
    {
      var sockfd := events[at];
      child := -1;
      if sockfd == listenfd {
        child := OnConnection();
      } else if sockfd == sigfd {
        if exits {
          OnChildExit(joined);
        }
      } else {
        OnNotice();
      }
    }

    /** SIGCHLD: `joined` are the pids that wait returns before it fails; then stop if nobody is left. */
    method OnChildExit(joined: seq<int>)
      requires Valid() && -1 !in joined
      modifies this`stop, pids
      ensures forall i :: 0 <= i < pids.Length ==> pids[i] == if old(pids[i]) in joined then -1 else old(pids[i])
      ensures stop <==> forall i :: 0 <= i < pids.Length ==> pids[i] == -1
      ensures Valid() && View() == Reap(old(View()), joined)
    {
      ghost var before := pids[..];
      for k := 0 to |joined|
        invariant pids[..] == Reaped(before, joined[..k])
      {
        ReapOne(joined[k]);
        assert joined[..k + 1] == joined[..k] + [joined[k]];
      }
      assert joined[..|joined|] == joined;
      stop := true;
      for i := 0 to pids.Length
        invariant pids[..] == Reaped(before, joined)
        invariant stop <==> forall m :: 0 <= m < i ==> pids[m] == -1
      {
        if pids[i] != -1 {
          stop := false;
        }
      }
    }

    method ReapOne(pid: int)
      requires Valid()
      modifies pids
      ensures pids[..] == Reaped(old(pids[..]), [pid])
    {
      for i := 0 to pids.Length
        invariant forall m :: 0 <= m < pids.Length ==>
          pids[m] == if m < i && old(pids[m]) == pid then -1 else old(pids[m])
      {
        if pids[i] == pid {
          pids[i] := -1;
        }
      }
    }
  }
}
