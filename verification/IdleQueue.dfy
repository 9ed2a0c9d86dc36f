/**
 The timeout server's connections as a queue, least recently active first, over whole runs.
 `LastTouch` and `IsOpen` read a run without any queue: they say which connections should be
 open and when each was last active.  The queue is proved to agree with them.
 */
module IdleQueue {
  import opened Sequences

  const TIMESLOT := 5
  const LEASE := 3 * TIMESLOT

  datatype Conn = Conn(fd: int, last: int)

  /** What the event loop does at a moment `at`. */
  datatype Action =
    | Accept(fd: int, at: int)
    | Receive(fd: int, at: int)
    | Hangup(fd: int, at: int)  // closed by the peer, or the read failed
    | Pass(at: int)             // nothing that concerns a timer
    | Tick(at: int)

  function IndexOf(q: seq<Conn>, fd: int): (i: nat)
    ensures i <= |q|
    ensures forall m :: 0 <= m < i ==> q[m].fd != fd
    ensures i < |q| ==> q[i].fd == fd
  {
    if q == [] || q[0].fd == fd then 0 else 1 + IndexOf(q[1..], fd)
  }

  predicate Has(q: seq<Conn>, fd: int) {
    IndexOf(q, fd) < |q|
  }

  function Remove(q: seq<Conn>, fd: int): seq<Conn> {
    if Has(q, fd) then Without(q, IndexOf(q, fd)) else q
  }

  /** How many connections at the front have been idle for a whole lease. */
  function StaleCount(q: seq<Conn>, now: int): (n: nat)
    ensures n <= |q|
    ensures forall m :: 0 <= m < n ==> q[m].last + LEASE <= now
    ensures n < |q| ==> now < q[n].last + LEASE
  {
    if q == [] || now < q[0].last + LEASE then 0 else 1 + StaleCount(q[1..], now)
  }

  function Next(q: seq<Conn>, a: Action): seq<Conn> {
    match a
    case Accept(fd, at) => q + [Conn(fd, at)]
    case Receive(fd, at) => Remove(q, fd) + [Conn(fd, at)]
    case Hangup(fd, _) => Remove(q, fd)
    case Pass(_) => q
    case Tick(at) => q[StaleCount(q, at)..]
  }

  function After(q: seq<Conn>, run: seq<Action>): seq<Conn> {
    if run == [] then q else Next(After(q, run[..|run| - 1]), run[|run| - 1])
  }

  /** The kernel's part: accepted descriptors are new, events come from open ones. */
  predicate Legal(q: seq<Conn>, a: Action) {
    match a
    case Accept(fd, _) => !Has(q, fd)
    case Receive(fd, _) => Has(q, fd)
    case Hangup(fd, _) => Has(q, fd)
    case Pass(_) => true
    case Tick(_) => true
  }

  function Clock(start: int, run: seq<Action>): int {
    if run == [] then start else run[|run| - 1].at
  }

  /** A run on a clock that never goes back. */
  predicate LegalFrom(q: seq<Conn>, start: int, run: seq<Action>) {
    run == [] ||
    (var before := run[..|run| - 1];
     LegalFrom(q, start, before) && Clock(start, before) <= run[|run| - 1].at &&
       Legal(After(q, before), run[|run| - 1]))
  }

  /** A run from an empty server. */
  predicate LegalRun(start: int, run: seq<Action>) {
    LegalFrom([], start, run)
  }

  lemma {:induction false} AfterConcat(q: seq<Conn>, start: int, a: seq<Action>, b: seq<Action>)
    ensures After(q, a + b) == After(After(q, a), b)
    ensures Clock(start, a + b) == Clock(Clock(start, a), b)
    decreases |b|
  {
    if b == [] {
      assert a + b == a;
    } else {
      var c := b[..|b| - 1];
      AfterConcat(q, start, a, c);
      assert (a + b)[..|a + b| - 1] == a + c;
    }
  }

  lemma {:induction false} LegalSplit(q: seq<Conn>, start: int, a: seq<Action>, b: seq<Action>)
    requires LegalFrom(q, start, a + b)
    ensures LegalFrom(q, start, a) && LegalFrom(After(q, a), Clock(start, a), b)
    decreases |b|
  {
    if b == [] {
      assert a + b == a;
    } else {
      var c := b[..|b| - 1];
      assert (a + b)[..|a + b| - 1] == a + c;
      LegalSplit(q, start, a, c);
      AfterConcat(q, start, a, c);
    }
  }

  lemma LegalLast(q: seq<Conn>, start: int, before: seq<Action>, a: Action)
    requires LegalFrom(q, start, before + [a])
    ensures LegalFrom(q, start, before) && Legal(After(q, before), a) && Clock(start, before) <= a.at
    ensures After(q, before + [a]) == Next(After(q, before), a) && Clock(start, before + [a]) == a.at
  {
    assert (before + [a])[..|before|] == before;
  }

  // ---------- the queue keeps its order ----------

  ghost predicate InOrder(q: seq<Conn>, now: int) {
    && (forall i, j :: 0 <= i < j < |q| ==> q[i].fd != q[j].fd && q[i].last <= q[j].last)
    && (forall i :: 0 <= i < |q| ==> q[i].last <= now)
  }

  lemma RemoveEntry(q: seq<Conn>, fd: int, i: nat)
    requires i < |Remove(q, fd)|
    ensures var m := if i < IndexOf(q, fd) then i else i + 1;
      m < |q| && Remove(q, fd)[i] == q[m]
  {
  }

  lemma RemoveInOrder(q: seq<Conn>, fd: int, now: int)
    requires InOrder(q, now)
    ensures InOrder(Remove(q, fd), now)
    ensures forall i :: 0 <= i < |Remove(q, fd)| ==> Remove(q, fd)[i].fd != fd
  {
    if Has(q, fd) {
      var k, r := IndexOf(q, fd), Remove(q, fd);
      forall i, j | 0 <= i < j < |r|
        ensures r[i].fd != r[j].fd && r[i].last <= r[j].last
      {
        RemoveEntry(q, fd, i);
        RemoveEntry(q, fd, j);
      }
    }
  }

  lemma PushInOrder(q: seq<Conn>, x: Conn, now: int)
    requires InOrder(q, now) && now <= x.last
    requires forall i :: 0 <= i < |q| ==> q[i].fd != x.fd
    ensures InOrder(q + [x], x.last)
  {
  }

  lemma NextInOrder(q: seq<Conn>, a: Action, now: int)
    requires InOrder(q, now) && now <= a.at && Legal(q, a)
    ensures InOrder(Next(q, a), a.at)
  {
    match a
    case Accept(fd, at) => PushInOrder(q, Conn(fd, at), now);
    case Receive(fd, at) => RemoveInOrder(q, fd, now); PushInOrder(Remove(q, fd), Conn(fd, at), now);
    case Hangup(fd, _) => RemoveInOrder(q, fd, now);
    case Pass(_) =>
    case Tick(_) =>
  }

  // ---------- an account of the run that knows no queue ----------

  predicate Touches(a: Action, fd: int) {
    (a.Accept? || a.Receive?) && a.fd == fd
  }

  /** The index of the last accept or data event of `fd`, or -1. */
  function LastTouch(run: seq<Action>, fd: int): (k: int)
    ensures -1 <= k < |run|
    ensures k >= 0 ==> Touches(run[k], fd)
    ensures forall m :: k < m < |run| ==> !Touches(run[m], fd)
  {
    if run == [] then -1
    else if Touches(run[|run| - 1], fd) then |run| - 1
    else LastTouch(run[..|run| - 1], fd)
  }

  predicate Ends(a: Action, fd: int, last: int) {
    (a.Hangup? && a.fd == fd) || (a.Tick? && last + LEASE <= a.at)
  }

  /** `fd` has been active, and since then it has neither hung up nor met a tick after a whole idle lease. */
  ghost predicate IsOpen(run: seq<Action>, fd: int) {
    var k := LastTouch(run, fd);
    k >= 0 && forall m :: k < m < |run| ==> !Ends(run[m], fd, run[k].at)
  }

  ghost predicate IsLru(q: seq<Conn>, run: seq<Action>) {
    && (forall fd :: Has(q, fd) <==> IsOpen(run, fd))
    && (forall i :: 0 <= i < |q| ==> LastTouch(run, q[i].fd) >= 0 && q[i].last == run[LastTouch(run, q[i].fd)].at)
    && (forall i, j :: 0 <= i < j < |q| ==> LastTouch(run, q[i].fd) < LastTouch(run, q[j].fd))
  }

  // ---------- one step ----------

  predicate IsTouch(a: Action) {
    a.Accept? || a.Receive?
  }

  /** Where entry `i` of the next queue stood before, unless it is the one just touched. */
  function Origin(q: seq<Conn>, a: Action, i: nat): nat {
    match a
    case Receive(fd, _) => if i < IndexOf(q, fd) then i else i + 1
    case Hangup(fd, _) => if i < IndexOf(q, fd) then i else i + 1
    case Tick(at) => i + StaleCount(q, at)
    case _ => i
  }

  lemma RemovedEntry(q: seq<Conn>, fd: int, now: int, i: nat)
    requires InOrder(q, now) && Has(q, fd) && i < |Remove(q, fd)|
    ensures var m := if i < IndexOf(q, fd) then i else i + 1;
      m < |q| && Remove(q, fd)[i] == q[m] && q[m].fd != fd
  {
    RemoveEntry(q, fd, i);
  }

  lemma AcceptedEntry(q: seq<Conn>, fd: int, i: nat)
    requires !Has(q, fd) && i < |q|
    ensures q[i].fd != fd
  {
  }

  lemma NextEntry(q: seq<Conn>, a: Action, now: int, i: nat)
    requires InOrder(q, now) && Legal(q, a) && i < |Next(q, a)|
    ensures var r := Next(q, a);
      if IsTouch(a) && i == |r| - 1 then r[i] == Conn(a.fd, a.at)
      else Origin(q, a, i) < |q| && r[i] == q[Origin(q, a, i)] && !Touches(a, r[i].fd)
  {
    if a.Receive? || a.Hangup? {
      if i < |Remove(q, a.fd)| { RemovedEntry(q, a.fd, now, i); }
    } else if a.Accept? && i < |q| {
      AcceptedEntry(q, a.fd, i);
    }
  }

  lemma Find(q: seq<Conn>, now: int, i: nat)
    requires InOrder(q, now) && i < |q|
    ensures IndexOf(q, q[i].fd) == i
  {
  }

  /** A tick ends exactly the connections idle for a whole lease, not only a stretch of them. */
  lemma StaleExactly(q: seq<Conn>, now: int, at: int, i: nat)
    requires InOrder(q, now) && i < |q|
    ensures i < StaleCount(q, at) <==> q[i].last + LEASE <= at
  {
  }

  /** After an action a connection is in the queue when it was just active, or was there and did not end. */
  lemma HasNext(q: seq<Conn>, a: Action, now: int, fd: int)
    requires InOrder(q, now) && now <= a.at && Legal(q, a)
    ensures Has(Next(q, a), fd) <==> Touches(a, fd) || (Has(q, fd) && !Ends(a, fd, q[IndexOf(q, fd)].last))
  {
    var r := Next(q, a);
    NextInOrder(q, a, now);
    if Has(r, fd) {
      var i := IndexOf(r, fd);
      NextEntry(q, a, now, i);
      if !Touches(a, fd) {
        var m := Origin(q, a, i);
        Find(q, now, m);
        if a.Tick? { StaleExactly(q, now, a.at, m); }
      }
    }
    if Touches(a, fd) {
      Find(r, a.at, |r| - 1);
    } else if Has(q, fd) && !Ends(a, fd, q[IndexOf(q, fd)].last) {
      Stays(q, a, now, fd);
    }
  }

  lemma Stays(q: seq<Conn>, a: Action, now: int, fd: int)
    requires InOrder(q, now) && now <= a.at && Legal(q, a)
    requires Has(q, fd) && !Touches(a, fd) && !Ends(a, fd, q[IndexOf(q, fd)].last)
    ensures Has(Next(q, a), fd)
  {
    var m := IndexOf(q, fd);
    NextInOrder(q, a, now);
    MovesTo(q, a, now, m);
    Find(Next(q, a), a.at, Target(q, a, m));
  }

  /** Where entry `m` stands after an action that leaves it alone. */
  function Target(q: seq<Conn>, a: Action, m: nat): int {
    match a
    case Receive(fd, _) => if m < IndexOf(q, fd) then m else m - 1
    case Hangup(fd, _) => if m < IndexOf(q, fd) then m else m - 1
    case Tick(at) => m - StaleCount(q, at)
    case _ => m
  }

  lemma MovesTo(q: seq<Conn>, a: Action, now: int, m: nat)
    requires InOrder(q, now) && Legal(q, a) && m < |q| && !Touches(a, q[m].fd) && !Ends(a, q[m].fd, q[m].last)
    ensures 0 <= Target(q, a, m) < |Next(q, a)| && Next(q, a)[Target(q, a, m)] == q[m]
  {
    match a
    case Receive(fd, _) => RemoveKeeps(q, fd, m);
    case Hangup(fd, _) => RemoveKeeps(q, fd, m);
    case Tick(at) => StaleExactly(q, now, at, m);
    case Accept(_, _) =>
    case Pass(_) =>
  }

  lemma RemoveKeeps(q: seq<Conn>, fd: int, m: nat)
    requires Has(q, fd) && m < |q| && q[m].fd != fd
    ensures var i := if m < IndexOf(q, fd) then m else m - 1;
      0 <= i < |Remove(q, fd)| && Remove(q, fd)[i] == q[m]
  {
  }

  // ---------- whole runs ----------

  lemma TouchNext(run: seq<Action>, a: Action, fd: int)
    ensures LastTouch(run + [a], fd) == if Touches(a, fd) then |run| else LastTouch(run, fd)
  {
    assert (run + [a])[..|run|] == run;
  }

  lemma OpenNext(run: seq<Action>, a: Action, fd: int)
    ensures IsOpen(run + [a], fd) <==>
      Touches(a, fd) || (IsOpen(run, fd) && !Ends(a, fd, run[LastTouch(run, fd)].at))
  {
    var all, k := run + [a], LastTouch(run, fd);
    TouchNext(run, a, fd);
    if !Touches(a, fd) && k >= 0 {
      assert all[k] == run[k] && all[|run|] == a;
      assert forall m :: k < m < |run| ==> all[m] == run[m];
    }
  }

  lemma LruNext(q: seq<Conn>, run: seq<Action>, a: Action, now: int)
    requires IsLru(q, run) && InOrder(q, now) && now <= a.at && Legal(q, a)
    ensures IsLru(Next(q, a), run + [a])
  {
    var r, all := Next(q, a), run + [a];
    forall fd
      ensures Has(r, fd) <==> IsOpen(all, fd)
    {
      HasNext(q, a, now, fd);
      OpenNext(run, a, fd);
    }
    forall i | 0 <= i < |r|
      ensures LastTouch(all, r[i].fd) >= 0 && r[i].last == all[LastTouch(all, r[i].fd)].at
    {
      NextEntry(q, a, now, i);
      TouchNext(run, a, r[i].fd);
    }
    forall i, j | 0 <= i < j < |r|
      ensures LastTouch(all, r[i].fd) < LastTouch(all, r[j].fd)
    {
      NextEntry(q, a, now, i);
      NextEntry(q, a, now, j);
      TouchNext(run, a, r[i].fd);
      TouchNext(run, a, r[j].fd);
    }
  }

  lemma EmptyIsLru()
    ensures IsLru([], [])
  {
    assert forall fd :: LastTouch([], fd) == -1;
  }

  /** After every legal run the queue holds exactly the open connections, each with the time of
      its last activity, ordered by their most recent accept or data event. */
  lemma {:induction false} QueueIsLru(start: int, run: seq<Action>)
    requires LegalRun(start, run)
    ensures IsLru(After([], run), run) && InOrder(After([], run), Clock(start, run))
    decreases |run|
  {
    if run == [] {
      EmptyIsLru();
    } else {
      var before, a := run[..|run| - 1], run[|run| - 1];
      assert before + [a] == run;
      LegalLast([], start, before, a);
      QueueIsLru(start, before);
      StepIsLru(After([], before), before, a, Clock(start, before));
    }
  }

  lemma StepIsLru(q: seq<Conn>, run: seq<Action>, a: Action, now: int)
    requires IsLru(q, run) && InOrder(q, now) && now <= a.at && Legal(q, a)
    ensures IsLru(Next(q, a), run + [a]) && InOrder(Next(q, a), a.at)
  {
    LruNext(q, run, a, now);
    NextInOrder(q, a, now);
  }

  /** A tick closes a connection if and only if it has been idle for at least 3 * TIMESLOT. */
  lemma TickClosesIdle(start: int, run: seq<Action>, at: int, fd: int)
    requires LegalRun(start, run) && Clock(start, run) <= at && IsOpen(run, fd)
    ensures IsOpen(run + [Tick(at)], fd) <==> at - run[LastTouch(run, fd)].at < LEASE
    ensures Has(After([], run + [Tick(at)]), fd) <==> IsOpen(run + [Tick(at)], fd)
  {
    QueueIsLru(start, run);
    var all := run + [Tick(at)];
    OpenNext(run, Tick(at), fd);
    assert all[..|run|] == run;
    QueueIsLru(start, all);
  }

  function LastTick(start: int, run: seq<Action>): int {
    if run == [] then start
    else if run[|run| - 1].Tick? then run[|run| - 1].at
    else LastTick(start, run[..|run| - 1])
  }

  /** No moment of the run is more than `gap` after the tick (or the start) before it. */
  predicate TicksWithin(start: int, run: seq<Action>, gap: int) {
    run == [] || (run[|run| - 1].at <= LastTick(start, run[..|run| - 1]) + gap &&
      TicksWithin(start, run[..|run| - 1], gap))
  }

  lemma {:induction false} ActiveSinceTick(start: int, run: seq<Action>)
    requires LegalRun(start, run)
    ensures LastTick(start, run) <= Clock(start, run)
    ensures forall i :: 0 <= i < |After([], run)| ==> After([], run)[i].last > LastTick(start, run) - LEASE
    decreases |run|
  {
    if run != [] {
      var before, a := run[..|run| - 1], run[|run| - 1];
      var q := After([], before);
      ActiveSinceTick(start, before);
      QueueIsLru(start, before);
      forall i | 0 <= i < |Next(q, a)|
        ensures Next(q, a)[i].last > LastTick(start, run) - LEASE
      {
        NextEntry(q, a, Clock(start, before), i);
        if a.Tick? { StaleExactly(q, Clock(start, before), a.at, Origin(q, a, i)); }
      }
    }
  }

  lemma IdleSince(start: int, run: seq<Action>, gap: int, now: int, fd: int)
    requires LegalRun(start, run) && IsOpen(run, fd)
    requires now <= LastTick(start, run) + gap
    ensures now - run[LastTouch(run, fd)].at < LEASE + gap
  {
    ActiveSinceTick(start, run);
    QueueIsLru(start, run);
    assert Has(After([], run), fd);
  }

  /** If successive ticks are at most `gap` apart, then at every moment of the run every
      connection open by then has been idle for less than 3 * TIMESLOT + gap. */
  lemma {:induction false} IdleBound(start: int, run: seq<Action>, gap: int, k: nat, fd: int)
    requires LegalRun(start, run) && TicksWithin(start, run, gap) && k < |run|
    requires IsOpen(run[..k], fd)
    ensures run[k].at - run[LastTouch(run[..k], fd)].at < LEASE + gap
    decreases |run|
  {
    var before := run[..|run| - 1];
    if k == |run| - 1 {
      IdleSince(start, before, gap, run[k].at, fd);
    } else {
      assert before[..k] == run[..k];
      IdleBound(start, before, gap, k, fd);
    }
  }
}
