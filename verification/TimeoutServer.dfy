/**
 The event loop of the timeout server over the sorted timer list.  `queue` is the abstract
 state; `Valid` says that the list is this queue, entry by entry.
 */
module TimeoutServer {
  import opened Sequences
  import opened IdleQueue
  import opened LstTimer
  import SortedTimers

  datatype Outcome = Received | EndOfFile | Failed | WouldBlock

  datatype Sig = Alarm | Terminate | OtherSig

  /** What one entry of the epoll result is about, and when it is handled. */
  datatype Event =
    | Connection(fd: int, at: int)
    | Signals(sigs: seq<Sig>, at: int)
    | Input(fd: int, outcome: Outcome, at: int)
    | Other(at: int)

  /** An event as the queue sees it; signals are dealt with at the end of the batch. */
  function ActionOf(e: Event): Action {
    match e
    case Connection(fd, at) => Accept(fd, at)
    case Input(fd, Received, at) => Receive(fd, at)
    case Input(_, WouldBlock, at) => Pass(at)
    case Input(fd, _, at) => Hangup(fd, at)
    case Signals(_, at) => Pass(at)
    case Other(at) => Pass(at)
  }

  type List = seq<SortedTimers.Entry<UtilTimer>>

  /** Entry by entry, the list holds the connections of `q` with a lease from their last activity. */
  ghost predicate Tracks(c: List, q: seq<Conn>) {
    && |c| == |q|
    && (forall i :: 0 <= i < |c| ==> c[i].timer.user == q[i].fd && c[i].expire == q[i].last + LEASE)
  }

  // ---------- what the list operations do on a monotone clock ----------

  lemma {:induction false} PlaceLast(c: List, k: nat, e: int)
    requires k <= |c| && forall i :: k <= i < |c| ==> c[i].expire <= e
    ensures SortedTimers.Place(c, k, e) == |c|
    decreases |c| - k
  {
    if k < |c| { PlaceLast(c, k + 1, e); }
  }

  lemma AcceptTracks(c: List, q: seq<Conn>, fd: int, now: int, t: UtilTimer)
    requires Tracks(c, q) && InOrder(q, now) && t.user == fd
    ensures Tracks(SortedTimers.StableInsert(c, SortedTimers.Entry(t, now + LEASE)), Next(q, Accept(fd, now)))
  {
    PlaceLast(c, 0, now + LEASE);
  }

  lemma AdjustToEnd(c: List, i: nat, e: int)
    requires i < |c| && (forall m :: 0 <= m < |c| ==> c[m].expire <= e)
    ensures SortedTimers.Adjust(c[i := c[i].(expire := e)], i) == Without(c, i) + [c[i].(expire := e)]
  {
    var x := c[i].(expire := e);
    var raised := c[i := x];
    assert Without(raised, i) == Without(c, i);
    if i + 1 < |c| { PlaceLast(Without(c, i), i + 1, e); }
  }

  lemma ReceiveTracks(c: List, q: seq<Conn>, i: nat, now: int)
    requires Tracks(c, q) && InOrder(q, now) && i < |q|
    ensures Tracks(Without(c, i) + [c[i].(expire := now + LEASE)], Next(q, Receive(q[i].fd, now)))
  {
    Find(q, now, i);
  }

  lemma HangupTracks(c: List, q: seq<Conn>, i: nat, now: int)
    requires Tracks(c, q) && InOrder(q, now) && i < |q|
    ensures Tracks(Without(c, i), Next(q, Hangup(q[i].fd, now)))
  {
    Find(q, now, i);
  }

  lemma SameCount(c: List, q: seq<Conn>, now: int)
    requires Tracks(c, q)
    ensures SortedTimers.ExpiredCount(c, now) == StaleCount(q, now)
  {
  }

  /** The client table leads from each descriptor to its timer in the list. */
  ghost predicate Indexes(c: List, users: map<int, UtilTimer>) {
    forall i :: 0 <= i < |c| ==> c[i].timer.user in users && users[c[i].timer.user] == c[i].timer
  }

  ghost function Fds(q: seq<Conn>): set<int> {
    set i | 0 <= i < |q| :: q[i].fd
  }

  lemma Located(c: List, q: seq<Conn>, users: map<int, UtilTimer>, now: int, fd: int)
    requires Tracks(c, q) && InOrder(q, now) && Indexes(c, users) && Has(q, fd)
    ensures fd in users && SortedTimers.IndexOf(c, users[fd]) == IndexOf(q, fd)
  {
    var i := IndexOf(q, fd);
    assert c[i].timer == users[fd];
    assert SortedTimers.Holds(c, users[fd]);
    Find(q, now, SortedTimers.IndexOf(c, users[fd]));
  }

  ghost predicate Within(c: List, repr: set<UtilTimer>) {
    forall i :: 0 <= i < |c| ==> c[i].timer in repr
  }

  /** The list, the client table and the open descriptors all describe the queue `q`. */
  ghost predicate Fits(c: List, q: seq<Conn>, users: map<int, UtilTimer>, open: set<int>, repr: set<UtilTimer>,
      clock: int) {
    && Tracks(c, q) && InOrder(q, clock) && open == Fds(q)
    && Indexes(c, users) && Within(c, repr)
  }

  lemma AcceptFits(c: List, q: seq<Conn>, users: map<int, UtilTimer>, open: set<int>, repr: set<UtilTimer>,
      clock: int, t: UtilTimer, now: int)
    requires Fits(c, q, users, open, repr, clock) && t.user !in open && clock <= now
    ensures Legal(q, Accept(t.user, now))
    ensures Fits(SortedTimers.StableInsert(c, SortedTimers.Entry(t, now + LEASE)), Next(q, Accept(t.user, now)),
                 users[t.user := t], open + {t.user}, repr + {t}, now)
  {
    var fd := t.user;
    assert !Has(q, fd);
    NextInOrder(q, Accept(fd, now), clock);
    AcceptTracks(c, q, fd, now, t);
    PlaceLast(c, 0, now + LEASE);
    FdsPushed(q, Conn(fd, now));
  }

  lemma RemoveFds(q: seq<Conn>, fd: int, now: int)
    requires InOrder(q, now) && Has(q, fd)
    ensures Fds(Remove(q, fd)) == Fds(q) - {fd}
  {
    var k, r := IndexOf(q, fd), Remove(q, fd);
    forall i | 0 <= i < |q| && i != k
      ensures q[i].fd in Fds(r)
    {
      assert r[if i < k then i else i - 1] == q[i];
    }
  }

  lemma HangupFits(c: List, q: seq<Conn>, users: map<int, UtilTimer>, open: set<int>, repr: set<UtilTimer>,
      clock: int, fd: int, now: int)
    requires Fits(c, q, users, open, repr, clock) && Has(q, fd) && clock <= now
    ensures Fits(Without(c, IndexOf(q, fd)), Next(q, Hangup(fd, now)), users, open - {fd}, repr, now)
  {
    NextInOrder(q, Hangup(fd, now), clock);
    HangupTracks(c, q, IndexOf(q, fd), clock);
    RemoveFds(q, fd, clock);
  }

  lemma FdsPushed(q: seq<Conn>, x: Conn)
    ensures Fds(q + [x]) == Fds(q) + {x.fd}
  {
    assert (q + [x])[|q|] == x;
    assert forall i :: 0 <= i < |q| ==> (q + [x])[i] == q[i];
  }

  lemma FdsSplit(q: seq<Conn>, n: nat, now: int)
    requires InOrder(q, now) && n <= |q|
    ensures Fds(q[n..]) == Fds(q) - Fds(q[..n])
  {
    assert forall i :: 0 <= i < n ==> q[..n][i] == q[i];
    assert forall i :: n <= i < |q| ==> q[n..][i - n] == q[i];
  }

  lemma ReceiveFds(q: seq<Conn>, fd: int, clock: int, now: int)
    requires InOrder(q, clock) && Has(q, fd)
    ensures Fds(Next(q, Receive(fd, now))) == Fds(q)
  {
    RemoveFds(q, fd, clock);
    FdsPushed(Remove(q, fd), Conn(fd, now));
  }

  lemma ReceiveIndexes(c: List, users: map<int, UtilTimer>, repr: set<UtilTimer>, i: nat, e: int)
    requires Indexes(c, users) && Within(c, repr) && i < |c|
    ensures Indexes(Without(c, i) + [c[i].(expire := e)], users) && Within(Without(c, i) + [c[i].(expire := e)], repr)
  {
  }

  /** The list after renewing the lease at `i`. */
  ghost function Renewed(c: List, i: nat, now: int): List
    requires i < |c|
  {
    SortedTimers.Adjust(c[i := c[i].(expire := now + LEASE)], i)
  }

  lemma RenewedFits(c: List, q: seq<Conn>, users: map<int, UtilTimer>, repr: set<UtilTimer>, i: nat, now: int)
    requires Tracks(c, q) && InOrder(q, now) && Indexes(c, users) && Within(c, repr) && i < |q|
    ensures var r := Renewed(c, i, now);
      Tracks(r, Next(q, Receive(q[i].fd, now))) && Indexes(r, users) && Within(r, repr)
  {
    AdjustToEnd(c, i, now + LEASE);
    ReceiveTracks(c, q, i, now);
    ReceiveIndexes(c, users, repr, i, now + LEASE);
  }

  lemma ReceiveFits(c: List, q: seq<Conn>, users: map<int, UtilTimer>, open: set<int>, repr: set<UtilTimer>,
      clock: int, fd: int, now: int)
    requires Fits(c, q, users, open, repr, clock) && Has(q, fd) && clock <= now
    ensures Fits(Renewed(c, IndexOf(q, fd), now), Next(q, Receive(fd, now)), users, open, repr, now)
  {
    var i := IndexOf(q, fd);
    NextInOrder(q, Receive(fd, now), clock);
    RenewedFits(c, q, users, repr, i, now);
    ReceiveFds(q, fd, clock, now);
  }

  lemma TickFits(c: List, q: seq<Conn>, users: map<int, UtilTimer>, open: set<int>, repr: set<UtilTimer>, clock: int,
      now: int)
    requires Fits(c, q, users, open, repr, clock) && clock <= now
    ensures var n := SortedTimers.ExpiredCount(c, now);
      n == StaleCount(q, now) && Fits(c[n..], Next(q, Tick(now)), users, open - Fds(q[..n]), repr, now)
  {
    SameCount(c, q, now);
    NextInOrder(q, Tick(now), clock);
    FdsSplit(q, StaleCount(q, now), clock);
  }

  lemma HasIffOpen(q: seq<Conn>, now: int, fd: int)
    requires InOrder(q, now)
    ensures Has(q, fd) <==> fd in Fds(q)
  {
    if fd in Fds(q) {
      var i :| 0 <= i < |q| && q[i].fd == fd;
      Find(q, now, i);
    }
  }

  // ---------- the loop ----------

  /** One epoll result, and the time at which a tick that it asks for is done. */
  datatype Batch = Batch(events: seq<Event>, tickAt: int)

  function Actions(events: seq<Event>): (r: seq<Action>)
    ensures |r| == |events|
    ensures forall i :: 0 <= i < |events| ==> r[i] == ActionOf(events[i])
  {
    seq(|events|, i requires 0 <= i < |events| => ActionOf(events[i]))
  }

  ghost predicate Signalled(events: seq<Event>, sig: Sig) {
    exists i :: 0 <= i < |events| && events[i].Signals? && sig in events[i].sigs
  }

  ghost function BatchActions(b: Batch): seq<Action> {
    Actions(b.events) + if Signalled(b.events, Alarm) then [Tick(b.tickAt)] else []
  }

  /** What the first `n` batches do. */
  ghost function FirstBatches(batches: seq<Batch>, n: nat): seq<Action>
    requires n <= |batches|
  {
    if n == 0 then [] else FirstBatches(batches, n - 1) + BatchActions(batches[n - 1])
  }

  lemma SignalledNext(events: seq<Event>, i: nat, sig: Sig)
    requires i < |events|
    ensures Signalled(events[..i + 1], sig) <==>
      Signalled(events[..i], sig) || (events[i].Signals? && sig in events[i].sigs)
  {
    assert events[..i + 1] == events[..i] + [events[i]];
    assert events[..i + 1][i] == events[i];
  }

  lemma Slices<T>(s: seq<T>, i: nat)
    requires i < |s|
    ensures s == s[..i + 1] + s[i + 1..] && s[..i + 1] == s[..i] + [s[i]]
  {
  }

  lemma LegalAt(q: seq<Conn>, start: int, run: seq<Action>, i: nat)
    requires LegalFrom(q, start, run) && i < |run|
    ensures Legal(After(q, run[..i]), run[i]) && Clock(start, run[..i]) <= run[i].at
    ensures After(q, run[..i + 1]) == Next(After(q, run[..i]), run[i]) && Clock(start, run[..i + 1]) == run[i].at
  {
    Slices(run, i);
    LegalSplit(q, start, run[..i + 1], run[i + 1..]);
    LegalLast(q, start, run[..i], run[i]);
  }

  /** The queue and the clock between events, or between batches. */
  datatype Moment = Moment(queue: seq<Conn>, clock: int)

  ghost predicate Passes(m: Moment, e: Event, next: Moment) {
    && Legal(m.queue, ActionOf(e)) && m.clock <= e.at
    && next == Moment(Next(m.queue, ActionOf(e)), e.at)
  }

  lemma EventCourse(q: seq<Conn>, clock: int, events: seq<Event>) returns (course: seq<Moment>)
    requires LegalFrom(q, clock, Actions(events))
    ensures |course| == |events| + 1 && course[0] == Moment(q, clock)
    ensures forall i :: 0 <= i < |events| ==> Passes(course[i], events[i], course[i + 1])
    ensures course[|events|] == Moment(After(q, Actions(events)), Clock(clock, Actions(events)))
  {
    var acts := Actions(events);
    course := seq(|events| + 1, i requires 0 <= i <= |events| =>
      Moment(After(q, acts[..i]), Clock(clock, acts[..i])));
    forall i | 0 <= i < |events|
      ensures Passes(course[i], events[i], course[i + 1])
    {
      LegalAt(q, clock, acts, i);
    }
    assert acts[..|acts|] == acts;
  }

  class Server {
    const timers: SortTimerLst
    var users: map<int, UtilTimer>
    var open: set<int>  // the descriptors of connections, as the kernel sees them
    ghost var queue: seq<Conn>
    ghost var clock: int
    ghost var repr: set<UtilTimer>

    ghost predicate Valid()
      reads this, timers, timers.nodes
    {
      && timers.Valid()
      && Fits(timers.Contents(), queue, users, open, repr, clock)
    }

    constructor (start: int)
      ensures Valid() && queue == [] && clock == start && fresh(timers) && repr == {}
    {
      timers := new SortTimerLst();
      users, open := map[], {};
      queue, clock, repr := [], start, {};
    }

    lemma NodesInRepr()
      requires Valid()
      ensures forall t :: t in timers.nodes ==> t in repr
    {
      forall i | 0 <= i < |timers.nodes|
        ensures timers.nodes[i] in repr
      {
        assert timers.Contents()[i].timer == timers.nodes[i];
      }
    }

    method AcceptConnection(connfd: int, now: int)
      requires Valid() && connfd !in open && clock <= now
      modifies this, timers, repr
      ensures Valid() && fresh(repr - old(repr))
      ensures queue == Next(old(queue), Accept(connfd, now)) && clock == now
    {
      NodesInRepr();
      var timer := new UtilTimer(connfd, now + 3 * TIMESLOT);
      AcceptFits(timers.Contents(), queue, users, open, repr, clock, timer, now);
      Record(timer, now);
      timers.AddTimer(timer);
    }

    method Record(timer: UtilTimer, now: int)
      modifies this
      ensures open == old(open) + {timer.user} && users == old(users)[timer.user := timer]
      ensures queue == Next(old(queue), Accept(timer.user, now)) && clock == now && repr == old(repr) + {timer}
    {
      open, users := open + {timer.user}, users[timer.user := timer];
      queue, clock, repr := Next(queue, Accept(timer.user, now)), now, repr + {timer};
    }

    method HandleInput(sockfd: int, outcome: Outcome, now: int)
      requires Valid() && (sockfd in open || outcome == WouldBlock) && clock <= now
      modifies this, timers, repr
      ensures Valid() && repr == old(repr)
      ensures clock == now
      ensures outcome == WouldBlock ==> queue == old(queue) && open == old(open)
      ensures outcome == Received ==> queue == Next(old(queue), Receive(sockfd, now)) && open == old(open)
      ensures outcome == EndOfFile || outcome == Failed ==>
        queue == Next(old(queue), Hangup(sockfd, now)) && open == old(open) - {sockfd}
    {
      NodesInRepr();
      if outcome == WouldBlock {
        clock := now;
      } else {
        var timer := Lookup(sockfd);
        if outcome == Received {
          Renew(timer, now);
        } else {
          DropConnection(timer, now);
        }
      }
    }

    method Lookup(sockfd: int) returns (timer: UtilTimer)
      requires Valid() && sockfd in open
      ensures Has(queue, sockfd) && timer.user == sockfd && timer in timers.nodes
      ensures SortedTimers.IndexOf(timers.Contents(), timer) == IndexOf(queue, sockfd)
    {
      ghost var i :| 0 <= i < |queue| && queue[i].fd == sockfd;
      Find(queue, clock, i);
      Located(timers.Contents(), queue, users, clock, sockfd);
      timer := users[sockfd];
    }

    /** cb_func, then del_timer. */
    method DropConnection(timer: UtilTimer, now: int)
      requires Valid() && clock <= now && Has(queue, timer.user) && timer in timers.nodes
      requires SortedTimers.IndexOf(timers.Contents(), timer) == IndexOf(queue, timer.user)
      modifies this, timers, timers.nodes
      ensures Valid() && repr == old(repr)
      ensures queue == Next(old(queue), Hangup(timer.user, now)) && clock == now && open == old(open) - {timer.user}
    {
      HangupFits(timers.Contents(), queue, users, open, repr, clock, timer.user, now);
      Move(Hangup(timer.user, now), open - {timer.user});
      timers.DelTimer(timer);
    }

    /** A fresh lease, then adjust_timer. */
    method Renew(timer: UtilTimer, now: int)
      requires Valid() && clock <= now && Has(queue, timer.user) && timer in timers.nodes
      requires SortedTimers.IndexOf(timers.Contents(), timer) == IndexOf(queue, timer.user)
      modifies this, timers, timers.nodes
      ensures Valid() && repr == old(repr)
      ensures queue == Next(old(queue), Receive(timer.user, now)) && clock == now && open == old(open)
    {
      ghost var i := IndexOf(queue, timer.user);
      ReceiveFits(timers.Contents(), queue, users, open, repr, clock, timer.user, now);
      Move(Receive(timer.user, now), open);
      Readjust(timer, now, i);
    }

    method Readjust(timer: UtilTimer, now: int, ghost i: nat)
      requires timers.Valid() && timer in timers.nodes && i < |timers.nodes|
      requires SortedTimers.IndexOf(timers.Contents(), timer) == i
      modifies timers, timers.nodes
      ensures timers.Valid() && timers.Contents() == Renewed(old(timers.Contents()), i, now)
    {
      assert timers.Contents()[i].timer == timers.nodes[i];
      Extend(timer, now + 3 * TIMESLOT, i);
      SnapshotIndex(timers.nodes, i);
      timers.AdjustTimer(timer);
    }

    method Extend(timer: UtilTimer, e: int, ghost i: nat)
      requires timers.Valid() && i < |timers.nodes| && timers.nodes[i] == timer
      modifies timer`expire
      ensures timers.Valid() && timer in timers.nodes
      ensures timers.Contents() == old(timers.Contents()[i := timers.Contents()[i].(expire := e)])
    {
      timer.expire := e;
    }

    method Move(a: Action, left: set<int>)
      modifies this
      ensures queue == Next(old(queue), a) && clock == a.at && open == left && users == old(users) && repr == old(repr)
    {
      open, queue, clock := left, Next(queue, a), a.at;
    }

    /** timer_handler: every timer that the list fires closes its connection. */
    method TimerHandler(now: int)
      requires Valid() && clock <= now
      modifies this, timers, timers.nodes
      ensures Valid() && repr == old(repr)
      ensures queue == Next(old(queue), Tick(now)) && clock == now
      ensures open == old(open) - Fds(old(queue)[..StaleCount(old(queue), now)])
    {
      ghost var stale := queue[..StaleCount(queue, now)];
      TickFits(timers.Contents(), queue, users, open, repr, clock, now);
      var fired := timers.Tick(now);
      var left := Close(open, fired, stale);
      Move(Tick(now), left);
    }

    /** cb_func for each timer in turn. */
    static method Close(open: set<int>, fired: seq<UtilTimer>, ghost stale: seq<Conn>) returns (left: set<int>)
      requires |fired| == |stale| && forall i :: 0 <= i < |fired| ==> fired[i].user == stale[i].fd
      ensures left == open - Fds(stale)
    {
      left := open;
      for i := 0 to |fired|
        invariant left == open - Fds(stale[..i])
      {
        left := left - {fired[i].user};
        assert stale[..i + 1] == stale[..i] + [stale[i]];
        FdsPushed(stale[..i], stale[i]);
      }
      assert stale[..|fired|] == stale;
    }

    method HandleEvent(e: Event)
      requires Valid() && clock <= e.at && Legal(queue, ActionOf(e))
      modifies this, timers, repr
      ensures Valid() && fresh(repr - old(repr))
      ensures queue == Next(old(queue), ActionOf(e)) && clock == e.at
    {
      match e {
        case Connection(fd, at) =>
          HasIffOpen(queue, clock, fd);
          AcceptConnection(fd, at);
        case Input(fd, outcome, at) =>
          HasIffOpen(queue, clock, fd);
          HandleInput(fd, outcome, at);
        case _ =>
          clock := e.at;
      }
    }

    method ServeEvent(e: Event) returns (alarm: bool, term: bool)
      requires Valid() && clock <= e.at && Legal(queue, ActionOf(e))
      modifies this, timers, repr
      ensures Valid() && fresh(repr - old(repr))
      ensures queue == Next(old(queue), ActionOf(e)) && clock == e.at
      ensures alarm == (e.Signals? && Alarm in e.sigs) && term == (e.Signals? && Terminate in e.sigs)
    {
      alarm, term := false, false;
      if e.Signals? {
        alarm, term := ReadSignals(e.sigs);
      }
      HandleEvent(e);
    }

    /** One round of the loop: the events of one epoll result, then the pending tick. */
    method ServeBatch(b: Batch) returns (stop: bool)
      requires Valid() && LegalFrom(queue, clock, BatchActions(b))
      modifies this, timers, repr
      ensures Valid() && fresh(repr - old(repr))
      ensures queue == After(old(queue), BatchActions(b)) && clock == Clock(old(clock), BatchActions(b))
      ensures stop == Signalled(b.events, Terminate)
    {
      ghost var acts, tail := Actions(b.events), if Signalled(b.events, Alarm) then [Tick(b.tickAt)] else [];
      LegalSplit(queue, clock, acts, tail);
      AfterConcat(queue, clock, acts, tail);
      var timeout;
      timeout, stop := ServeEvents(b.events);
      if timeout {
        LegalLast(queue, clock, [], Tick(b.tickAt));
        NodesInRepr();
        TimerHandler(b.tickAt);
      }
    }

    method ServeEvents(events: seq<Event>) returns (timeout: bool, stop: bool)
      requires Valid() && LegalFrom(queue, clock, Actions(events))
      modifies this, timers, repr
      ensures Valid() && fresh(repr - old(repr))
      ensures queue == After(old(queue), Actions(events)) && clock == Clock(old(clock), Actions(events))
      ensures timeout == Signalled(events, Alarm) && stop == Signalled(events, Terminate)
    {
      ghost var course := EventCourse(queue, clock, events);
      timeout, stop := ServeAlong(events, course);
    }

    method ServeAlong(events: seq<Event>, ghost course: seq<Moment>) returns (timeout: bool, stop: bool)
      requires Valid() && |course| == |events| + 1 && course[0] == Moment(queue, clock)
      requires forall i :: 0 <= i < |events| ==> Passes(course[i], events[i], course[i + 1])
      modifies this, timers, repr
      ensures Valid() && fresh(repr - old(repr)) && Moment(queue, clock) == course[|events|]
      ensures timeout == Signalled(events, Alarm) && stop == Signalled(events, Terminate)
    {
      timeout, stop := false, false;
      for i := 0 to |events|
        invariant Valid() && fresh(repr - old(repr)) && Moment(queue, clock) == course[i]
        invariant timeout == Signalled(events[..i], Alarm) && stop == Signalled(events[..i], Terminate)
      {
        assert Passes(course[i], events[i], course[i + 1]);
        SignalledNext(events, i, Alarm);
        SignalledNext(events, i, Terminate);
        var alarm, term := ServeEvent(events[i]);
        timeout, stop := timeout || alarm, stop || term;
      }
      assert events[..|events|] == events;
    }
  }

  /** The switch over the received signal bytes. */
  method ReadSignals(sigs: seq<Sig>) returns (alarm: bool, term: bool)
    ensures alarm <==> Alarm in sigs
    ensures term <==> Terminate in sigs
  {
    alarm, term := false, false;
    for i := 0 to |sigs|
      invariant alarm <==> Alarm in sigs[..i]
      invariant term <==> Terminate in sigs[..i]
    {
      match sigs[i] {
        case Alarm => alarm := true;
        case Terminate => term := true;
        case OtherSig =>
      }
    }
  }

  lemma OpenAsAccounted(start: int, run: seq<Action>)
    requires LegalRun(start, run)
    ensures forall fd :: fd in Fds(After([], run)) <==> IsOpen(run, fd)
  {
    QueueIsLru(start, run);
    forall fd
      ensures fd in Fds(After([], run)) <==> IsOpen(run, fd)
    {
      HasIffOpen(After([], run), Clock(start, run), fd);
    }
  }

  // ---------- the account of a server, event by event ----------

  /** A place in the batches: event k of batch b or, behind its events, its tick. */
  datatype Place = Place(b: nat, k: nat)

  predicate Earlier(p: Place, q: Place) {
    p.b < q.b || (p.b == q.b && p.k < q.k)
  }

  predicate IsEvent(batches: seq<Batch>, p: Place) {
    p.b < |batches| && p.k < |batches[p.b].events|
  }

  function EventAt(batches: seq<Batch>, p: Place): Event
    requires IsEvent(batches, p)
  {
    batches[p.b].events[p.k]
  }

  /** The batch brings SIGALRM, so that its events are followed by a tick. */
  ghost predicate Ticks(b: Batch) {
    Signalled(b.events, Alarm)
  }

  /** The client is there: it has connected, or sent something. */
  predicate Active(e: Event, fd: int) {
    (e.Connection? && e.fd == fd) || (e.Input? && e.fd == fd && e.outcome == Received)
  }

  /** The client is gone: it has closed, or reading from it has failed. */
  predicate Gone(e: Event, fd: int) {
    e.Input? && e.fd == fd && (e.outcome == EndOfFile || e.outcome == Failed)
  }

  /** `p` is the last activity of `fd` before `end`, the client has not gone since, and no
      tick before `end` came 15 seconds after it, or later. */
  ghost predicate KeepsOpen(batches: seq<Batch>, p: Place, end: Place, fd: int) {
    && IsEvent(batches, p) && Earlier(p, end) && end.b <= |batches| && Active(EventAt(batches, p), fd)
    && (forall q :: IsEvent(batches, q) && Earlier(p, q) && Earlier(q, end) ==>
          !Active(EventAt(batches, q), fd) && !Gone(EventAt(batches, q), fd))
    && (forall c :: p.b <= c < end.b && Ticks(batches[c]) ==> batches[c].tickAt < EventAt(batches, p).at + 15)
  }

  ghost predicate OpenAt(batches: seq<Batch>, end: Place, fd: int) {
    exists p :: KeepsOpen(batches, p, end, fd)
  }

  /** How many batches are served: those up to the first that brings SIGTERM. */
  ghost function Served(batches: seq<Batch>): (n: nat)
    ensures n <= |batches|
    ensures forall b :: 0 <= b < n - 1 ==> !Signalled(batches[b].events, Terminate)
    ensures n < |batches| ==> n > 0 && Signalled(batches[n - 1].events, Terminate)
  {
    if batches == [] then 0
    else if Signalled(batches[0].events, Terminate) then 1
    else 1 + Served(batches[1..])
  }

  /** When a place is due. */
  function TimeAt(batches: seq<Batch>, p: Place): int
    requires p.b < |batches| && p.k <= |batches[p.b].events|
  {
    if p.k < |batches[p.b].events| then EventAt(batches, p).at else batches[p.b].tickAt
  }

  /** Something happens there: an event, or a tick. */
  ghost predicate Happens(batches: seq<Batch>, n: nat, p: Place) {
    p.b < n <= |batches| && (IsEvent(batches, p) || (p.k == |batches[p.b].events| && Ticks(batches[p.b])))
  }

  /** The kernel's part: time does not go back, an accepted descriptor is not open, and what is read
      comes from an open one. */
  ghost predicate KernelKeeps(batches: seq<Batch>, n: nat, start: int)
    requires n <= |batches|
  {
    && (forall p :: Happens(batches, n, p) ==> start <= TimeAt(batches, p))
    && (forall p, q :: Happens(batches, n, p) && Happens(batches, n, q) && Earlier(p, q) ==>
          TimeAt(batches, p) <= TimeAt(batches, q))
    && (forall p :: IsEvent(batches, p) && p.b < n ==> Admissible(batches, p))
  }

  ghost predicate Admissible(batches: seq<Batch>, p: Place)
    requires IsEvent(batches, p)
  {
    match EventAt(batches, p)
    case Connection(fd, _) => !OpenAt(batches, p, fd)
    case Input(fd, outcome, _) => outcome != WouldBlock ==> OpenAt(batches, p, fd)
    case _ => true
  }

  // ---------- places and actions correspond ----------

  /** The places of the first n batches, in order. */
  ghost function Places(batches: seq<Batch>, n: nat): (r: seq<Place>)
    requires n <= |batches|
    ensures |r| == |FirstBatches(batches, n)|
  {
    if n == 0 then []
    else Places(batches, n - 1) + seq(|BatchActions(batches[n - 1])|, (k: nat) => Place(n - 1, k))
  }

  ghost function ActionAt(batches: seq<Batch>, p: Place): Action
    requires p.b < |batches| && p.k <= |batches[p.b].events|
  {
    if p.k < |batches[p.b].events| then ActionOf(EventAt(batches, p)) else Tick(batches[p.b].tickAt)
  }

  lemma {:induction false} PlacesHappen(batches: seq<Batch>, n: nat, i: nat)
    requires n <= |batches| && i < |Places(batches, n)|
    ensures Happens(batches, n, Places(batches, n)[i])
    ensures FirstBatches(batches, n)[i] == ActionAt(batches, Places(batches, n)[i])
  {
    if i < |Places(batches, n - 1)| { PlacesHappen(batches, n - 1, i); }
  }

  lemma {:induction false} PlacesAscend(batches: seq<Batch>, n: nat, i: nat, j: nat)
    requires n <= |batches| && i < j < |Places(batches, n)|
    ensures Earlier(Places(batches, n)[i], Places(batches, n)[j])
  {
    var m := |Places(batches, n - 1)|;
    if j < m {
      PlacesAscend(batches, n - 1, i, j);
    } else if i < m {
      PlacesHappen(batches, n - 1, i);
    }
  }

  lemma {:induction false} PlaceOf(batches: seq<Batch>, n: nat, p: Place) returns (i: nat)
    requires Happens(batches, n, p)
    ensures i < |Places(batches, n)| && Places(batches, n)[i] == p
  {
    if p.b == n - 1 {
      i := |Places(batches, n - 1)| + p.k;
    } else {
      i := PlaceOf(batches, n - 1, p);
    }
  }

  /** Action i of the first n batches is the next before which everything earlier than `end` has happened. */
  ghost predicate Reaches(batches: seq<Batch>, n: nat, i: nat, end: Place)
    requires n <= |batches|
  {
    && i <= |Places(batches, n)|
    && if i < |Places(batches, n)| then end == Places(batches, n)[i] else end == Place(n, 0)
  }

  lemma BeforeEnd(batches: seq<Batch>, n: nat, i: nat, end: Place, j: nat)
    requires n <= |batches| && Reaches(batches, n, i, end) && j < |Places(batches, n)|
    ensures j < i <==> Earlier(Places(batches, n)[j], end)
  {
    PlacesHappen(batches, n, j);
    if j < i < |Places(batches, n)| { PlacesAscend(batches, n, j, i); }
    if i < j { PlacesAscend(batches, n, i, j); }
  }

  lemma LastTouchIs(run: seq<Action>, fd: int, m: nat)
    requires m < |run| && Touches(run[m], fd) && forall j :: m < j < |run| ==> !Touches(run[j], fd)
    ensures LastTouch(run, fd) == m
  {
  }

  lemma EventsAreActions(e: Event, fd: int)
    ensures Touches(ActionOf(e), fd) <==> Active(e, fd)
    ensures (ActionOf(e).Hangup? && ActionOf(e).fd == fd) <==> Gone(e, fd)
    ensures !ActionOf(e).Tick? && (Active(e, fd) ==> ActionOf(e).at == e.at)
  {
  }

  lemma EndInRange(batches: seq<Batch>, n: nat, i: nat, end: Place)
    requires n <= |batches| && Reaches(batches, n, i, end)
    ensures end.b <= n && (if end.b < n then end.k <= |batches[end.b].events| else end.k == 0)
  {
    if i < |Places(batches, n)| { PlacesHappen(batches, n, i); }
  }

  /** An account by actions is one by events ... */
  lemma AccountedByEvents(batches: seq<Batch>, n: nat, i: nat, end: Place, fd: int)
    requires n <= |batches| && Reaches(batches, n, i, end) && IsOpen(FirstBatches(batches, n)[..i], fd)
    ensures OpenAt(batches, end, fd)
  {
    var run, places := FirstBatches(batches, n)[..i], Places(batches, n);
    var m := LastTouch(run, fd);
    var p := places[m];
    PlacesHappen(batches, n, m);
    BeforeEnd(batches, n, i, end, m);
    EndInRange(batches, n, i, end);
    assert IsEvent(batches, p);
    EventsAreActions(EventAt(batches, p), fd);
    forall q | IsEvent(batches, q) && Earlier(p, q) && Earlier(q, end)
      ensures !Active(EventAt(batches, q), fd) && !Gone(EventAt(batches, q), fd)
    {
      var j := IndexBetween(batches, n, i, end, m, q);
      EventsAreActions(EventAt(batches, q), fd);
      assert !Ends(run[j], fd, run[m].at);
    }
    forall c | p.b <= c < end.b && Ticks(batches[c])
      ensures batches[c].tickAt < EventAt(batches, p).at + 15
    {
      var j := IndexBetween(batches, n, i, end, m, Place(c, |batches[c].events|));
      assert !Ends(run[j], fd, run[m].at);
    }
    assert KeepsOpen(batches, p, end, fd);
  }

  lemma IndexBetween(batches: seq<Batch>, n: nat, i: nat, end: Place, m: nat, q: Place) returns (j: nat)
    requires n <= |batches| && Reaches(batches, n, i, end) && m < i
    requires Happens(batches, n, q) && Earlier(Places(batches, n)[m], q) && Earlier(q, end)
    ensures m < j < i && Places(batches, n)[j] == q && FirstBatches(batches, n)[j] == ActionAt(batches, q)
  {
    j := PlaceOf(batches, n, q);
    PlacesHappen(batches, n, j);
    BeforeEnd(batches, n, i, end, j);
    if j < m { PlacesAscend(batches, n, j, m); }
  }

  /** ... and the other way round. */
  lemma AccountedByActions(batches: seq<Batch>, n: nat, i: nat, end: Place, fd: int, p: Place)
    requires n <= |batches| && Reaches(batches, n, i, end) && KeepsOpen(batches, p, end, fd)
    ensures IsOpen(FirstBatches(batches, n)[..i], fd)
  {
    var run, places := FirstBatches(batches, n)[..i], Places(batches, n);
    EndInRange(batches, n, i, end);
    var m := PlaceOf(batches, n, p);
    BeforeEnd(batches, n, i, end, m);
    PlacesHappen(batches, n, m);
    EventsAreActions(EventAt(batches, p), fd);
    forall j | m < j < i
      ensures !Touches(run[j], fd) && !Ends(run[j], fd, run[m].at)
    {
      PlacesHappen(batches, n, j);
      PlacesAscend(batches, n, m, j);
      BeforeEnd(batches, n, i, end, j);
      if IsEvent(batches, places[j]) { EventsAreActions(EventAt(batches, places[j]), fd); }
    }
    LastTouchIs(run, fd, m);
  }

  lemma Accounted(batches: seq<Batch>, n: nat, i: nat, end: Place, fd: int)
    requires n <= |batches| && Reaches(batches, n, i, end)
    ensures IsOpen(FirstBatches(batches, n)[..i], fd) <==> OpenAt(batches, end, fd)
  {
    if IsOpen(FirstBatches(batches, n)[..i], fd) { AccountedByEvents(batches, n, i, end, fd); }
    if OpenAt(batches, end, fd) {
      var p :| KeepsOpen(batches, p, end, fd);
      AccountedByActions(batches, n, i, end, fd, p);
    }
  }

  lemma EventLegal(q: seq<Conn>, batches: seq<Batch>, p: Place, now: int)
    requires InOrder(q, now) && IsEvent(batches, p) && Admissible(batches, p)
    requires forall fd :: Has(q, fd) <==> OpenAt(batches, p, fd)
    ensures Legal(q, ActionOf(EventAt(batches, p)))
  {
  }

  /** Where the kernel does its part, the actions are a legal run. */
  lemma {:induction false} KernelMakesLegal(batches: seq<Batch>, n: nat, start: int, i: nat)
    requires n <= |batches| && KernelKeeps(batches, n, start) && i <= |FirstBatches(batches, n)|
    ensures LegalRun(start, FirstBatches(batches, n)[..i])
  {
    var run := FirstBatches(batches, n);
    if i > 0 {
      KernelMakesLegal(batches, n, start, i - 1);
      var before, p := run[..i - 1], Places(batches, n)[i - 1];
      assert run[..i][..i - 1] == before;
      PlacesHappen(batches, n, i - 1);
      QueueIsLru(start, before);
      TimesAscend(batches, n, start, i);
      forall fd
        ensures Has(After([], before), fd) <==> OpenAt(batches, p, fd)
      {
        Accounted(batches, n, i - 1, p, fd);
      }
      if IsEvent(batches, p) { EventLegal(After([], before), batches, p, Clock(start, before)); }
    }
  }

  lemma TimesAscend(batches: seq<Batch>, n: nat, start: int, i: nat)
    requires n <= |batches| && KernelKeeps(batches, n, start) && 0 < i <= |FirstBatches(batches, n)|
    ensures Clock(start, FirstBatches(batches, n)[..i - 1]) <= FirstBatches(batches, n)[i - 1].at
  {
    var run, p := FirstBatches(batches, n), Places(batches, n)[i - 1];
    PlacesHappen(batches, n, i - 1);
    ActionTime(batches, p);
    if i > 1 {
      var o := Places(batches, n)[i - 2];
      PlacesHappen(batches, n, i - 2);
      ActionTime(batches, o);
      PlacesAscend(batches, n, i - 2, i - 1);
      assert TimeAt(batches, o) <= TimeAt(batches, p);
      assert run[..i - 1][i - 2] == run[i - 2];
    }
  }

  lemma ActionTime(batches: seq<Batch>, p: Place)
    requires p.b < |batches| && p.k <= |batches[p.b].events|
    ensures ActionAt(batches, p).at == TimeAt(batches, p)
  {
  }

  lemma {:induction false} FirstIsPrefix(batches: seq<Batch>, m: nat, n: nat)
    requires m <= n <= |batches|
    ensures FirstBatches(batches, m) <= FirstBatches(batches, n)
    decreases n - m
  {
    if m < n { FirstIsPrefix(batches, m, n - 1); }
  }

  lemma PrefixLegal(start: int, a: seq<Action>, run: seq<Action>)
    requires a <= run && LegalRun(start, run)
    ensures LegalRun(start, a)
  {
    assert run == a + run[|a|..];
    LegalSplit([], start, a, run[|a|..]);
  }

  /** One batch further. */
  lemma BatchStep(start: int, batches: seq<Batch>, i: nat, n: nat)
    requires i < n <= |batches| && LegalRun(start, FirstBatches(batches, n))
    ensures var done := FirstBatches(batches, i);
      && LegalFrom(After([], done), Clock(start, done), BatchActions(batches[i]))
      && After([], FirstBatches(batches, i + 1)) == After(After([], done), BatchActions(batches[i]))
      && Clock(start, FirstBatches(batches, i + 1)) == Clock(Clock(start, done), BatchActions(batches[i]))
  {
    var done, next := FirstBatches(batches, i), BatchActions(batches[i]);
    FirstIsPrefix(batches, i + 1, n);
    PrefixLegal(start, done + next, FirstBatches(batches, n));
    LegalSplit([], start, done, next);
    AfterConcat([], start, done, next);
  }

  /** The run of a server is legal, and its two accounts agree. */
  lemma ServedRun(batches: seq<Batch>, n: nat, start: int)
    requires n <= |batches| && KernelKeeps(batches, n, start)
    ensures LegalRun(start, FirstBatches(batches, n))
    ensures forall fd :: fd in Fds(After([], FirstBatches(batches, n))) <==> OpenAt(batches, Place(n, 0), fd)
  {
    var run := FirstBatches(batches, n);
    KernelMakesLegal(batches, n, start, |run|);
    assert run[..|run|] == run;
    OpenAsAccounted(start, run);
    forall fd
      ensures fd in Fds(After([], run)) <==> OpenAt(batches, Place(n, 0), fd)
    {
      Accounted(batches, n, |run|, Place(n, 0), fd);
    }
  }

  ghost predicate Leads(m: Moment, b: Batch, next: Moment) {
    && LegalFrom(m.queue, m.clock, BatchActions(b))
    && next == Moment(After(m.queue, BatchActions(b)), Clock(m.clock, BatchActions(b)))
  }

  ghost function MomentAt(batches: seq<Batch>, start: int, i: nat): Moment
    requires i <= |batches|
  {
    Moment(After([], FirstBatches(batches, i)), Clock(start, FirstBatches(batches, i)))
  }

  lemma Course(batches: seq<Batch>, start: int, n: nat) returns (course: seq<Moment>)
    requires n <= |batches| && LegalRun(start, FirstBatches(batches, n))
    ensures |course| == n + 1 && course[0] == Moment([], start)
    ensures forall i :: 0 <= i < n ==> Leads(course[i], batches[i], course[i + 1])
    ensures course[n].queue == After([], FirstBatches(batches, n))
  {
    course := seq(n + 1, i requires 0 <= i <= n => MomentAt(batches, start, i));
    forall i | 0 <= i < n
      ensures Leads(course[i], batches[i], course[i + 1])
    {
      BatchStep(start, batches, i, n);
    }
  }

  /** The loop of main, along the moments between the batches. */
  method Loop(batches: seq<Batch>, start: int, ghost course: seq<Moment>) returns (open: set<int>)
    requires var n := Served(batches);
      && |course| == n + 1 && course[0] == Moment([], start)
      && forall i :: 0 <= i < n ==> Leads(course[i], batches[i], course[i + 1])
    ensures open == Fds(course[Served(batches)].queue)
  {
    var server := new Server(start);
    var stop := false;
    var i := 0;
    ghost var n := Served(batches);
    while i < |batches| && !stop
      invariant i <= n && (stop ==> i == n) && (i == n ==> stop || n == |batches|)
      invariant server.Valid() && fresh(server) && fresh(server.timers) && fresh(server.repr)
      invariant Moment(server.queue, server.clock) == course[i]
      decreases |batches| - i
    {
      assert Leads(course[i], batches[i], course[i + 1]);
      server.NodesInRepr();
      stop := server.ServeBatch(batches[i]);
      i := i + 1;
    }
    open := server.open;
  }

  /** main: serve batches until one of them brings SIGTERM.  A descriptor is open at the end if and only
      if its client was active, has not gone since, and no tick came 15 seconds or more after. */
  method Serve(batches: seq<Batch>, start: int) returns (open: set<int>)
    requires KernelKeeps(batches, Served(batches), start)
    ensures forall fd :: fd in open <==> OpenAt(batches, Place(Served(batches), 0), fd)
  {
    ServedRun(batches, Served(batches), start);
    ghost var course := Course(batches, start, Served(batches));
    open := Loop(batches, start, course);
  }
}
