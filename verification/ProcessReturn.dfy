/**
 When, under the lookup as published, the busy flag of a running child can come down.
 */
module ProcessReturn {
  import opened Dispatch
  import opened ProcessPool
  import opened ProcessRuns

  /** An entry still to be handled reports some child. */
  ghost predicate NoticeLeft(s: Pool)
    requires Shape(s)
  {
    exists k :: s.at <= k < s.number && s.events[k] in s.wiring.pipes
  }

  /** Child i still has to read, serve or report something; or its slot holds its pipe from an
      earlier result, and either a notice is left that finds this slot first, or there are
      others whose pipes can report without filling this slot or matching one before it. */
  ghost predicate Coming(s: Pool, i: nat)
    requires Shape(s) && i < |s.children|
  {
    var c := s.children[i];
    || c.tokens + c.live + c.notices > 0
    || (&& s.events[i] == s.wiring.pipes[i]
        && ((i >= 1 && |s.children| >= 3) || (NoticeLeft(s) && FirstMatch(s.events, s.wiring.pipes, 0) == i)))
  }

  // ---------- no way back ----------

  /** The child has nothing to read, serve or report. */
  predicate Done(s: Pool, i: nat)
    requires Shape(s) && i < |s.children|
  {
    s.children[i].tokens + s.children[i].live + s.children[i].notices == 0
  }

  lemma WaitNotComing(s: Pool, a: Step, i: nat)
    requires Sound(s) && Enabled(s, a) && a.Wait? && i < |s.children| && s.children[i].running && !Coming(s, i)
    ensures !Coming(Next(s, a), i)
  {
    var t := Next(s, a);
    WaitPending(s, a, i);
    assert s.wiring.pipes[i] !in a.fds && Done(t, i);
    if |a.fds| > i {
      assert t.events[i] == a.fds[i];
    } else {
      assert t.events[i] == s.events[i];
      if |a.fds| == 1 { assert t.events[0] == a.fds[0]; }
    }
  }

  lemma HandleNotComing(s: Pool, a: Step, i: nat)
    requires Sound(s) && s.lookup.AsWritten? && Enabled(s, a) && a.Handle? && i < |s.children|
    requires s.desk.used[i] == 1 && !Coming(s, i)
    ensures Next(s, a).desk.used[i] == 1 && !Coming(Next(s, a), i)
  {
    var t := Next(s, a);
    assert Done(t, i) && t.events == s.events;
    if IsNotice(s, a) {
      assert s.events[s.at] in s.wiring.pipes;
      assert NoticeLeft(s);
    }
    if NoticeLeft(t) { assert NoticeLeft(s); }
  }

  lemma StepNotComing(s: Pool, a: Step, i: nat)
    requires Sound(s) && s.lookup.AsWritten? && Enabled(s, a) && i < |s.children| && Next(s, a).children[i].running
    requires s.desk.used[i] == 1 && !Coming(s, i)
    ensures Next(s, a).desk.used[i] == 1 && !Coming(Next(s, a), i)
  {
    match a
    case Wait(_) => WaitNotComing(s, a, i);
    case Handle(_, _) => HandleNotComing(s, a, i);
    case _ =>
      assert Done(s, i) && Done(Next(s, a), i);
      if NoticeLeft(Next(s, a)) { assert NoticeLeft(s); }
  }

  lemma {:induction false} NeverBack(s: Pool, run: seq<Step>, i: nat)
    requires Sound(s) && s.lookup.AsWritten? && Runs(s, run) && i < |s.children|
    requires s.desk.used[i] == 1 && !Coming(s, i)
    ensures !ComesBack(s, run, i)
    decreases |run|
  {
    if run != [] {
      var t := Next(s, run[0]);
      StepSound(s, run[0]);
      if t.children[i].running {
        StepNotComing(s, run[0], i);
        NeverBack(t, run[1..], i);
      } else {
        StaysGone(t, run[1..], i);
      }
    }
  }

  // ---------- a way back ----------

  /** A run from s has come to t, where child i is running and busy. */
  ghost predicate Reaches(s: Pool, run: seq<Step>, t: Pool, i: nat)
    requires Shape(s)
  {
    Leads(s, run, t) && Waiting(t, i) && t.lookup.AsWritten? && |t.children| == |s.children|
  }

  lemma {:induction false} ToNotice(s: Pool, run0: seq<Step>, t0: Pool, i: nat) returns (run: seq<Step>, t: Pool)
    requires Shape(s) && Reaches(s, run0, t0, i)
    requires var c := t0.children[i]; c.tokens + c.live + c.notices > 0
    ensures Reaches(s, run, t, i) && t.children[i].notices > 0 && (AllRunning(t0) ==> AllRunning(t))
    decreases 2 * t0.children[i].tokens + t0.children[i].live
  {
    run, t := run0, t0;
    if t.children[i].tokens > 0 {
      StepSound(t, TakeToken(i, true));
      run, t := Then(s, run, t, TakeToken(i, true));
      run, t := ToNotice(s, run, t, i);
    } else if t.children[i].live > 0 {
      StepSound(t, Serve(i, true));
      run, t := Then(s, run, t, Serve(i, true));
    }
  }

  lemma HandleOne(t: Pool, i: nat)
    requires Waiting(t, i) && t.lookup.AsWritten? && t.at < t.number
    ensures Enabled(t, Handle(false, []))
    ensures var u := Next(t, Handle(false, []));
      && u.children[i] == t.children[i] && u.events == t.events && u.at == t.at + 1 && u.number == t.number
      && (u.desk.used[i] == 0 || Waiting(u, i)) && (AllRunning(t) ==> AllRunning(u))
      && (FirstMatch(t.events, t.wiring.pipes, 0) == i && NoticeLeft(t) ==> u.desk.used[i] == 0 || NoticeLeft(u))
  {
    var a := Handle(false, []);
    StepSound(t, a);
    if NoticeLeft(t) && !IsNotice(t, a) {
      var k :| t.at <= k < t.number && t.events[k] in t.wiring.pipes;
      assert k > t.at;
    }
  }

  /** The rest of the present result is handled. */
  lemma {:induction false} Drain(s: Pool, run0: seq<Step>, t0: Pool, i: nat) returns (run: seq<Step>, t: Pool)
    requires Shape(s) && Reaches(s, run0, t0, i)
    ensures Leads(s, run, t) && Shape(t) && |t.children| == |s.children| && t.children[i] == t0.children[i]
    ensures AllRunning(t0) ==> AllRunning(t)
    ensures t.desk.used[i] == 0 || (Reaches(s, run, t, i) && t.at == t.number && t.events == t0.events)
    ensures FirstMatch(t0.events, t0.wiring.pipes, 0) == i && NoticeLeft(t0) ==> t.desk.used[i] == 0
    decreases t0.number - t0.at
  {
    run, t := run0, t0;
    if t.at < t.number {
      HandleOne(t, i);
      run, t := Then(s, run, t, Handle(false, []));
      if t.desk.used[i] != 0 { run, t := Drain(s, run, t, i); }
    }
  }

  /** No child has exited. */
  predicate AllRunning(s: Pool) {
    forall j :: 0 <= j < |s.children| ==> s.children[j].running
  }

  /** The children that have no connection. */
  function Unused(t: Pool): set<nat>
    requires Shape(t)
  {
    set j: nat | j < |t.children| && t.desk.used[j] != 1
  }

  lemma ArrivalUses(t: Pool, u: Pool, i: nat)
    requires Waiting(t, i) && AllRunning(t) && Shape(u) && u.desk == Assign(t.desk)
    requires Unused(t) != {}
    ensures Unused(u) < Unused(t)
  {
    SelectIsFirstFree(t.desk.pids, t.desk.used, t.desk.next);
    var j :| j in Unused(t);
    assert Free(t.desk.pids, t.desk.used, j);
    assert Scan(t.desk.pids, t.desk.used, t.desk.next, 0) in Unused(t);
  }

  /** Connections arrive until every child is busy, so that every pipe is watched. */
  lemma {:induction false} BusyAll(s: Pool, run0: seq<Step>, t0: Pool, i: nat) returns (run: seq<Step>, t: Pool)
    requires Shape(s) && Reaches(s, run0, t0, i) && AllRunning(t0) && t0.at == t0.number
    ensures Reaches(s, run, t, i) && AllRunning(t) && t.at == t.number && t.children[i] == t0.children[i]
    ensures i >= 1 ==> t.events[i] == t0.events[i]
    ensures forall j :: 0 <= j < |t.children| ==> t.children[j].watched
    decreases Unused(t0)
  {
    run, t := run0, t0;
    if Unused(t) == {} {
      forall j | 0 <= j < |t.children|
        ensures t.children[j].watched
      {
        assert j !in Unused(t);
      }
    } else {
      var more, u := Arrival(s, run, t);
      ArrivalKeeps(t, u, i);
      ArrivalUses(t, u, i);
      run, t := BusyAll(s, more, u, i);
    }
  }

  lemma ArrivalKeeps(t: Pool, u: Pool, i: nat)
    requires Waiting(t, i) && AllRunning(t) && t.at == t.number
    requires Enabled(t, Wait([t.wiring.listenfd])) && Enabled(Next(t, Wait([t.wiring.listenfd])), Handle(false, []))
    requires u == Next(Next(t, Wait([t.wiring.listenfd])), Handle(false, []))
    ensures Waiting(u, i) && AllRunning(u) && u.children[i] == t.children[i]
  {
    StepSound(t, Wait([t.wiring.listenfd]));
    StepSound(Next(t, Wait([t.wiring.listenfd])), Handle(false, []));
  }

  /** The first k children, except i, exit. */
  lemma {:induction false} Quit(s: Pool, run0: seq<Step>, t0: Pool, i: nat, k: nat) returns (run: seq<Step>, t: Pool)
    requires Shape(s) && Reaches(s, run0, t0, i) && k <= |s.children| && AllRunning(t0)
    requires forall j :: 0 <= j < |t0.children| ==> t0.children[j].watched
    ensures Reaches(s, run, t, i) && t == t0.(children := t.children) && t.children[i] == t0.children[i]
    ensures forall j :: 0 <= j < k && j != i ==> Reportable(t.children[j])
    ensures forall j :: k <= j < |t.children| ==> t.children[j] == t0.children[j]
  {
    run, t := run0, t0;
    if k > 0 {
      run, t := Quit(s, run, t, i, k - 1);
      if k - 1 != i {
        StepSound(t, Exit(k - 1));
        run, t := Then(s, run, t, Exit(k - 1));
      }
    }
  }

  /** A result whose first entry, or the second behind a connection, is a notice that finds slot i first. */
  lemma Knock(s: Pool, run0: seq<Step>, t0: Pool, i: nat, fds: seq<int>) returns (run: seq<Step>, t: Pool)
    requires Shape(s) && Reaches(s, run0, t0, i) && Enabled(t0, Wait(fds)) && fds != []
    requires fds[0] in t0.wiring.pipes || (|fds| > 1 && fds[0] == t0.wiring.listenfd && fds[1] in t0.wiring.pipes)
    requires FirstMatch(fds + t0.events[|fds|..], t0.wiring.pipes, 0) == i
    ensures ComesBack(s, run, i)
  {
    run, t := Then(s, run0, t0, Wait(fds));
    StepSound(t0, Wait(fds));
    if fds[0] !in t.wiring.pipes {
      run, t := Handled(s, run, t);
      assert t.desk.used[i] == 1 && t.children[i].running;
    }
    run, t := Handled(s, run, t);
  }

  /** The pipes of all others report. */
  ghost predicate Alone(t: Pool, i: nat)
    requires Shape(t)
  {
    forall j :: 0 <= j < |t.children| && j != i ==> Reportable(t.children[j])
  }

  /** A connection, and the pipes of the children before child i - 1. */
  function Fillers(w: Wiring, i: nat): seq<int>
    requires 1 <= i <= |w.pipes|
  {
    [w.listenfd] + w.pipes[..i - 1]
  }

  lemma AllReady(t: Pool, i: nat, fds: seq<int>)
    requires Sound(t) && i < |t.children| && Alone(t, i) && t.at == t.number && !t.desk.stop
    requires AllDifferent(fds) && |fds| <= |t.events|
    requires forall k :: 0 <= k < |fds| ==> fds[k] == t.wiring.listenfd || fds[k] in t.wiring.pipes
    requires t.wiring.pipes[i] in fds ==> t.children[i].notices > 0
    ensures Enabled(t, Wait(fds))
  {
    forall k | 0 <= k < |fds|
      ensures Ready(t, fds[k])
    {
      if fds[k] != t.wiring.listenfd {
        var j :| 0 <= j < |t.children| && t.wiring.pipes[j] == fds[k];
      }
    }
  }

  lemma FirstIs(slots: seq<int>, pipes: seq<int>, i: nat)
    requires i < |pipes| <= |slots| && slots[i] == pipes[i] && forall k :: 0 <= k < i ==> slots[k] != pipes[k]
    ensures FirstMatch(slots, pipes, 0) == i
  {
  }

  lemma FillersFill(w: Wiring, i: nat)
    requires Wired(w) && 1 <= i <= |w.pipes|
    ensures var f := Fillers(w, i);
      && |f| == i && AllDifferent(f)
      && (forall k :: 0 <= k < i ==> f[k] != w.pipes[k])
      && (forall k, j :: 0 <= k < i && i - 1 <= j < |w.pipes| ==> f[k] != w.pipes[j])
      && (forall k :: 0 <= k < i ==> f[k] == w.listenfd || f[k] in w.pipes)
  {
    var f := Fillers(w, i);
    assert forall k :: 1 <= k < i ==> f[k] == w.pipes[k - 1];
  }

  /** Behind the fillers the pipe of child i is the first that stands in its own slot. */
  lemma OwnReport(t: Pool, i: nat, fds: seq<int>)
    requires Sound(t) && i < |t.children|
    requires fds == if i == 0 then [t.wiring.pipes[0]] else Fillers(t.wiring, i) + [t.wiring.pipes[i]]
    ensures |fds| == i + 1 <= |t.events| && AllDifferent(fds) && t.wiring.pipes[i] in fds
    ensures forall k :: 0 <= k < |fds| ==> fds[k] == t.wiring.listenfd || fds[k] in t.wiring.pipes
    ensures FirstMatch(fds + t.events[|fds|..], t.wiring.pipes, 0) == i
  {
    var w := t.wiring;
    if i > 0 {
      FillersFill(w, i);
      assert fds[..i] == Fillers(w, i);
    }
    assert fds[i] == w.pipes[i];
    FirstIs(fds + t.events[|fds|..], w.pipes, i);
  }

  /** Child i reports behind fillers. */
  lemma ReportsItself(s: Pool, run0: seq<Step>, t0: Pool, i: nat) returns (run: seq<Step>, t: Pool)
    requires Shape(s) && Reaches(s, run0, t0, i) && Alone(t0, i) && t0.at == t0.number && t0.children[i].notices > 0
    ensures ComesBack(s, run, i)
  {
    var w := t0.wiring;
    var fds := if i == 0 then [w.pipes[0]] else Fillers(w, i) + [w.pipes[i]];
    OwnReport(t0, i, fds);
    AllReady(t0, i, fds);
    run, t := Knock(s, run0, t0, i, fds);
  }

  /** Others report, and slot i is stale. */
  lemma OthersReport(s: Pool, run0: seq<Step>, t0: Pool, i: nat) returns (run: seq<Step>, t: Pool)
    requires Shape(s) && Reaches(s, run0, t0, i) && Alone(t0, i) && t0.at == t0.number
    requires t0.events[i] == t0.wiring.pipes[i] && i >= 1 && |t0.children| >= 3
    ensures ComesBack(s, run, i)
  {
    var w := t0.wiring;
    var fds := if i == 1 then [w.pipes[2]] else Fillers(w, i);
    AllReady(t0, i, fds);
    run, t := Knock(s, run0, t0, i, fds);
  }

  lemma FindsWay(s: Pool, i: nat) returns (run: seq<Step>)
    requires Waiting(s, i) && s.lookup.AsWritten? && Coming(s, i) && AllRunning(s)
    ensures ComesBack(s, run, i)
  {
    var t;
    run, t := [], s;
    var c := s.children[i];
    if c.tokens + c.live + c.notices > 0 { run, t := ToNotice(s, run, t, i); }
    run, t := Drain(s, run, t, i);
    if t.desk.used[i] != 0 {
      run, t := BusyAll(s, run, t, i);
      run, t := Quit(s, run, t, i, |t.children|);
      if t.children[i].notices > 0 {
        run, t := ReportsItself(s, run, t, i);
      } else {
        run, t := OthersReport(s, run, t, i);
      }
    }
  }

  /** As published, and as long as no child has exited, the flag of a busy child can come down if
      and only if Coming holds.  In particular a lost notice is made good only through a slot
      that still holds the child's pipe by chance; by NeverBack, also after others have exited. */
  lemma FlagComesBackAsWritten(s: Pool, i: nat)
    requires Waiting(s, i) && s.lookup.AsWritten? && AllRunning(s)
    ensures (exists run :: ComesBack(s, run, i)) <==> Coming(s, i)
  {
    if Coming(s, i) {
      var run := FindsWay(s, i);
      assert ComesBack(s, run, i);
    } else {
      forall run | Runs(s, run)
        ensures !ComesBack(s, run, i)
      {
        NeverBack(s, run, i);
      }
    }
  }
}
