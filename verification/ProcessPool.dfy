/**
 The process pool as steps of the parent and its children.  The parent alternates between
 waiting for events and handling them one entry at a time, over one event array that outlives
 each wait; the children move in between.  For each child: the tokens it has not read, the
 connections it serves, the release notices no wait has reported, and the tokens it has used
 up without getting a connection (its accept failed).  The parent watches the pipe of a child
 from the first connection on that it gives to it, and is told once that the child is gone.
 */
module ProcessPool {
  import opened Dispatch

  datatype Child = Child(
    running: bool,
    watched: bool,
    hangup: bool,
    tokens: nat,
    live: nat,
    notices: nat,
    wasted: nat
  )

  datatype Pool = Pool(
    wiring: Wiring,
    lookup: Lookup,
    desk: Desk,
    events: seq<int>,
    number: nat,  // entries of the last result
    at: nat,      // the entry to be handled next
    children: seq<Child>
  )

  datatype Step =
    | Wait(fds: seq<int>)
    | Handle(exits: bool, joined: seq<int>)
    | TakeToken(i: nat, accepted: bool)
    | Serve(i: nat, closed: bool)   // process() returns 0 exactly when it has closed its connection
    | Exit(i: nat)

  predicate Shape(s: Pool) {
    && InRange(s.desk)
    && |s.desk.pids| == |s.children| == |s.wiring.pipes| && |s.children| + 2 <= |s.events|
    && s.at <= s.number <= |s.events|
  }

  /** The pipe has something to report: a notice, or that its other end is closed. */
  predicate Reportable(c: Child) {
    c.watched && (c.notices > 0 || c.hangup)
  }

  predicate Ready(s: Pool, fd: int)
    requires Shape(s)
  {
    || fd == s.wiring.listenfd
    || fd == s.wiring.sigfd
    || exists i :: 0 <= i < |s.children| && s.wiring.pipes[i] == fd && Reportable(s.children[i])
  }

  ghost predicate AllDifferent(q: seq<int>) {
    forall i, j :: 0 <= i < j < |q| ==> q[i] != q[j]
  }

  /** The loop on SIGCHLD waits until no child is left. */
  predicate AllJoined(s: Pool, joined: seq<int>)
    requires Shape(s)
  {
    && -1 !in joined
    && (forall i :: 0 <= i < |s.children| ==> !s.children[i].running)
    && (forall i :: 0 <= i < |s.children| ==> s.desk.pids[i] == -1 || s.desk.pids[i] in joined)
  }

  ghost predicate Enabled(s: Pool, a: Step)
    requires Shape(s)
  {
    match a
    case Wait(fds) =>
      && !s.desk.stop && s.at == s.number && |fds| <= |s.events|
      && AllDifferent(fds) && forall k :: 0 <= k < |fds| ==> Ready(s, fds[k])
    case Handle(exits, joined) =>
      s.at < s.number && (exits ==> s.events[s.at] == s.wiring.sigfd && AllJoined(s, joined))
    case TakeToken(i, _) => i < |s.children| && s.children[i].running && s.children[i].tokens > 0
    case Serve(i, _) => i < |s.children| && s.children[i].running && s.children[i].live > 0
    case Exit(i) => i < |s.children| && s.children[i].running
  }

  /** One result reports all that happened on a pipe before it. */
  function Reported(c: Child, reported: bool): Child {
    if reported then c.(notices := 0, hangup := false) else c
  }

  /** The token arrives unless the child is gone. */
  function Sent(c: Child): Child {
    c.(watched := true, tokens := c.tokens + if c.running then 1 else 0)
  }

  predicate Assigns(s: Pool, a: Step)
    requires Shape(s)
  {
    a.Handle? && s.at < s.number && s.events[s.at] == s.wiring.listenfd
  }

  predicate IsNotice(s: Pool, a: Step)
    requires Shape(s)
  {
    a.Handle? && s.at < s.number && s.events[s.at] != s.wiring.listenfd && s.events[s.at] != s.wiring.sigfd
  }

  function Next(s: Pool, a: Step): (t: Pool)
    requires Shape(s) && Enabled(s, a)
    ensures Shape(t) && |t.children| == |s.children| && t.wiring == s.wiring && t.lookup == s.lookup
  {
    match a
    case Wait(fds) =>
      s.(events := fds + s.events[|fds|..], number := |fds|, at := 0,
         children := seq(|s.children|, i requires 0 <= i < |s.children| =>
           Reported(s.children[i], s.wiring.pipes[i] in fds)))
    case Handle(exits, joined) =>
      var d := s.desk;
      var i := Chosen(d);
      s.(at := s.at + 1,
         desk := OnEntry(d, s.wiring, s.lookup, s.events, s.at, exits, joined),
         children := if Assigns(s, a) && i != -1 then s.children[i := Sent(s.children[i])]
           else s.children)
    case TakeToken(i, accepted) =>
      var c := s.children[i].(tokens := s.children[i].tokens - 1);
      s.(children := s.children[i := if accepted then c.(live := c.live + 1) else c.(wasted := c.wasted + 1)])
    case Serve(i, closed) =>
      var c := s.children[i];
      if closed then s.(children := s.children[i := c.(live := c.live - 1, notices := c.notices + 1)]) else s
    case Exit(i) =>
      s.(children := s.children[i := Child(false, s.children[i].watched, true, 0, 0, 0, s.children[i].wasted)])
  }

  ghost predicate Runs(s: Pool, run: seq<Step>)
    requires Shape(s)
    decreases |run|
  {
    run == [] || (Enabled(s, run[0]) && Runs(Next(s, run[0]), run[1..]))
  }

  function After(s: Pool, run: seq<Step>): (t: Pool)
    requires Shape(s) && Runs(s, run)
    ensures Shape(t) && |t.children| == |s.children| && t.wiring == s.wiring && t.lookup == s.lookup
    decreases |run|
  {
    if run == [] then s else After(Next(s, run[0]), run[1..])
  }

  /** On a connection the one child that is sent a token is the one that `Parent.Handle` returns and
      that is marked busy; on anything else, or if none is alive and idle, nobody is sent one. */
  lemma TokenGoesToMarked(s: Pool, a: Step)
    requires Shape(s) && Enabled(s, a) && a.Handle?
    ensures var t, i := Next(s, a), Chosen(s.desk);
      && (Assigns(s, a) ==> Serves(s.desk, i, t.desk))
      && t.children == if Assigns(s, a) && i != -1 then s.children[i := Sent(s.children[i])] else s.children
  {
    ChosenServes(s.desk);
  }

  // ---------- what holds whatever the lookup does ----------

  /** The entries not yet handled report child i. */
  predicate Pending(s: Pool, i: nat)
    requires Shape(s) && i < |s.children|
  {
    s.wiring.pipes[i] in s.events[s.at..s.number]
  }

  ghost predicate Known(s: Pool)
    requires Shape(s)
  {
    forall k :: 0 <= k < s.number ==>
      s.events[k] == s.wiring.listenfd || s.events[k] == s.wiring.sigfd || s.events[k] in s.wiring.pipes
  }

  /** A child has something outstanding only while it runs, and only after it was given a connection. */
  predicate ChildSound(c: Child) {
    && (c.tokens + c.live + c.notices > 0 ==> c.running && c.watched)
    && (c.running ==> !c.hangup)
  }

  ghost predicate Sound(s: Pool) {
    && Shape(s) && Wired(s.wiring) && AllDifferent(s.events[..s.number]) && Known(s)
    && (forall i :: 0 <= i < |s.children| ==> 0 <= s.desk.used[i] <= 1)
    && (forall i :: 0 <= i < |s.children| ==> s.desk.used[i] == 1 ==> s.children[i].watched)
    && (forall i :: 0 <= i < |s.children| ==> s.children[i].running ==> s.desk.pids[i] != -1)
    && (forall i :: 0 <= i < |s.children| ==> ChildSound(s.children[i]))
  }

  /** A child that has just been forked. */
  function New(): Child {
    Child(true, false, false, 0, 0, 0, 0)
  }

  /** The state in which the parent starts: its event array holds anything. */
  ghost predicate Initial(s: Pool) {
    && Shape(s) && Wired(s.wiring) && s.at == s.number == 0 && !s.desk.stop && s.desk.next == 0
    && (forall i :: 0 <= i < |s.children| ==>
      s.desk.pids[i] != -1 && s.desk.used[i] == 0 && s.children[i] == New())
  }

  lemma StepSound(s: Pool, a: Step)
    requires Sound(s) && Enabled(s, a)
    ensures Sound(Next(s, a))
  {
    var t := Next(s, a);
    match a
    case Wait(fds) =>
      assert t.events[..t.number] == fds;
      forall k | 0 <= k < t.number
        ensures t.events[k] == s.wiring.listenfd || t.events[k] == s.wiring.sigfd || t.events[k] in s.wiring.pipes
      {
        assert Ready(s, fds[k]);
      }
    case _ =>
  }

  lemma {:induction false} RunSound(s: Pool, run: seq<Step>)
    requires Sound(s) && Runs(s, run)
    ensures Sound(After(s, run))
    decreases |run|
  {
    if run != [] {
      StepSound(s, run[0]);
      RunSound(Next(s, run[0]), run[1..]);
    }
  }

  lemma FirstOfRest(q: seq<int>, at: nat, n: nat)
    requires at < n <= |q| && AllDifferent(q[..n])
    ensures q[at..n] == [q[at]] + q[at + 1..n] && q[at] !in q[at + 1..n]
  {
    var rest := q[at + 1..n];
    forall k | 0 <= k < |rest|
      ensures rest[k] != q[at]
    {
      assert q[..n][at] != q[..n][at + 1 + k];
    }
  }

  /** Handling an entry takes it, and only it, off what is pending. */
  lemma HandlePending(s: Pool, a: Step, i: nat)
    requires Sound(s) && Enabled(s, a) && a.Handle? && i < |s.children|
    ensures Pending(Next(s, a), i) <==> Pending(s, i) && s.wiring.pipes[i] != s.events[s.at]
    ensures s.wiring.pipes[i] == s.events[s.at] ==> Pending(s, i)
  {
    FirstOfRest(s.events, s.at, s.number);
  }

  lemma WaitPending(s: Pool, a: Step, i: nat)
    requires Sound(s) && Enabled(s, a) && a.Wait? && i < |s.children|
    ensures !Pending(s, i)
    ensures Pending(Next(s, a), i) <==> s.wiring.pipes[i] in a.fds
    ensures s.wiring.pipes[i] in a.fds ==> s.children[i].notices > 0 || !s.children[i].running
  {
    var t := Next(s, a);
    assert t.events[t.at..t.number] == a.fds;
    if s.wiring.pipes[i] in a.fds {
      var k :| 0 <= k < |a.fds| && a.fds[k] == s.wiring.pipes[i];
      assert Ready(s, a.fds[k]);
    }
  }

  // ---------- at most one connection per child ----------

  /** Unread tokens, live connections and undelivered notices of child i. */
  function Load(s: Pool, i: nat): nat
    requires Shape(s) && i < |s.children|
  {
    var c := s.children[i];
    c.tokens + c.live + c.notices + if Pending(s, i) then 1 else 0
  }

  /** For every running child they are together at most its busy flag. */
  ghost predicate OneEach(s: Pool)
    requires Shape(s)
  {
    forall i :: 0 <= i < |s.children| ==> s.children[i].running ==> Load(s, i) <= s.desk.used[i]
  }

  /** The child whose flag the lookup finds for the next entry, or the number of children. */
  function Hit(s: Pool): (m: nat)
    requires Shape(s) && s.at < s.number
    ensures m <= |s.children|
  {
    FirstMatch(Slots(s.wiring, s.lookup, s.events, s.at), s.wiring.pipes, 0)
  }

  /** The flag that the next notice clears, if any, is the reporter's or that of a child with nothing outstanding. */
  predicate Harmless(s: Pool)
    requires Shape(s) && s.at < s.number
  {
    var m := Hit(s);
    m < |s.children| && s.wiring.pipes[m] != s.events[s.at] && s.children[m].running ==> Load(s, m) == 0
  }

  lemma NoticeKeepsOneEach(s: Pool, a: Step)
    requires Sound(s) && OneEach(s) && Enabled(s, a) && IsNotice(s, a)
    ensures OneEach(Next(s, a)) <==> Harmless(s)
  {
    var t, m := Next(s, a), Hit(s);
    forall i | 0 <= i < |s.children|
      ensures Load(t, i) == Load(s, i) - if s.wiring.pipes[i] == s.events[s.at] then 1 else 0
    {
      HandlePending(s, a, i);
    }
    if m < |s.children| && s.wiring.pipes[m] == s.events[s.at] { HandlePending(s, a, m); }
    assert m < |s.children| ==> t.desk.used == s.desk.used[m := 0];
    assert m == |s.children| ==> t.desk.used == s.desk.used;
  }

  lemma OtherKeepsLoad(s: Pool, a: Step, i: nat)
    requires Sound(s) && Enabled(s, a) && !IsNotice(s, a) && i < |s.children| && Next(s, a).children[i].running
    requires Load(s, i) <= s.desk.used[i]
    ensures Load(Next(s, a), i) <= Next(s, a).desk.used[i]
  {
    if a.Handle? {
      HandlePending(s, a, i);
    } else if a.Wait? {
      WaitPending(s, a, i);
    }
  }

  lemma OtherKeepsOneEach(s: Pool, a: Step)
    requires Sound(s) && OneEach(s) && Enabled(s, a) && !IsNotice(s, a)
    ensures OneEach(Next(s, a))
  {
    forall i | 0 <= i < |s.children| && Next(s, a).children[i].running
      ensures Load(Next(s, a), i) <= Next(s, a).desk.used[i]
    {
      OtherKeepsLoad(s, a, i);
    }
  }

  /** Every notice of the run is harmless. */
  ghost predicate HarmlessRun(s: Pool, run: seq<Step>)
    requires Shape(s) && Runs(s, run)
    decreases |run|
  {
    run == [] || ((IsNotice(s, run[0]) ==> Harmless(s)) && HarmlessRun(Next(s, run[0]), run[1..]))
  }

  ghost predicate AlwaysOneEach(s: Pool, run: seq<Step>)
    requires Shape(s) && Runs(s, run)
    decreases |run|
  {
    OneEach(s) && (run == [] || AlwaysOneEach(Next(s, run[0]), run[1..]))
  }

  /** Throughout a run unread tokens, live connections and undelivered notices of each running
      child stay within its busy flag if and only if every notice of the run is harmless. */
  lemma {:induction false} OneConnectionEach(s: Pool, run: seq<Step>)
    requires Sound(s) && OneEach(s) && Runs(s, run)
    ensures AlwaysOneEach(s, run) <==> HarmlessRun(s, run)
    decreases |run|
  {
    if run != [] {
      var t := Next(s, run[0]);
      StepSound(s, run[0]);
      if IsNotice(s, run[0]) {
        NoticeKeepsOneEach(s, run[0]);
      } else {
        OtherKeepsOneEach(s, run[0]);
      }
      if OneEach(t) { OneConnectionEach(t, run[1..]); }
    }
  }

  lemma {:induction false} EndsOneEach(s: Pool, run: seq<Step>)
    requires Shape(s) && Runs(s, run) && AlwaysOneEach(s, run)
    ensures OneEach(After(s, run))
    decreases |run|
  {
    if run != [] { EndsOneEach(Next(s, run[0]), run[1..]); }
  }

  // ---------- notices that find their reporter ----------

  /** The child whose pipe the next entry reports. */
  function Reporter(s: Pool): (j: nat)
    requires Shape(s) && s.at < s.number
    ensures j <= |s.children|
  {
    FirstMatch(Repeat(s.events[s.at], |s.children|), s.wiring.pipes, 0)
  }

  lemma ReporterExists(s: Pool, a: Step)
    requires Sound(s) && Enabled(s, a) && IsNotice(s, a)
    ensures Reporter(s) < |s.children| && s.wiring.pipes[Reporter(s)] == s.events[s.at]
    ensures Released(s.desk.used, Repeat(s.events[s.at], |s.children|), s.wiring.pipes) == s.desk.used[Reporter(s) := 0]
  {
    assert s.events[s.at] in s.wiring.pipes;
    var j :| 0 <= j < |s.wiring.pipes| && s.wiring.pipes[j] == s.events[s.at];
    RepeatFinds(s.desk.used, s.wiring.pipes, j);
  }

  /** The lookup clears the flag of the child that the next entry reports, and no other. */
  predicate Right(s: Pool)
    requires Shape(s) && s.at < s.number
  {
    var j := Reporter(s);
    j < |s.children| && FindsReporter(s.desk.used, Slots(s.wiring, s.lookup, s.events, s.at), s.wiring.pipes, j)
  }

  ghost predicate RightRun(s: Pool, run: seq<Step>)
    requires Shape(s) && Runs(s, run)
    decreases |run|
  {
    run == [] || ((IsNotice(s, run[0]) ==> Right(s)) && RightRun(Next(s, run[0]), run[1..]))
  }

  lemma RightClears(s: Pool, a: Step)
    requires Sound(s) && Enabled(s, a) && IsNotice(s, a)
    ensures Right(s) <==> Next(s, a).desk == s.desk.(used := s.desk.used[Reporter(s) := 0])
    ensures s.lookup.Repaired? ==> Right(s)
  {
    ReporterExists(s, a);
    ReleaseIsRight(s.desk.used, Slots(s.wiring, s.lookup, s.events, s.at), s.wiring.pipes, Reporter(s));
  }

  lemma RightIsHarmless(s: Pool, a: Step)
    requires Sound(s) && OneEach(s) && Enabled(s, a) && IsNotice(s, a) && Right(s)
    ensures Harmless(s)
  {
    ReporterExists(s, a);
    RightClears(s, a);
    var m := Hit(s);
    if m < |s.children| && m != Reporter(s) {
      assert Next(s, a).desk.used[m] == 0;
      assert s.desk.used[m] == 0;
    }
  }

  /** With the repaired lookup every run is safe; with the published one, every run whose
      notices find their reporter. */
  lemma {:induction false} RightRunIsSafe(s: Pool, run: seq<Step>)
    requires Sound(s) && OneEach(s) && Runs(s, run) && (s.lookup.Repaired? || RightRun(s, run))
    ensures AlwaysOneEach(s, run)
    decreases |run|
  {
    if run != [] {
      StepSound(s, run[0]);
      if IsNotice(s, run[0]) {
        RightClears(s, run[0]);
        RightIsHarmless(s, run[0]);
        NoticeKeepsOneEach(s, run[0]);
      } else {
        OtherKeepsOneEach(s, run[0]);
      }
      RightRunIsSafe(Next(s, run[0]), run[1..]);
    }
  }

  /** The two pools go through the same states. */
  ghost predicate InStep(s: Pool, r: Pool, run: seq<Step>)
    requires Shape(s) && Shape(r) && Runs(s, run)
    decreases |run|
  {
    && r == s.(lookup := Repaired)
    && (run == [] || (Enabled(r, run[0]) && InStep(Next(s, run[0]), Next(r, run[0]), run[1..])))
  }

  /** On any run the published lookup does what the repaired one does if and only if every
      notice finds its reporter. */
  lemma {:induction false} RepairChanges(s: Pool, run: seq<Step>)
    requires Sound(s) && Runs(s, run)
    ensures InStep(s, s.(lookup := Repaired), run) <==> RightRun(s, run)
    decreases |run|
  {
    if run != [] {
      var r, a := s.(lookup := Repaired), run[0];
      SameChoices(s, a);
      StepSound(s, a);
      if IsNotice(s, a) {
        RightClears(s, a);
        RightClears(r, a);
      }
      RepairChanges(Next(s, a), run[1..]);
    }
  }

  lemma SameChoices(s: Pool, a: Step)
    requires Shape(s) && Enabled(s, a)
    ensures var r := s.(lookup := Repaired);
      && Shape(r) && Enabled(r, a) && (Sound(s) ==> Sound(r)) && (s.at < s.number ==> Reporter(r) == Reporter(s))
      && Next(r, a).(desk := Next(s, a).desk) == Next(s, a).(lookup := Repaired)
      && (!IsNotice(s, a) ==> Next(r, a).desk == Next(s, a).desk)
  {
    var r := s.(lookup := Repaired);
    assert IsNotice(r, a) == IsNotice(s, a);
    if a.Wait? {
      forall k | 0 <= k < |a.fds| ensures Ready(r, a.fds[k]) {
        assert Ready(s, a.fds[k]);
      }
    }
  }

  // ---------- when a busy flag can come back ----------

  /** Nothing outstanding will clear the flag of child i: the repaired lookup goes by the
      reports, and the published one needs the child's pipe in its own slot. */
  predicate Stuck(s: Pool, i: nat)
    requires Shape(s) && i < |s.children|
  {
    && s.desk.used[i] == 1 && Load(s, i) == 0
    && (s.lookup.Repaired? || s.events[i] != s.wiring.pipes[i])
  }

  lemma StepStuck(s: Pool, a: Step, i: nat)
    requires Sound(s) && Enabled(s, a) && i < |s.children| && Stuck(s, i) && Next(s, a).children[i].running
    ensures Stuck(Next(s, a), i)
  {
    var t := Next(s, a);
    if a.Wait? {
      WaitPending(s, a, i);
      assert s.wiring.pipes[i] !in a.fds;
    } else if a.Handle? {
      HandlePending(s, a, i);
      if IsNotice(s, a) && s.lookup.Repaired? {
        ReporterExists(s, a);
      }
    }
  }

  /** Once a child is stuck no run clears its flag or sends it a token, as long as it runs. */
  lemma {:induction false} StuckForever(s: Pool, run: seq<Step>, i: nat)
    requires Sound(s) && Runs(s, run) && i < |s.children| && Stuck(s, i) && After(s, run).children[i].running
    ensures Stuck(After(s, run), i)
    decreases |run|
  {
    if run != [] {
      if !Next(s, run[0]).children[i].running { StaysGone(Next(s, run[0]), run[1..], i); }
      StepSound(s, run[0]);
      StepStuck(s, run[0], i);
      StuckForever(Next(s, run[0]), run[1..], i);
    }
  }

  lemma {:induction false} StaysGone(s: Pool, run: seq<Step>, i: nat)
    requires Shape(s) && Runs(s, run) && i < |s.children| && !s.children[i].running
    ensures !After(s, run).children[i].running
    decreases |run|
  {
    if run != [] { StaysGone(Next(s, run[0]), run[1..], i); }
  }

  ghost predicate ComesBack(s: Pool, run: seq<Step>, i: nat)
    requires Shape(s) && i < |s.children|
  {
    Runs(s, run) && After(s, run).children[i].running && After(s, run).desk.used[i] == 0
  }

  /** A running child whose flag is up, in a pool that goes on. */
  ghost predicate Waiting(s: Pool, i: nat) {
    Sound(s) && !s.desk.stop && i < |s.children| && s.children[i].running && s.desk.used[i] == 1
  }

  /** The next step on the way back. */
  function WayBack(s: Pool, i: nat): Step
    requires Shape(s) && i < |s.children|
  {
    var c := s.children[i];
    if c.tokens > 0 then TakeToken(i, true)
    else if c.live > 0 then Serve(i, true)
    else if s.at < s.number then Handle(false, [])
    else Wait([s.wiring.pipes[i]])
  }

  lemma StepBack(s: Pool, i: nat)
    requires Waiting(s, i) && Load(s, i) > 0
    ensures Enabled(s, WayBack(s, i)) && (WayBack(s, i).Wait? ==> s.children[i].notices > 0)
  {
    if WayBack(s, i).Wait? {
      assert s.events[s.at..s.number] == [];
      assert Ready(s, s.wiring.pipes[i]);
    }
  }

  lemma StaysOnTheWay(s: Pool, i: nat)
    requires Waiting(s, i) && s.lookup.Repaired? && Load(s, i) > 0 && Enabled(s, WayBack(s, i))
    ensures var t := Next(s, WayBack(s, i));
      t.children[i].running && (t.desk.used[i] == 0 || (Waiting(t, i) && Load(t, i) > 0))
  {
    var a := WayBack(s, i);
    StepSound(s, a);
    if a.Wait? {
      WaitPending(s, a, i);
    } else if a.Handle? {
      HandlePending(s, a, i);
      if IsNotice(s, a) { ReporterExists(s, a); }
    }
  }

  lemma {:induction false} FindsWayBack(s: Pool, i: nat) returns (run: seq<Step>)
    requires Waiting(s, i) && s.lookup.Repaired? && Load(s, i) > 0
    ensures ComesBack(s, run, i)
    decreases 3 * s.children[i].tokens + 2 * s.children[i].live + s.children[i].notices, s.number - s.at
  {
    var a := WayBack(s, i);
    StepBack(s, i);
    StaysOnTheWay(s, i);
    var t, rest := Next(s, a), [];
    if t.desk.used[i] != 0 { rest := FindsWayBack(t, i); }
    run := [a] + rest;
    assert run[1..] == rest;
  }

  /** With the repaired lookup the flag of a running busy child can come down if and only if
      something of it is outstanding. */
  lemma FlagComesBack(s: Pool, i: nat)
    requires Waiting(s, i) && s.lookup.Repaired?
    ensures (exists run :: ComesBack(s, run, i)) <==> Load(s, i) > 0
  {
    if Load(s, i) > 0 {
      var run := FindsWayBack(s, i);
      assert ComesBack(s, run, i);
    } else {
      forall run | Runs(s, run)
        ensures !ComesBack(s, run, i)
      {
        if After(s, run).children[i].running { StuckForever(s, run, i); }
      }
    }
  }

  /** Every flag of a running child stands for one token, connection, notice or failed accept. */
  ghost predicate Tight(s: Pool)
    requires Shape(s)
  {
    forall i :: 0 <= i < |s.children| ==> s.children[i].running ==> Load(s, i) + s.children[i].wasted == s.desk.used[i]
  }

  lemma KeepsTight(s: Pool, a: Step, i: nat)
    requires Sound(s) && Enabled(s, a) && i < |s.children| && Next(s, a).children[i].running
    requires IsNotice(s, a) ==> Next(s, a).desk.used == s.desk.used[Reporter(s) := 0]
    requires Load(s, i) + s.children[i].wasted == s.desk.used[i]
    ensures var t := Next(s, a); Load(t, i) + t.children[i].wasted == t.desk.used[i]
  {
    if a.Handle? {
      HandlePending(s, a, i);
      if IsNotice(s, a) { ReporterExists(s, a); }
    } else if a.Wait? {
      WaitPending(s, a, i);
    }
  }

  lemma StepTight(s: Pool, a: Step)
    requires Sound(s) && Tight(s) && Enabled(s, a) && (IsNotice(s, a) ==> Right(s))
    ensures Tight(Next(s, a))
  {
    var t := Next(s, a);
    if IsNotice(s, a) { RightClears(s, a); }
    forall i | 0 <= i < |s.children| && t.children[i].running
      ensures Load(t, i) + t.children[i].wasted == t.desk.used[i]
    {
      KeepsTight(s, a, i);
    }
  }

  lemma {:induction false} RunTight(s: Pool, run: seq<Step>)
    requires Sound(s) && Tight(s) && Runs(s, run) && (s.lookup.Repaired? || RightRun(s, run))
    ensures Tight(After(s, run))
    decreases |run|
  {
    if run != [] {
      if IsNotice(s, run[0]) { RightClears(s, run[0]); }
      StepSound(s, run[0]);
      StepTight(s, run[0]);
      RunTight(Next(s, run[0]), run[1..]);
    }
  }

  lemma InitialHolds(s: Pool)
    requires Initial(s)
    ensures Sound(s) && OneEach(s) && Tight(s)
  {
    assert s.events[s.at..s.number] == [];
  }

  /** Where a pool with these children starts. */
  function Start(pids: seq<int>, w: Wiring, lookup: Lookup, events: seq<int>): Pool {
    Pool(w, lookup, Desk(pids, Repeat(0, |pids|), 0, false), events, 0, 0, seq(|pids|, i => New()))
  }

  lemma StartIsInitial(pids: seq<int>, w: Wiring, lookup: Lookup, events: seq<int>)
    requires pids != [] && -1 !in pids && |w.pipes| == |pids| && |pids| + 2 <= |events| && Wired(w)
    ensures Initial(Start(pids, w, lookup, events))
  {
  }

  /** With the repaired lookup, in every reachable state of a pool that goes on: no child has
      more outstanding than its flag, and a flag that is up can come down if and only if the
      child's accept has not failed. */
  lemma RepairedPool(s: Pool, run: seq<Step>, i: nat)
    requires Initial(s) && s.lookup.Repaired? && Runs(s, run) && i < |s.children|
    ensures var t := After(s, run); var c := t.children[i];
      && (c.running ==> Load(t, i) <= t.desk.used[i] <= 1)
      && (c.running && t.desk.used[i] == 1 && !t.desk.stop ==>
            ((exists more :: ComesBack(t, more, i)) <==> c.wasted == 0))
  {
    var t := After(s, run);
    InitialHolds(s);
    RunSound(s, run);
    RightRunIsSafe(s, run);
    EndsOneEach(s, run);
    RunTight(s, run);
    if t.children[i].running && t.desk.used[i] == 1 && !t.desk.stop {
      assert Load(t, i) + t.children[i].wasted == 1;
      FlagComesBack(t, i);
    }
  }

  // ---------- fairness of the round robin ----------

  /** `j` can be chosen in every state of the run, so the run never chooses it. */
  ghost predicate StaysFree(s: Pool, run: seq<Step>, j: nat)
    requires Shape(s) && Runs(s, run) && j < |s.children|
    decreases |run|
  {
    Free(s.desk.pids, s.desk.used, j) && (run == [] || StaysFree(Next(s, run[0]), run[1..], j))
  }

  /** The connections that arrive during the run. */
  ghost function Connections(s: Pool, run: seq<Step>): nat
    requires Shape(s) && Runs(s, run)
    decreases |run|
  {
    if run == [] then 0
    else (if Assigns(s, run[0]) then 1 else 0) + Connections(Next(s, run[0]), run[1..])
  }

  /** Each assignment to another child brings the round robin closer to a child that stays free. */
  lemma StepCloser(s: Pool, a: Step, j: nat)
    requires Shape(s) && Enabled(s, a) && j < |s.children|
    requires Free(s.desk.pids, s.desk.used, j) && Free(Next(s, a).desk.pids, Next(s, a).desk.used, j)
    ensures var n := |s.children|;
      Distance(Next(s, a).desk.next, j, n) + (if Assigns(s, a) then 1 else 0) <= Distance(s.desk.next, j, n)
  {
    if Assigns(s, a) {
      var n, i := |s.children|, Scan(s.desk.pids, s.desk.used, s.desk.next, 0);
      ScanFinds(s.desk.pids, s.desk.used, s.desk.next, 0, j);
      RingStep(i, n);
    }
  }

  lemma {:induction false} RunCloser(s: Pool, run: seq<Step>, j: nat)
    requires Shape(s) && Runs(s, run) && j < |s.children| && StaysFree(s, run, j)
    ensures var n := |s.children|;
      Connections(s, run) + Distance(After(s, run).desk.next, j, n) <= Distance(s.desk.next, j, n)
    decreases |run|
  {
    if run != [] {
      StepCloser(s, run[0], j);
      RunCloser(Next(s, run[0]), run[1..], j);
    }
  }

  /** While a child stays alive and free, at most n - 1 connections go to others; so of any n
      connections that arrive in such a stretch it would have been given one. */
  lemma BoundedWait(s: Pool, run: seq<Step>, j: nat)
    requires Shape(s) && Runs(s, run) && j < |s.children| && StaysFree(s, run, j)
    ensures Connections(s, run) <= |s.children| - 1
  {
    RunCloser(s, run, j);
  }

  // ---------- the end of the pool ----------

  /** The parent has joined every child and will not wait for events again. */
  ghost predicate Over(s: Pool)
    requires Shape(s)
  {
    s.desk.stop && forall i :: 0 <= i < |s.children| ==>
      s.desk.pids[i] == -1 && !s.children[i].running && s.children[i].live == 0
  }

  lemma StepOver(s: Pool, a: Step)
    requires Sound(s) && Enabled(s, a)
    requires Over(s) || (a.Handle? && a.exits)
    ensures var t := Next(s, a); Over(t) && (Over(s) ==> t.at == s.at + 1 && t.number == s.number)
  {
  }

  /** Handling the first SIGCHLD takes until every child is gone, and ends the pool: whatever
      follows, all slots are empty, no child serves anybody, the parent stops, and what is left
      to do are the entries of the present result. */
  lemma {:induction false} ChildExitEndsPool(s: Pool, run: seq<Step>)
    requires Sound(s) && Runs(s, run) && run != [] && (Over(s) || (run[0].Handle? && run[0].exits))
    ensures Over(After(s, run)) && |run| <= s.number - s.at
    decreases |run|
  {
    StepOver(s, run[0]);
    StepSound(s, run[0]);
    if |run| > 1 { ChildExitEndsPool(Next(s, run[0]), run[1..]); }
  }
}
