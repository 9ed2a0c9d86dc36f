/**
 Runs of the process pool with the lookup as published: for which pools it is safe, and how it
 loses a release notice, clears a wrong flag and clears the flag of a stuck child.
 */
module ProcessRuns {
  import opened Dispatch
  import opened ProcessPool

  ghost predicate AsPublished(s: Pool) {
    Initial(s) && s.lookup.AsWritten?
  }

  /** `run` leads from s to t. */
  ghost predicate Leads(s: Pool, run: seq<Step>, t: Pool)
    requires Shape(s)
  {
    Runs(s, run) && After(s, run) == t
  }

  lemma {:induction false} Then(s: Pool, run: seq<Step>, t: Pool, a: Step) returns (more: seq<Step>, u: Pool)
    requires Shape(s) && Leads(s, run, t) && Enabled(t, a)
    ensures Leads(s, more, u) && u == Next(t, a) && more == run + [a]
    decreases |run|
  {
    more, u := run + [a], Next(t, a);
    if run == [] {
      assert more[1..] == [];
    } else {
      var m, v := Then(Next(s, run[0]), run[1..], t, a);
      assert more[1..] == m;
    }
  }

  lemma Report(s: Pool, run0: seq<Step>, t0: Pool, fds: seq<int>) returns (run: seq<Step>, t: Pool)
    requires Shape(s) && Leads(s, run0, t0) && Enabled(t0, Wait(fds))
    ensures Leads(s, run, t) && Shape(t) && |t.children| == |t0.children|
    ensures t == t0.(events := t.events, number := |fds|, at := 0, children := t.children)
    ensures |fds| <= |t.events| && forall k :: 0 <= k < |fds| ==> t.events[k] == fds[k]
    ensures forall i :: 0 <= i < |t.children| ==> t.children[i] == Reported(t0.children[i], t0.wiring.pipes[i] in fds)
  {
    run, t := Then(s, run0, t0, Wait(fds));
  }

  /** The parent handles a connection or a notice. */
  lemma Handled(s: Pool, run0: seq<Step>, t0: Pool) returns (run: seq<Step>, t: Pool)
    requires Shape(s) && Leads(s, run0, t0) && t0.at < t0.number && t0.events[t0.at] != t0.wiring.sigfd
    ensures Leads(s, run, t) && Shape(t)
    ensures t == t0.(at := t0.at + 1, desk := t.desk, children := t.children)
    ensures Assigns(t0, Handle(false, [])) ==>
      var i := Scan(t0.desk.pids, t0.desk.used, t0.desk.next, 0);
      && t.desk == Assign(t0.desk)
      && t.children == if Free(t0.desk.pids, t0.desk.used, i) then t0.children[i := Sent(t0.children[i])]
        else t0.children
    ensures IsNotice(t0, Handle(false, [])) ==>
      var m := Hit(t0);
      && t.children == t0.children
      && t.desk == t0.desk.(used := if m < |t0.children| then t0.desk.used[m := 0] else t0.desk.used)
  {
    run, t := Then(s, run0, t0, Handle(false, []));
  }

  /** A connection arrives alone. */
  lemma Arrival(s: Pool, run0: seq<Step>, t0: Pool) returns (run: seq<Step>, t: Pool)
    requires Shape(s) && Leads(s, run0, t0) && Wired(t0.wiring) && t0.at == t0.number && !t0.desk.stop
    ensures Leads(s, run, t)
    ensures Enabled(t0, Wait([t0.wiring.listenfd])) && Enabled(Next(t0, Wait([t0.wiring.listenfd])), Handle(false, []))
    ensures t == Next(Next(t0, Wait([t0.wiring.listenfd])), Handle(false, []))
    ensures var i := Scan(t0.desk.pids, t0.desk.used, t0.desk.next, 0);
      var free := Free(t0.desk.pids, t0.desk.used, i);
      t == t0.(events := [t0.wiring.listenfd] + t0.events[1..], number := 1, at := 1, desk := Assign(t0.desk),
               children := if free then t0.children[i := Sent(t0.children[i])] else t0.children)
  {
    run, t := Then(s, run0, t0, Wait([t0.wiring.listenfd]));
    assert t.children == t0.children;
    run, t := Then(s, run, t, Handle(false, []));
  }

  // ---------- safe for one child, and for no more ----------

  /** No child serves two connections at once, in any run. */
  ghost predicate NeverTwo(s: Pool)
    requires Shape(s)
  {
    forall run, i :: Runs(s, run) && 0 <= i < |s.children| ==> After(s, run).children[i].live <= 1
  }

  lemma {:induction false} OneChildIsHarmless(s: Pool, run: seq<Step>)
    requires Sound(s) && Runs(s, run) && |s.children| == 1
    ensures HarmlessRun(s, run)
    decreases |run|
  {
    if run != [] {
      StepSound(s, run[0]);
      OneChildIsHarmless(Next(s, run[0]), run[1..]);
    }
  }

  lemma OneChildNeverTwo(s: Pool)
    requires Initial(s) && |s.children| == 1
    ensures NeverTwo(s)
  {
    InitialHolds(s);
    forall run, i | Runs(s, run) && 0 <= i < |s.children|
      ensures After(s, run).children[i].live <= 1
    {
      RunSound(s, run);
      OneChildIsHarmless(s, run);
      OneConnectionEach(s, run);
      EndsOneEach(s, run);
      assert After(s, run).children[i].running ==> Load(After(s, run), i) <= 1;
    }
  }

  /** A running child that has been given a connection before, and serves none at present. */
  function Given(tokens: nat, notices: nat, wasted: nat): Child {
    Child(true, true, false, tokens, 0, notices, wasted)
  }

  /** The first k children have been told to accept, and nothing else has happened. */
  ghost predicate Filled(s: Pool, t: Pool, k: nat)
    requires Shape(s)
  {
    && Shape(t) && k <= |t.children| == |s.children| && t.at == t.number && t.wiring == s.wiring && t.lookup == s.lookup
    && t.desk.pids == s.desk.pids && !t.desk.stop && t.desk.next == (if k == |t.children| then 0 else k)
    && (forall i :: 0 <= i < |t.children| ==> t.desk.used[i] == if i < k then 1 else 0)
    && (forall i :: 0 <= i < |t.children| ==> t.children[i] == if i < k then Given(1, 0, 0) else New())
  }

  lemma {:induction false} FillUp(s: Pool, k: nat) returns (run: seq<Step>, t: Pool)
    requires Initial(s) && k <= |s.children|
    ensures Leads(s, run, t) && Filled(s, t, k)
  {
    if k == 0 {
      run, t := [], s;
    } else {
      run, t := FillUp(s, k - 1);
      RingStep(k - 1, |t.children|);
      run, t := Arrival(s, run, t);
    }
  }

  /** Child i has served its connection and has sent its notice. */
  lemma Finish(s: Pool, run0: seq<Step>, t0: Pool, i: nat) returns (run: seq<Step>, t: Pool)
    requires Shape(s) && Leads(s, run0, t0) && i < |t0.children| && t0.children[i] == Given(1, 0, 0)
    ensures Leads(s, run, t) && t == t0.(children := t0.children[i := Given(0, 1, 0)])
  {
    run, t := Then(s, run0, t0, TakeToken(i, true));
    run, t := Then(s, run, t, Serve(i, true));
    assert t.children == t0.children[i := Given(0, 1, 0)];
  }

  /** All children are busy; 0 and 1 report in one result, with a connection in between. */
  lemma BothReport(s: Pool, run0: seq<Step>, t0: Pool) returns (run: seq<Step>, t: Pool)
    requires AsPublished(s) && |s.children| >= 2 && Leads(s, run0, t0) && Filled(s, t0, |s.children|)
    ensures Leads(s, run, t) && Shape(t) && t == t0.(events := t.events, number := 3, at := 0, children := t.children)
    ensures t.events[0] == s.wiring.pipes[0] && t.events[1] == s.wiring.listenfd && t.events[2] == s.wiring.pipes[1]
    ensures t.children[0] == Given(0, 0, 0)
  {
    run, t := Finish(s, run0, t0, 0);
    run, t := Finish(s, run, t, 1);
    assert Ready(t, s.wiring.pipes[0]) && Ready(t, s.wiring.pipes[1]);
    run, t := Report(s, run, t, [s.wiring.pipes[0], s.wiring.listenfd, s.wiring.pipes[1]]);
  }

  lemma WrongFlag(s: Pool, run0: seq<Step>, t0: Pool) returns (run: seq<Step>, t: Pool)
    requires AsPublished(s) && |s.children| >= 2 && Leads(s, run0, t0) && Filled(s, t0, |s.children|)
    ensures Leads(s, run, t) && Shape(t) && t.at == t.number && !t.desk.stop
    ensures t.desk.pids == s.desk.pids && t.wiring == s.wiring && |t.children| == |s.children|
    ensures t.desk.used[0] == 0 && forall i :: 0 < i < |t.children| ==> t.desk.used[i] == 1
    ensures t.children[0] == Given(1, 0, 0)
  {
    run, t := BothReport(s, run0, t0);
    run, t := Handled(s, run, t);
    assert t.desk.used[0] == 0;
    RingStep(0, |t.children|);
    run, t := Handled(s, run, t);
    assert t.desk.used[0] == 1 && t.children[0].tokens == 1;
    run, t := Handled(s, run, t);
  }

  lemma TwoAtOnce(s: Pool) returns (run: seq<Step>)
    requires AsPublished(s) && |s.children| >= 2
    ensures Runs(s, run) && After(s, run).children[0].live == 2
  {
    var t;
    run, t := FillUp(s, |s.children|);
    run, t := WrongFlag(s, run, t);
    run, t := Then(s, run, t, TakeToken(0, true));
    SelectIsFirstFree(t.desk.pids, t.desk.used, t.desk.next);
    assert Free(t.desk.pids, t.desk.used, 0);
    run, t := Arrival(s, run, t);
    run, t := Then(s, run, t, TakeToken(0, true));
  }

  /** As published, no child ever serves two connections at once if and only if the pool has
      only one child. */
  lemma SafeExactlyForOne(s: Pool)
    requires AsPublished(s)
    ensures NeverTwo(s) <==> |s.children| == 1
  {
    if |s.children| == 1 {
      OneChildNeverTwo(s);
    } else {
      var run := TwoAtOnce(s);
    }
  }

  // ---------- lost and misdirected notices ----------

  /** Child 0 has been told to accept. */
  lemma FirstConnection(s: Pool) returns (run: seq<Step>, t: Pool)
    requires Initial(s)
    ensures Leads(s, run, t) && Sound(t) && t.at == t.number == 1 && t.events[0] == s.wiring.listenfd && !t.desk.stop
    ensures t.desk.used[0] == 1 && t.children[0] == Given(1, 0, 0)
  {
    run, t := Arrival(s, [], s);
    InitialHolds(s);
    RunSound(s, run);
  }

  /** Never cleared again while the child runs, whatever happens. */
  ghost predicate LostForGood(t: Pool, i: nat)
    requires Shape(t) && i < |t.children|
  {
    forall more :: Runs(t, more) && After(t, more).children[i].running ==> After(t, more).desk.used[i] == 1
  }

  lemma StuckIsLost(t: Pool, i: nat)
    requires Sound(t) && i < |t.children| && Stuck(t, i)
    ensures LostForGood(t, i)
  {
    forall more | Runs(t, more) && After(t, more).children[i].running
      ensures After(t, more).desk.used[i] == 1
    {
      StuckForever(t, more, i);
    }
  }

  /** Child 0 has served its connection, and its notice comes behind another connection. */
  lemma LateReport(s: Pool) returns (run: seq<Step>, t: Pool)
    requires AsPublished(s)
    ensures Leads(s, run, t) && Sound(t) && t.at == 0 && t.number == 2 && t.desk.used[0] == 1
    ensures t.events[0] == s.wiring.listenfd && t.events[1] == s.wiring.pipes[0] &&
      t.children[0] == Given(0, 0, 0)
  {
    run, t := FirstConnection(s);
    run, t := Finish(s, run, t, 0);
    assert Ready(t, s.wiring.pipes[0]);
    run, t := Report(s, run, t, [s.wiring.listenfd, s.wiring.pipes[0]]);
    InitialHolds(s);
    RunSound(s, run);
  }

  /** As published, every pool can lose the notice of a child that has served its connection:
      slot 0 does not hold pipe 0. */
  lemma NoticeCanBeLost(s: Pool) returns (run: seq<Step>, t: Pool)
    requires AsPublished(s)
    ensures Leads(s, run, t) && t.children[0] == Given(0, 0, 0) && t.desk.used[0] == 1
    ensures LostForGood(t, 0)
  {
    run, t := LateReport(s);
    StepSound(t, Handle(false, []));
    run, t := Handled(s, run, t);
    assert t.children[0] == Given(0, 0, 0) && t.desk.used[0] == 1;
    StepSound(t, Handle(false, []));
    run, t := Handled(s, run, t);
    StuckIsLost(t, 0);
  }

  /** Under either lookup a child whose accept fails is lost for good. */
  lemma FailedAcceptSticks(s: Pool) returns (run: seq<Step>, t: Pool)
    requires Initial(s)
    ensures Leads(s, run, t) && t.children[0] == Given(0, 0, 1) && t.desk.used[0] == 1
    ensures LostForGood(t, 0)
  {
    run, t := FirstConnection(s);
    run, t := Then(s, run, t, TakeToken(0, false));
    InitialHolds(s);
    RunSound(s, run);
    StuckIsLost(t, 0);
  }

  /** All children are busy; child 1 is through and is rightly found by its slot. */
  lemma RightFlag(s: Pool) returns (run: seq<Step>, t: Pool)
    requires AsPublished(s) && |s.children| >= 3
    ensures Leads(s, run, t) && t.at == t.number && !t.desk.stop && t.events[1] == s.wiring.pipes[1]
    ensures t.desk.pids == s.desk.pids && t.children[1] == Given(0, 0, 0) &&
      t.children[2] == Given(1, 0, 0)
    ensures forall i :: 0 <= i < |t.children| ==> t.desk.used[i] == if i == 1 then 0 else 1
  {
    var fds := [s.wiring.listenfd, s.wiring.pipes[1]];
    run, t := FillUp(s, |s.children|);
    run, t := Finish(s, run, t, 1);
    assert Ready(t, s.wiring.pipes[1]);
    run, t := Report(s, run, t, fds);
    run, t := Handled(s, run, t);
    run, t := Handled(s, run, t);
  }

  /** Child 1 is given another connection and fails to accept it.  Slot 1 still holds its pipe. */
  lemma StaleSlot(s: Pool) returns (run: seq<Step>, t: Pool)
    requires AsPublished(s) && |s.children| >= 3
    ensures Leads(s, run, t) && t.at == t.number && !t.desk.stop && t.events[1] == s.wiring.pipes[1]
    ensures t.children[1] == Given(0, 0, 1) && t.desk.used[1] == 1 && t.children[2] == Given(1, 0, 0)
  {
    run, t := RightFlag(s);
    SelectIsFirstFree(t.desk.pids, t.desk.used, t.desk.next);
    assert Free(t.desk.pids, t.desk.used, 1);
    run, t := Arrival(s, run, t);
    run, t := Then(s, run, t, TakeToken(1, false));
  }

  /** As published, a notice of child 2 can clear the flag of child 1, which has nothing
      outstanding and has failed to accept, because slot 1 of the event array is stale. */
  lemma StaleSlotClears(s: Pool) returns (run: seq<Step>, t: Pool, more: seq<Step>)
    requires AsPublished(s) && |s.children| >= 3
    ensures Leads(s, run, t) && t.children[1] == Given(0, 0, 1) && t.desk.used[1] == 1 && t.at == t.number
    ensures ComesBack(t, more, 1)
  {
    run, t := StaleSlot(s);
    var u;
    more, u := Finish(t, [], t, 2);
    assert Ready(u, s.wiring.pipes[2]);
    more, u := Then(t, more, u, Wait([s.wiring.pipes[2]]));
    more, u := Then(t, more, u, Handle(false, []));
  }
}
