/** What a run of the wheel promises for one timer, and how the wheel compares with the sorted list. */
module WheelTheorems {
  import opened TimerService
  import opened Wheels
  import SortedTimers

  // ---------- one timer over a run ----------

  /** How many of the first `i` operations are ticks. */
  function Advances<T>(ops: seq<WheelOp<T>>, i: nat): nat
    requires i <= |ops|
    decreases i
  {
    if i == 0 then 0 else (if ops[0].Advance? then 1 else 0) + Advances(ops[1..], i - 1)
  }

  /** No operation adds or cancels `t`. */
  predicate Spares<T(==)>(ops: seq<WheelOp<T>>, t: T) {
    forall i :: 0 <= i < |ops| ==> ops[i].Advance? || ops[i].timer != t
  }

  /** One operation on other timers either fires `t` because its time has come, or leaves it scheduled. */
  lemma StepSpares<T>(svc: Service<T>, now: nat, op: WheelOp<T>, t: T)
    requires t in svc.due && svc.due[t].expire >= now && (op.Advance? || op.timer != t)
    ensures var svc' := svc.Step(AsOp(op, now));
      if op.Advance? && svc.due[t].expire == now then t !in svc'.due
      else t in svc'.due && svc'.due[t] == svc.due[t] && svc.due[t].expire >= Clock(op, now)
  {
  }

  lemma {:induction false} StaysSilent<T>(svc: Service<T>, now: nat, ops: seq<WheelOp<T>>, outs: seq<seq<T>>, t: T,
      i: nat)
    requires RunFiresNewestFirst(svc, AsOps(ops, now), outs) && Spares(ops, t) && i < |ops|
    requires t !in svc.due
    ensures t !in outs[i]
    decreases i
  {
    if i > 0 {
      StaysSilent(svc.Step(AsOp(ops[0], now)), Clock(ops[0], now), ops[1..], outs[1..], t, i - 1);
    }
  }

  /** A live timer that is left alone fires at the tick that follows as many ticks as it has
      left to wait, and at no other operation. */
  lemma {:induction false} FiresWhenDue<T>(svc: Service<T>, now: nat, ops: seq<WheelOp<T>>, outs: seq<seq<T>>, t: T,
      i: nat)
    requires RunFiresNewestFirst(svc, AsOps(ops, now), outs) && Spares(ops, t) && i < |ops|
    requires t in svc.due && svc.due[t].expire >= now
    ensures t in outs[i] <==> ops[i].Advance? && Advances(ops, i) == svc.due[t].expire - now
    decreases i
  {
    if i > 0 {
      var svc', now' := svc.Step(AsOp(ops[0], now)), Clock(ops[0], now);
      if t in svc'.due {
        FiresWhenDue(svc', now', ops[1..], outs[1..], t, i - 1);
      } else {
        StaysSilent(svc', now', ops[1..], outs[1..], t, i - 1);
      }
    }
  }

  /** A timer added with `timeout` and then left alone fires exactly once, at the (d + 1)-th tick
      after it was added, where d is the number of whole intervals in its timeout, or one; with
      an interval of one second, that is the timeout itself. */
  lemma FiresExactlyOnce<T>(w: Wheel<T>, svc: Service<T>, now: nat, t: T, timeout: nat, d: nat,
      ops: seq<WheelOp<T>>, reqs: seq<Op<T>>, i: nat)
    requires Represents(w, svc, now) && Asks([AddFor(t, timeout)] + ops, reqs, now) && LegalRun(svc, reqs)
    requires Spares(ops, t) && i < |ops| && IsDelay(timeout, d)
    ensures t in RunFired(w, [AddFor(t, timeout)] + ops)[i + 1] <==> ops[i].Advance? && Advances(ops, i) == d
    ensures d == if timeout == 0 then 1 else timeout
  {
    DelayIsOffset(timeout, d);
    AsksIsAsOps([AddFor(t, timeout)] + ops, reqs, now);
    var op := AddFor(t, timeout);
    var all := [op] + ops;
    assert all[0] == op && all[1..] == ops;
    assert AsOps(all, now)[1..] == AsOps(ops, now);
    RunRepresents(w, svc, now, all);
    var outs := RunFired(w, all);
    FiresWhenDue(svc.Step(AsOp(op, now)), now, ops, outs[1..], t, i);
  }

  // ---------- the cost of waiting ----------

  /** How often ticks of the run walk over the node of `t`: a tick walks its whole current chain. */
  function Visits<T(==)>(w: Wheel<T>, ops: seq<WheelOp<T>>, t: T): nat
    requires |w.slots| == N && w.cur < N
    decreases |ops|
  {
    if ops == [] then 0
    else
      var now := if ops[0].Advance? && IndexIn(w.slots[w.cur], t) < |w.slots[w.cur]| then 1 else 0;
      now + Visits(Step(w, ops[0]), ops[1..], t)
  }

  lemma Visited<T>(w: Wheel<T>, svc: Service<T>, now: nat, t: T)
    requires Represents(w, svc, now) && t in svc.due
    ensures IndexIn(w.slots[w.cur], t) < |w.slots[w.cur]| <==> svc.due[t].expire % N == now % N
  {
    var c := w.slots[w.cur];
    assert ChainFits(c, w.cur, svc.due, now);
    if svc.due[t].expire % N == now % N {
      var i :| 0 <= i < |c| && c[i].timer == t;
    }
  }

  lemma {:induction false} NoTicksNoVisits<T>(w: Wheel<T>, ops: seq<WheelOp<T>>, t: T)
    requires |w.slots| == N && w.cur < N && Advances(ops, |ops|) == 0
    ensures Visits(w, ops, t) == 0
    decreases |ops|
  {
    if ops != [] { NoTicksNoVisits(Step(w, ops[0]), ops[1..], t); }
  }

  /** How many ticks of the run find the clock congruent to `e`. */
  function Turns<T>(ops: seq<WheelOp<T>>, now: nat, e: int): nat
    decreases |ops|
  {
    if ops == [] then 0
    else (if ops[0].Advance? && e % N == now % N then 1 else 0) + Turns(ops[1..], Clock(ops[0], now), e)
  }

  lemma FirstStep<T>(w: Wheel<T>, svc: Service<T>, now: nat, ops: seq<WheelOp<T>>)
    requires Represents(w, svc, now) && LegalRun(svc, AsOps(ops, now)) && ops != []
    ensures Represents(Step(w, ops[0]), svc.Step(AsOp(ops[0], now)), Clock(ops[0], now))
    ensures LegalRun(svc.Step(AsOp(ops[0], now)), AsOps(ops[1..], Clock(ops[0], now)))
  {
    StepRepresents(w, svc, now, ops[0]);
    assert AsOps(ops, now)[1..] == AsOps(ops[1..], Clock(ops[0], now));
  }

  lemma {:induction false} VisitsAreTurns<T>(w: Wheel<T>, svc: Service<T>, now: nat, ops: seq<WheelOp<T>>, t: T, e: int)
    requires Represents(w, svc, now) && LegalRun(svc, AsOps(ops, now)) && Spares(ops, t)
    requires t in svc.due && svc.due[t].expire == e && Advances(ops, |ops|) <= e - now + 1
    ensures Visits(w, ops, t) == Turns(ops, now, e)
    decreases |ops|
  {
    if ops != [] {
      var w', svc', now' := Step(w, ops[0]), svc.Step(AsOp(ops[0], now)), Clock(ops[0], now);
      NothingOverdue(w, svc, now, t);
      Visited(w, svc, now, t);
      StepSpares(svc, now, ops[0], t);
      if ops[0].Advance? && e == now {
        NoTicksNoVisits(w', ops[1..], t);
        NoTicksNoTurns(ops[1..], now', e);
      } else {
        FirstStep(w, svc, now, ops);
        VisitsAreTurns(w', svc', now', ops[1..], t, e);
      }
    }
  }

  lemma {:induction false} NoTicksNoTurns<T>(ops: seq<WheelOp<T>>, now: nat, e: int)
    requires Advances(ops, |ops|) == 0
    ensures Turns(ops, now, e) == 0
    decreases |ops|
  {
    if ops != [] { NoTicksNoTurns(ops[1..], Clock(ops[0], now), e); }
  }

  lemma {:induction false} TurnCount<T>(ops: seq<WheelOp<T>>, now: nat, e: int)
    ensures Turns(ops, now, e) == (e - now) / N - (e - now - Advances(ops, |ops|)) / N
    decreases |ops|
  {
    if ops != [] {
      TurnCount(ops[1..], Clock(ops[0], now), e);
      TurnArithmetic(e, now);
    }
  }

  lemma TurnArithmetic(e: int, now: nat)
    ensures (e - now) / N - (e - (now + 1)) / N == if e % N == now % N then 1 else 0
  {
  }

  lemma TurnValues(k: nat, m: nat)
    ensures m == k + 1 ==> k / N - (k - m) / N == k / N + 1
    ensures m == N <= k + 1 ==> k / N - (k - m) / N == 1
  {
  }

  /** Until it has fired, a timer with `k` ticks to wait costs k/60 + 1 visits; over 60
      consecutive ticks that it lives through, exactly one. */
  lemma VisitCost<T>(w: Wheel<T>, svc: Service<T>, now: nat, ops: seq<WheelOp<T>>, t: T)
    requires Represents(w, svc, now) && LegalRun(svc, AsOps(ops, now)) && Spares(ops, t) && t in svc.due
    ensures var k, m := svc.due[t].expire - now, Advances(ops, |ops|);
      (m == k + 1 ==> Visits(w, ops, t) == k / 60 + 1) && (m == 60 <= k + 1 ==> Visits(w, ops, t) == 1)
  {
    var e, m := svc.due[t].expire, Advances(ops, |ops|);
    NothingOverdue(w, svc, now, t);
    if m <= e - now + 1 {
      VisitsAreTurns(w, svc, now, ops, t, e);
      TurnCount(ops, now, e);
      TurnValues(e - now, m);
    }
  }

  // ---------- wheel against sorted list ----------

  ghost predicate Mirrors<T>(a: seq<T>, b: seq<T>) {
    |a| == |b| && forall i :: 0 <= i < |a| ==> a[i] == b[|b| - 1 - i]
  }

  /** The same elements in ascending and in descending stamp order are each other's reversal. */
  lemma {:induction false} OrdersMirror<T>(a: seq<T>, b: seq<T>, due: map<T, Due>)
    requires forall i :: 0 <= i < |a| ==> a[i] in b && a[i] in due
    requires forall i :: 0 <= i < |b| ==> b[i] in a
    requires forall i, j :: 0 <= i < j < |a| ==> due[a[i]].stamp < due[a[j]].stamp
    requires forall i, j :: 0 <= i < j < |b| ==> due[b[i]].stamp > due[b[j]].stamp
    ensures Mirrors(a, b)
    decreases |a|
  {
    assert |b| > 0 ==> b[0] in a;
    if a != [] {
      LeastIsLast(a, b, due);
      TailsAgree(a, b, due);
      OrdersMirror(a[1..], b[..|b| - 1], due);
      MirrorsCons(a, b);
    }
  }

  lemma LeastIsLast<T>(a: seq<T>, b: seq<T>, due: map<T, Due>)
    requires a != [] && a[0] in b
    requires forall i :: 0 <= i < |a| ==> a[i] in due
    requires forall i :: 0 <= i < |b| ==> b[i] in a
    requires forall i, j :: 0 <= i < j < |a| ==> due[a[i]].stamp < due[a[j]].stamp
    requires forall i, j :: 0 <= i < j < |b| ==> due[b[i]].stamp > due[b[j]].stamp
    ensures b != [] && b[|b| - 1] == a[0]
  {
    var j :| 0 <= j < |b| && b[j] == a[0];
    var m :| 0 <= m < |a| && a[m] == b[|b| - 1];
  }

  lemma TailsAgree<T>(a: seq<T>, b: seq<T>, due: map<T, Due>)
    requires a != [] && b != [] && b[|b| - 1] == a[0]
    requires forall i :: 0 <= i < |a| ==> a[i] in b && a[i] in due
    requires forall i :: 0 <= i < |b| ==> b[i] in a
    requires forall i, j :: 0 <= i < j < |a| ==> due[a[i]].stamp < due[a[j]].stamp
    requires forall i, j :: 0 <= i < j < |b| ==> due[b[i]].stamp > due[b[j]].stamp
    ensures forall x :: x in a[1..] ==> x in b[..|b| - 1]
    ensures forall x :: x in b[..|b| - 1] ==> x in a[1..]
  {
    forall i | 0 < i < |a|
      ensures a[i] in b[..|b| - 1]
    {
      var j :| 0 <= j < |b| && b[j] == a[i];
      assert b[..|b| - 1][j] == a[i];
    }
    forall i | 0 <= i < |b| - 1
      ensures b[i] in a[1..]
    {
      var j :| 0 <= j < |a| && a[j] == b[i];
      assert a[1..][j - 1] == b[i];
    }
  }

  lemma MirrorsCons<T>(a: seq<T>, b: seq<T>)
    requires a != [] && b != [] && b[|b| - 1] == a[0] && Mirrors(a[1..], b[..|b| - 1])
    ensures Mirrors(a, b)
  {
    assert forall i :: 0 < i < |a| ==> a[i] == a[1..][i - 1];
  }

  lemma StepMirrors<T>(svc: Service<T>, op: Op<T>, a: seq<T>, b: seq<T>)
    requires FiresInOrder(svc, op, a) && FiresNewestFirst(svc, op, b)
    ensures Mirrors(a, b)
  {
    OrdersMirror(a, b, svc.due);
  }

  lemma {:induction false} RunMirrors<T>(svc: Service<T>, ops: seq<Op<T>>, a: seq<seq<T>>, b: seq<seq<T>>, i: nat)
    requires RunFiresInOrder(svc, ops, a) && RunFiresNewestFirst(svc, ops, b) && i < |ops|
    ensures Mirrors(a[i], b[i])
    decreases i
  {
    if i == 0 {
      StepMirrors(svc, ops[0], a[0], b[0]);
    } else {
      RunMirrors(svc.Step(ops[0]), ops[1..], a[1..], b[1..], i - 1);
    }
  }

  /** Driven by the same run, with the list's clock counting completed ticks and its expiries
      set to ticks plus the delay that each timeout asks for, wheel and list fire the same timers at every
      operation, in opposite orders. */
  lemma WheelMirrorsList<T>(w: Wheel<T>, s: seq<SortedTimers.Entry<T>>, svc: Service<T>, now: nat,
      ops: seq<WheelOp<T>>, reqs: seq<Op<T>>, i: nat)
    requires Represents(w, svc, now) && SortedTimers.Represents(s, svc)
    requires Asks(ops, reqs, now) && LegalRun(svc, reqs) && i < |ops|
    ensures |SortedTimers.RunFired(s, reqs)| == |ops|
    ensures Mirrors(SortedTimers.RunFired(s, reqs)[i], RunFired(w, ops)[i])
  {
    SortedTimers.ListRefinesService(s, svc, reqs);
    WheelRefinesService(w, svc, now, ops, reqs);
    RunMirrors(svc, reqs, SortedTimers.RunFired(s, reqs), RunFired(w, ops), i);
  }

  /** ... and they hold the same timers afterwards. */
  lemma WheelHoldsSameAsList<T>(w: Wheel<T>, s: seq<SortedTimers.Entry<T>>, svc: Service<T>, now: nat,
      ops: seq<WheelOp<T>>, reqs: seq<Op<T>>)
    requires Represents(w, svc, now) && SortedTimers.Represents(s, svc)
    requires Asks(ops, reqs, now) && LegalRun(svc, reqs)
    ensures OnWheel(Run(w, ops)) == InList(SortedTimers.Run(s, reqs))
  {
    SortedTimers.ListRefinesService(s, svc, reqs);
    WheelRefinesService(w, svc, now, ops, reqs);
    WheelHolds(Run(w, ops), After(svc, reqs), ClockAfter(ops, now));
    ListHolds(SortedTimers.Run(s, reqs), After(svc, reqs));
  }

  ghost function OnWheel<T>(w: Wheel<T>): set<T>
    requires |w.slots| == N
  {
    set k, i | 0 <= k < N && 0 <= i < |w.slots[k]| :: w.slots[k][i].timer
  }

  ghost function InList<T>(s: seq<SortedTimers.Entry<T>>): set<T> {
    set i | 0 <= i < |s| :: s[i].timer
  }

  lemma WheelHolds<T>(w: Wheel<T>, svc: Service<T>, now: nat)
    requires Represents(w, svc, now)
    ensures OnWheel(w) == svc.due.Keys
  {
    forall t | t in svc.due
      ensures t in OnWheel(w)
    {
      var s := svc.due[t].expire % N;
      var i :| 0 <= i < |w.slots[s]| && w.slots[s][i].timer == t;
    }
    forall k, i | 0 <= k < N && 0 <= i < |w.slots[k]|
      ensures w.slots[k][i].timer in svc.due
    {
      assert ChainFits(w.slots[k], k, svc.due, now);
    }
  }

  lemma ListHolds<T>(s: seq<SortedTimers.Entry<T>>, svc: Service<T>)
    requires SortedTimers.Represents(s, svc)
    ensures InList(s) == svc.due.Keys
  {
    forall t | t in svc.due
      ensures t in InList(s)
    {
      assert SortedTimers.Holds(s, t);
      var i :| 0 <= i < |s| && s[i].timer == t;
    }
  }

  /** Both start empty. */
  lemma EmptyRepresents<T>()
    ensures Represents<T>(Empty(), Service(map[], 0), 0)
    ensures SortedTimers.Represents<T>([], Service(map[], 0))
  {
  }
}
