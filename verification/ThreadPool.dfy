/**
 The thread pool as interleaved atomic steps: any number of producers inside `append` and workers
 inside `run`, over one mutex, one semaphore and one bounded queue.  A worker that returns from
 `wait` remembers whether it took a permit, because `run` ignores the result of `wait`.
 */
module ThreadPool {

  datatype Request = Null | Req(id: nat)

  datatype Producer =
    | Idle
    | Appending(req: Request)  // called append, wants the mutex
    | Checking(req: Request)   // holds the mutex
    | Pushed(req: Request)     // has queued, still holds the mutex
    | Posting(req: Request)    // released the mutex, has not posted

  datatype Worker =
    | Waiting
    | Woken(permit: bool)      // back from wait, wants the mutex
    | Looking(permit: bool)    // holds the mutex
    | Taken(req: Request)      // has popped, still holds the mutex
    | Serving(req: Request)    // released the mutex

  datatype Owner = Free | ByProducer(p: nat) | ByWorker(w: nat)

  datatype Pool = Pool(
    max: nat,
    queue: seq<Request>,
    permits: nat,
    owner: Owner,
    producers: seq<Producer>,
    workers: seq<Worker>,
    accepted: seq<Request>,      // history: pushed, in order
    taken: seq<(nat, Request)>,  // history: who popped what, in order
    rejected: seq<Request>,      // history: append returned false
    done: seq<Request>,          // history: processed, or skipped when null
    offered: seq<Request>        // history: append was called
  )

  datatype Step =
    | Begin(p: nat, req: Request)
    | LockToPush(p: nat)
    | Reject(p: nat)
    | Push(p: nat)
    | UnlockPushed(p: nat)
    | Post(p: nat)
    | Wait(w: nat)
    | WakeWithoutPermit(w: nat)
    | LockToPop(w: nat)
    | FindEmpty(w: nat)
    | Pop(w: nat)
    | UnlockTaken(w: nat)
    | Finish(w: nat)

  predicate ProducerStep(a: Step) {
    a.Begin? || a.LockToPush? || a.Reject? || a.Push? || a.UnlockPushed? || a.Post?
  }

  predicate Enabled(s: Pool, a: Step) {
    if ProducerStep(a) then
      a.p < |s.producers| &&
      var pc := s.producers[a.p];
      match a
      case Begin(_, _) => pc.Idle?
      case LockToPush(_) => pc.Appending? && s.owner.Free?
      case Reject(_) => pc.Checking? && |s.queue| > s.max
      case Push(_) => pc.Checking? && |s.queue| <= s.max
      case UnlockPushed(_) => pc.Pushed?
      case _ => pc.Posting?
    else
      a.w < |s.workers| &&
      var pc := s.workers[a.w];
      match a
      case Wait(_) => pc.Waiting? && s.permits > 0
      case WakeWithoutPermit(_) => pc.Waiting?
      case LockToPop(_) => pc.Woken? && s.owner.Free?
      case FindEmpty(_) => pc.Looking? && s.queue == []
      case Pop(_) => pc.Looking? && s.queue != []
      case UnlockTaken(_) => pc.Taken?
      case _ => pc.Serving?
  }

  function Next(s: Pool, a: Step): Pool
    requires Enabled(s, a)
  {
    match a
    case Begin(p, req) => s.(producers := s.producers[p := Appending(req)], offered := s.offered + [req])
    case LockToPush(p) => s.(producers := s.producers[p := Checking(s.producers[p].req)], owner := ByProducer(p))
    case Reject(p) =>
      s.(producers := s.producers[p := Idle], owner := Free, rejected := s.rejected + [s.producers[p].req])
    case Push(p) =>
      var req := s.producers[p].req;
      s.(producers := s.producers[p := Pushed(req)], queue := s.queue + [req], accepted := s.accepted + [req])
    case UnlockPushed(p) => s.(producers := s.producers[p := Posting(s.producers[p].req)], owner := Free)
    case Post(p) => s.(producers := s.producers[p := Idle], permits := s.permits + 1)
    case Wait(w) => s.(workers := s.workers[w := Woken(true)], permits := s.permits - 1)
    case WakeWithoutPermit(w) => s.(workers := s.workers[w := Woken(false)])
    case LockToPop(w) => s.(workers := s.workers[w := Looking(s.workers[w].permit)], owner := ByWorker(w))
    case FindEmpty(w) => s.(workers := s.workers[w := Waiting], owner := Free)
    case Pop(w) =>
      s.(workers := s.workers[w := Taken(s.queue[0])], queue := s.queue[1..], taken := s.taken + [(w, s.queue[0])])
    case UnlockTaken(w) => s.(workers := s.workers[w := Serving(s.workers[w].req)], owner := Free)
    case Finish(w) => s.(workers := s.workers[w := Waiting], done := s.done + [s.workers[w].req])
  }

  function Start(producers: nat, workers: nat, max: nat): Pool {
    Pool(max, [], 0, Free, seq(producers, i => Idle), seq(workers, i => Waiting), [], [], [], [], [])
  }

  predicate Runs(s: Pool, run: seq<Step>)
    decreases |run|
  {
    run == [] || (Enabled(s, run[0]) && Runs(Next(s, run[0]), run[1..]))
  }

  function After(s: Pool, run: seq<Step>): Pool
    requires Runs(s, run)
    decreases |run|
  {
    if run == [] then s else After(Next(s, run[0]), run[1..])
  }

  // ---------- sums over threads ----------

  function Sum<T>(f: T -> nat, s: seq<T>): nat {
    if s == [] then 0 else f(s[0]) + Sum(f, s[1..])
  }

  lemma {:induction false} SumUpdate<T>(f: T -> nat, s: seq<T>, i: nat, x: T)
    requires i < |s|
    ensures Sum(f, s[i := x]) + f(s[i]) == Sum(f, s) + f(x)
  {
    if i > 0 {
      assert s[i := x][1..] == s[1..][i - 1 := x];
      SumUpdate(f, s[1..], i - 1, x);
    }
  }

  lemma {:induction false} SumPositive<T>(f: T -> nat, s: seq<T>) returns (i: nat)
    requires Sum(f, s) > 0
    ensures i < |s| && f(s[i]) > 0
  {
    if f(s[0]) > 0 {
      i := 0;
    } else {
      i := SumPositive(f, s[1..]);
      i := i + 1;
    }
  }

  lemma {:induction false} SumAtLeast<T>(f: T -> nat, s: seq<T>, i: nat)
    requires i < |s|
    ensures Sum(f, s) >= f(s[i])
  {
    if i > 0 { SumAtLeast(f, s[1..], i - 1); }
  }

  lemma {:induction false} SumZero<T>(f: T -> nat, s: seq<T>)
    requires forall i :: 0 <= i < |s| ==> f(s[i]) == 0
    ensures Sum(f, s) == 0
  {
    if s != [] { SumZero(f, s[1..]); }
  }

  /** Queued but not yet posted. */
  function Unposted(pc: Producer): nat {
    if pc.Pushed? || pc.Posting? then 1 else 0
  }

  /** Took a permit but has not yet popped. */
  function Unused(pc: Worker): nat {
    if (pc.Woken? || pc.Looking?) && pc.permit then 1 else 0
  }

  /** The wakeups that are in the semaphore or on their way through a thread. */
  function Wakeups(s: Pool): nat {
    s.permits + Sum(Unposted, s.producers) + Sum(Unused, s.workers)
  }

  // ---------- invariants ----------

  /** Exactly the owner is between lock and unlock. */
  ghost predicate MutexInv(s: Pool) {
    && (forall i :: 0 <= i < |s.producers| ==>
      ((s.producers[i].Checking? || s.producers[i].Pushed?) <==> s.owner == ByProducer(i)))
    && (forall i :: 0 <= i < |s.workers| ==>
      ((s.workers[i].Looking? || s.workers[i].Taken?) <==> s.owner == ByWorker(i)))
    && (s.owner.ByProducer? ==> s.owner.p < |s.producers|)
    && (s.owner.ByWorker? ==> s.owner.w < |s.workers|)
  }

  function Requests(taken: seq<(nat, Request)>): (r: seq<Request>)
    ensures |r| == |taken|
  {
    seq(|taken|, i requires 0 <= i < |taken| => taken[i].1)
  }

  /** FIFO and conservation: what was popped, followed by what is queued, is what was accepted. */
  ghost predicate FifoInv(s: Pool) {
    Requests(s.taken) + s.queue == s.accepted && |s.queue| <= s.max + 1
  }

  function InHand(pc: Worker): multiset<Request> {
    if pc.Taken? || pc.Serving? then multiset{pc.req} else multiset{}
  }

  function Undecided(pc: Producer): multiset<Request> {
    if pc.Appending? || pc.Checking? then multiset{pc.req} else multiset{}
  }

  function Held<T>(h: T -> multiset<Request>, s: seq<T>): multiset<Request> {
    if s == [] then multiset{} else h(s[0]) + Held(h, s[1..])
  }

  /** Each popped request is in the hands of a worker or finished. */
  ghost predicate HandledInv(s: Pool) {
    multiset(s.done) + Held(InHand, s.workers) == multiset(Requests(s.taken))
  }

  /** Each request handed to append was accepted, was rejected, or is still being decided. */
  ghost predicate OfferedInv(s: Pool) {
    (multiset(s.accepted) + multiset(s.rejected)) + Held(Undecided, s.producers) == multiset(s.offered)
  }

  /** No request is queued without a wakeup for it. */
  ghost predicate WakeupInv(s: Pool) {
    |s.queue| <= Wakeups(s)
  }

  ghost predicate Inv(s: Pool) {
    MutexInv(s) && FifoInv(s) && HandledInv(s) && OfferedInv(s) && WakeupInv(s)
  }

  lemma StartInv(producers: nat, workers: nat, max: nat)
    ensures Inv(Start(producers, workers, max)) && Exact(Start(producers, workers, max))
  {
    var s := Start(producers, workers, max);
    NothingHeld(InHand, s.workers);
    NothingHeld(Undecided, s.producers);
    StartWakeups(producers, workers, max);
  }

  lemma StartWakeups(producers: nat, workers: nat, max: nat)
    ensures Wakeups(Start(producers, workers, max)) == 0
  {
    SumZero(Unposted, Start(producers, workers, max).producers);
    SumZero(Unused, Start(producers, workers, max).workers);
  }

  lemma {:induction false} NothingHeld<T>(h: T -> multiset<Request>, s: seq<T>)
    requires forall i :: 0 <= i < |s| ==> h(s[i]) == multiset{}
    ensures Held(h, s) == multiset{}
  {
    if s != [] { NothingHeld(h, s[1..]); }
  }

  lemma Regroup<T>(a: multiset<T>, b: multiset<T>, c: multiset<T>, d: multiset<T>, e: multiset<T>)
    requires b + c == d + e
    ensures (a + b) + c == (a + d) + e
  {
    assert (a + b) + c == a + (b + c);
  }

  /** What leaves one hand for the finished requests keeps the total. */
  lemma Exchange<T(!new)>(d: multiset<T>, all: multiset<T>, h: multiset<T>, d': multiset<T>, all': multiset<T>,
      h': multiset<T>)
    requires all' + h == all + h' && d' + h' == d + h
    ensures d' + all' == d + all
  {
    forall x
      ensures (d' + all')[x] == (d + all)[x]
    {
      assert (all' + h)[x] == (all + h')[x] && (d' + h')[x] == (d + h)[x];
    }
  }

  lemma {:induction false} HeldUpdate<T>(h: T -> multiset<Request>, s: seq<T>, i: nat, x: T)
    requires i < |s|
    ensures Held(h, s[i := x]) + h(s[i]) == Held(h, s) + h(x)
  {
    if i > 0 {
      assert s[i := x][1..] == s[1..][i - 1 := x];
      HeldUpdate(h, s[1..], i - 1, x);
      Regroup(h(s[0]), Held(h, s[1..][i - 1 := x]), h(s[i]), Held(h, s[1..]), h(x));
    }
  }

  lemma StepMutex(s: Pool, a: Step)
    requires MutexInv(s) && Enabled(s, a)
    ensures MutexInv(Next(s, a))
  {
  }

  lemma StepFifo(s: Pool, a: Step)
    requires FifoInv(s) && Enabled(s, a)
    ensures FifoInv(Next(s, a))
  {
    var t := Next(s, a);
    if a.Push? {
      assert t.accepted == Requests(s.taken) + (s.queue + [s.producers[a.p].req]);
    } else if a.Pop? {
      assert Requests(t.taken) == Requests(s.taken) + [s.queue[0]];
      assert s.queue == [s.queue[0]] + s.queue[1..];
    }
  }

  lemma StepHandled(s: Pool, a: Step)
    requires HandledInv(s) && Enabled(s, a)
    ensures HandledInv(Next(s, a))
  {
    if !ProducerStep(a) {
      var t := Next(s, a);
      HeldUpdate(InHand, s.workers, a.w, t.workers[a.w]);
      if a.Pop? {
        var x := s.queue[0];
        assert Requests(t.taken) == Requests(s.taken) + [x];
        assert Held(InHand, t.workers) == Held(InHand, s.workers) + multiset{x};
        assert multiset(s.done) + (Held(InHand, s.workers) + multiset{x})
          == (multiset(s.done) + Held(InHand, s.workers)) + multiset{x};
      } else {
        SameHand(s, a);
        Exchange(multiset(s.done), Held(InHand, s.workers), InHand(s.workers[a.w]),
                 multiset(t.done), Held(InHand, t.workers), InHand(t.workers[a.w]));
      }
    }
  }

  /** Only popping puts a request into a hand, and only finishing takes it out. */
  lemma SameHand(s: Pool, a: Step)
    requires Enabled(s, a) && !ProducerStep(a) && !a.Pop?
    ensures var t := Next(s, a);
      && t.taken == s.taken
      && multiset(t.done) + InHand(t.workers[a.w]) == multiset(s.done) + InHand(s.workers[a.w])
  {
  }

  lemma StepOffered(s: Pool, a: Step)
    requires OfferedInv(s) && Enabled(s, a)
    ensures OfferedInv(Next(s, a))
  {
    if ProducerStep(a) {
      var t := Next(s, a);
      HeldUpdate(Undecided, s.producers, a.p, t.producers[a.p]);
      if a.Begin? {
        var known, x := multiset(s.accepted) + multiset(s.rejected), a.req;
        assert Held(Undecided, t.producers) == Held(Undecided, s.producers) + multiset{x};
        assert known + (Held(Undecided, s.producers) + multiset{x})
          == (known + Held(Undecided, s.producers)) + multiset{x};
      } else {
        SameOffer(s, a);
        Exchange(multiset(s.accepted) + multiset(s.rejected), Held(Undecided, s.producers), Undecided(s.producers[a.p]),
                 multiset(t.accepted) + multiset(t.rejected), Held(Undecided, t.producers),
                   Undecided(t.producers[a.p]));
      }
    }
  }

  lemma SameOffer(s: Pool, a: Step)
    requires Enabled(s, a) && ProducerStep(a) && !a.Begin?
    ensures var t := Next(s, a);
      && t.offered == s.offered
      && (multiset(t.accepted) + multiset(t.rejected)) + Undecided(t.producers[a.p])
         == (multiset(s.accepted) + multiset(s.rejected)) + Undecided(s.producers[a.p])
  {
    var t, x := Next(s, a), s.producers[a.p];
    if a.Push? {
      assert t.accepted == s.accepted + [x.req] && t.rejected == s.rejected && t.producers[a.p] == Pushed(x.req);
      MoveInto(multiset(s.accepted), multiset(s.rejected), x.req);
    } else if a.Reject? {
      assert t.accepted == s.accepted && t.rejected == s.rejected + [x.req] && t.producers[a.p] == Idle;
      MoveInto(multiset(s.rejected), multiset(s.accepted), x.req);
    }
  }

  lemma MoveInto<T>(a: multiset<T>, b: multiset<T>, x: T)
    ensures ((a + multiset{x}) + b) + multiset{} == (a + b) + multiset{x}
    ensures (b + (a + multiset{x})) + multiset{} == (b + a) + multiset{x}
  {
  }

  /** How one step changes the wakeups and the queue: only pushing adds a wakeup, and only
      popping or finding nothing with a permit in hand uses one up. */
  lemma StepWakeups(s: Pool, a: Step)
    requires Enabled(s, a)
    ensures Wakeups(Next(s, a)) == Wakeups(s)
      + (if a.Push? then 1 else 0) - (if (a.Pop? || a.FindEmpty?) && s.workers[a.w].permit then 1 else 0)
  {
    var t := Next(s, a);
    if ProducerStep(a) {
      SumUpdate(Unposted, s.producers, a.p, t.producers[a.p]);
    } else {
      SumUpdate(Unused, s.workers, a.w, t.workers[a.w]);
    }
  }

  lemma StepInv(s: Pool, a: Step)
    requires Inv(s) && Enabled(s, a)
    ensures Inv(Next(s, a))
  {
    StepMutex(s, a);
    StepFifo(s, a);
    StepHandled(s, a);
    StepOffered(s, a);
    StepWakeups(s, a);
  }

  // ---------- safety over whole runs ----------

  /** Every interleaving keeps mutual exclusion, FIFO order, conservation, the queue bound, and a wakeup for every
      queued request. */
  lemma {:induction false} RunInv(s: Pool, run: seq<Step>)
    requires Inv(s) && Runs(s, run)
    ensures Inv(After(s, run))
    decreases |run|
  {
    if run != [] {
      StepInv(s, run[0]);
      RunInv(Next(s, run[0]), run[1..]);
    }
  }

  /** No wakeup is lost and none is spare. */
  ghost predicate Exact(s: Pool) {
    && |s.queue| == Wakeups(s)
    && (forall i :: 0 <= i < |s.workers| ==> s.workers[i].Woken? || s.workers[i].Looking? ==> s.workers[i].permit)
  }

  /** With exact wakeups a worker never finds the queue empty. */
  lemma NeverEmpty(s: Pool, w: nat)
    requires Exact(s)
    ensures !Enabled(s, FindEmpty(w))
  {
    if Enabled(s, FindEmpty(w)) { SumAtLeast(Unused, s.workers, w); }
  }

  lemma StepExact(s: Pool, a: Step)
    requires Exact(s) && Enabled(s, a) && !a.WakeWithoutPermit?
    ensures Exact(Next(s, a))
  {
    StepWakeups(s, a);
    if a.FindEmpty? { NeverEmpty(s, a.w); }
  }

  /** If wait never returns without a permit, then in every interleaving the queue length is the
      semaphore's value plus the producers between push and post plus the workers between wait
      and pop, and no step of the run takes the empty-queue branch. */
  lemma {:induction false} NoLostWakeup(s: Pool, run: seq<Step>)
    requires Exact(s) && Runs(s, run)
    requires forall i :: 0 <= i < |run| ==> !run[i].WakeWithoutPermit?
    ensures Exact(After(s, run))
    ensures forall i :: 0 <= i < |run| ==> !run[i].FindEmpty?
    decreases |run|
  {
    if run != [] {
      if run[0].FindEmpty? { NeverEmpty(s, run[0].w); }
      StepExact(s, run[0]);
      NoLostWakeup(Next(s, run[0]), run[1..]);
      assert forall i :: 0 < i < |run| ==> run[i] == run[1..][i - 1];
    }
  }

  lemma {:induction false} HistoriesGrow(s: Pool, run: seq<Step>)
    requires Runs(s, run)
    ensures var t := After(s, run); s.accepted <= t.accepted && s.taken <= t.taken && s.rejected <= t.rejected
    decreases |run|
  {
    if run != [] { HistoriesGrow(Next(s, run[0]), run[1..]); }
  }

  lemma TakenInOrder(s: Pool)
    requires FifoInv(s)
    ensures |s.taken| <= |s.accepted| && forall k :: 0 <= k < |s.taken| ==> s.taken[k].1 == s.accepted[k]
  {
    assert forall k :: 0 <= k < |s.taken| ==> Requests(s.taken)[k] == s.taken[k].1;
  }

  /** The k-th accepted request is the k-th popped one, and no later step changes which worker got
      it: each accepted request goes to exactly one worker, in order of acceptance. */
  lemma HandedOnce(s: Pool, run: seq<Step>, k: nat)
    requires Inv(s) && Runs(s, run) && k < |s.taken|
    ensures k < |After(s, run).taken| && After(s, run).taken[k] == s.taken[k]
    ensures k < |After(s, run).accepted| && s.taken[k].1 == After(s, run).accepted[k]
  {
    HistoriesGrow(s, run);
    TakenInOrder(s);
  }

  /** The last request that worker `w` popped is at `k`. */
  ghost predicate LastTakenBy(s: Pool, w: nat, k: nat) {
    k < |s.taken| && s.taken[k].0 == w && forall m :: k < m < |s.taken| ==> s.taken[m].0 != w
  }

  /** A worker that has a request in hand has the one that it popped last. */
  ghost predicate HolderInv(s: Pool) {
    forall w :: 0 <= w < |s.workers| && (s.workers[w].Taken? || s.workers[w].Serving?) ==>
      exists k: nat :: LastTakenBy(s, w, k) && s.taken[k].1 == s.workers[w].req
  }

  lemma StepHolder(s: Pool, a: Step, w: nat)
    requires HolderInv(s) && Enabled(s, a) && w < |s.workers|
    requires Next(s, a).workers[w].Taken? || Next(s, a).workers[w].Serving?
    ensures exists k: nat :: LastTakenBy(Next(s, a), w, k) && Next(s, a).taken[k].1 == Next(s, a).workers[w].req
  {
    var t := Next(s, a);
    if a.Pop? && a.w == w {
      assert LastTakenBy(t, w, |s.taken|);
    } else {
      var k: nat :| LastTakenBy(s, w, k) && s.taken[k].1 == s.workers[w].req;
      assert LastTakenBy(t, w, k) && t.taken[k] == s.taken[k];
    }
  }

  /** In every run the record of who popped what is right: whoever has a request in hand is
      recorded as the one that popped it. */
  lemma {:induction false} RunHolder(s: Pool, run: seq<Step>)
    requires HolderInv(s) && Runs(s, run)
    ensures HolderInv(After(s, run))
    decreases |run|
  {
    if run != [] {
      var t := Next(s, run[0]);
      forall w | 0 <= w < |t.workers| && (t.workers[w].Taken? || t.workers[w].Serving?)
        ensures exists k: nat :: LastTakenBy(t, w, k) && t.taken[k].1 == t.workers[w].req
      {
        StepHolder(s, run[0], w);
      }
      RunHolder(t, run[1..]);
    }
  }

  // ---------- progress ----------

  /** Steps that neither start a new append nor wake a worker without a permit. */
  predicate Internal(a: Step) {
    !a.Begin? && !a.WakeWithoutPermit?
  }

  function ProducerWork(pc: Producer): nat {
    match pc
    case Idle => 0
    case Appending(_) => 9
    case Checking(_) => 8
    case Pushed(_) => 7
    case Posting(_) => 6
  }

  function WorkerWork(pc: Worker): nat {
    match pc
    case Waiting => 0
    case Woken(_) => 4
    case Looking(_) => 3
    case Taken(_) => 2
    case Serving(_) => 1
  }

  /** Bounds the internal steps still to come. */
  function Work(s: Pool): nat {
    5 * s.permits + Sum(ProducerWork, s.producers) + Sum(WorkerWork, s.workers)
  }

  lemma StepWorks(s: Pool, a: Step)
    requires Enabled(s, a)
    ensures Work(Next(s, a)) + 1 <= Work(s) + if a.Begin? then 10 else if a.WakeWithoutPermit? then 5 else 0
  {
    var t := Next(s, a);
    if ProducerStep(a) {
      SumUpdate(ProducerWork, s.producers, a.p, t.producers[a.p]);
    } else {
      SumUpdate(WorkerWork, s.workers, a.w, t.workers[a.w]);
    }
  }

  function Count(f: Step -> bool, run: seq<Step>): nat {
    if run == [] then 0 else (if f(run[0]) then 1 else 0) + Count(f, run[1..])
  }

  /** Between two appends or stray wakeups only a bounded number of steps fits, whatever the schedule. */
  lemma {:induction false} RunIsBounded(s: Pool, run: seq<Step>)
    requires Runs(s, run)
    ensures |run| + Work(After(s, run))
      <= Work(s) + 10 * Count((a: Step) => a.Begin?, run) + 5 * Count((a: Step) => a.WakeWithoutPermit?, run)
    decreases |run|
  {
    if run != [] {
      StepWorks(s, run[0]);
      RunIsBounded(Next(s, run[0]), run[1..]);
    }
  }

  lemma WorkerCanMove(s: Pool, w: nat) returns (a: Step)
    requires MutexInv(s) && w < |s.workers| && s.owner.Free?
    requires !s.workers[w].Waiting? || s.permits > 0
    ensures Enabled(s, a) && Internal(a)
  {
    var pc := s.workers[w];
    a := if pc.Waiting? then Wait(w) else if pc.Woken? then LockToPop(w) else Finish(w);
  }

  /** While anything is queued, some thread can take an internal step, even after stray wakeups. */
  lemma SomeoneCanMove(s: Pool) returns (a: Step)
    requires Inv(s) && s.queue != [] && s.workers != []
    ensures Enabled(s, a) && Internal(a)
  {
    match s.owner
    case ByProducer(p) =>
      a := if s.producers[p].Pushed? then UnlockPushed(p) else if |s.queue| > s.max then Reject(p) else Push(p);
    case ByWorker(w) =>
      a := if s.workers[w].Taken? then UnlockTaken(w) else Pop(w);
    case Free =>
      if s.permits > 0 {
        a := WorkerCanMove(s, 0);
      } else if Sum(Unposted, s.producers) > 0 {
        var p := SumPositive(Unposted, s.producers);
        a := Post(p);
      } else {
        var w := SumPositive(Unused, s.workers);
        a := WorkerCanMove(s, w);
      }
  }

  lemma NothingQueued(t: Pool)
    requires Inv(t) && t.workers != []
    requires forall a :: Enabled(t, a) ==> !Internal(a)
    ensures t.queue == []
  {
    if t.queue != [] {
      var a := SomeoneCanMove(t);
    }
  }

  lemma NothingInHand(t: Pool)
    requires forall a :: Enabled(t, a) ==> !Internal(a)
    ensures Held(InHand, t.workers) == multiset{}
  {
    forall w | 0 <= w < |t.workers|
      ensures InHand(t.workers[w]) == multiset{}
    {
      assert !Enabled(t, UnlockTaken(w)) && !Enabled(t, Finish(w));
    }
    NothingHeld(InHand, t.workers);
  }

  /** A schedule that goes on until no internal step is left has popped and finished every accepted
      request; and by RunIsBounded every schedule of internal steps gets there. */
  lemma AllServed(s: Pool, run: seq<Step>)
    requires Inv(s) && s.workers != [] && Runs(s, run)
    requires forall a :: Enabled(After(s, run), a) ==> !Internal(a)
    ensures var t := After(s, run);
      t.queue == [] && Requests(t.taken) == t.accepted && multiset(t.done) == multiset(t.accepted)
  {
    var t := After(s, run);
    RunInv(s, run);
    SameThreads(s, run);
    NothingQueued(t);
    NothingInHand(t);
    assert Requests(t.taken) + [] == Requests(t.taken);
  }

  lemma {:induction false} SameThreads(s: Pool, run: seq<Step>)
    requires Runs(s, run)
    ensures |After(s, run).workers| == |s.workers|
    decreases |run|
  {
    if run != [] { SameThreads(Next(s, run[0]), run[1..]); }
  }

  /** Everything accepted has been popped, in order, and finished. */
  ghost predicate Served(t: Pool) {
    t.queue == [] && Requests(t.taken) == t.accepted && multiset(t.done) == multiset(t.accepted)
  }

  ghost predicate InternalRun(s: Pool, run: seq<Step>) {
    Runs(s, run) && forall i :: 0 <= i < |run| ==> Internal(run[i])
  }

  lemma {:induction false} CountsNone(f: Step -> bool, run: seq<Step>)
    requires forall i :: 0 <= i < |run| ==> !f(run[i])
    ensures Count(f, run) == 0
  {
    if run != [] { CountsNone(f, run[1..]); }
  }

  lemma InternalIsBounded(s: Pool, run: seq<Step>)
    requires InternalRun(s, run)
    ensures |run| + Work(After(s, run)) <= Work(s)
  {
    CountsNone((a: Step) => a.Begin?, run);
    CountsNone((a: Step) => a.WakeWithoutPermit?, run);
    RunIsBounded(s, run);
  }

  lemma {:induction false} Extend(s: Pool, run: seq<Step>, a: Step)
    requires Runs(s, run) && Enabled(After(s, run), a)
    ensures Runs(s, run + [a]) && After(s, run + [a]) == Next(After(s, run), a)
    decreases |run|
  {
    var more := run + [a];
    if run == [] {
      assert more[1..] == [];
    } else {
      Extend(Next(s, run[0]), run[1..], a);
      assert more[1..] == run[1..] + [a];
    }
  }

  /** From every such state: internal steps alone come to an end after at most Work(s) of them,
      whichever thread moves; as long as a run of them can go on nothing blocks it; and where none
      can go on everything accepted is served. */
  lemma EveryRequestIsServed(s: Pool, run: seq<Step>)
    requires Inv(s) && s.workers != [] && InternalRun(s, run)
    ensures |run| <= Work(s)
    ensures Served(After(s, run)) || exists a :: InternalRun(s, run + [a])
  {
    InternalIsBounded(s, run);
    if a :| Enabled(After(s, run), a) && Internal(a) {
      Extend(s, run, a);
      assert InternalRun(s, run + [a]);
    } else {
      AllServed(s, run);
    }
  }

  /** And so every run of internal steps can be completed to one that has served everything. */
  lemma {:induction false} ServesEverything(s: Pool, run: seq<Step>) returns (more: seq<Step>)
    requires Inv(s) && s.workers != [] && InternalRun(s, run)
    ensures run <= more && InternalRun(s, more) && Served(After(s, more))
    decreases Work(s) - |run|
  {
    EveryRequestIsServed(s, run);
    more := run;
    if !Served(After(s, run)) {
      var a :| InternalRun(s, run + [a]);
      EveryRequestIsServed(s, run + [a]);
      more := ServesEverything(s, run + [a]);
    }
  }

  // ---------- from the start of the pool ----------

  /** Every reachable state of every pool. */
  lemma Reachable(producers: nat, workers: nat, max: nat, run: seq<Step>)
    requires Runs(Start(producers, workers, max), run)
    ensures Inv(After(Start(producers, workers, max), run)) && HolderInv(After(Start(producers, workers, max), run))
    ensures (forall i :: 0 <= i < |run| ==> !run[i].WakeWithoutPermit?) ==>
      Exact(After(Start(producers, workers, max), run)) && forall i :: 0 <= i < |run| ==> !run[i].FindEmpty?
  {
    var s := Start(producers, workers, max);
    StartInv(producers, workers, max);
    RunInv(s, run);
    RunHolder(s, run);
    if forall i :: 0 <= i < |run| ==> !run[i].WakeWithoutPermit? {
      NoLostWakeup(s, run);
    }
  }

  /** Whatever a pool with a worker has been through, its threads alone serve all it has
      accepted, in a bounded number of steps. */
  lemma ReachableIsServed(producers: nat, workers: nat, max: nat, past: seq<Step>) returns (more: seq<Step>)
    requires workers > 0 && Runs(Start(producers, workers, max), past)
    ensures var s := After(Start(producers, workers, max), past);
      InternalRun(s, more) && Served(After(s, more)) && |more| <= Work(s)
  {
    var s := After(Start(producers, workers, max), past);
    Reachable(producers, workers, max, past);
    SameThreads(Start(producers, workers, max), past);
    more := ServesEverything(s, []);
    InternalIsBounded(s, more);
  }

  // ---------- what is turned away ----------

  /** Whoever decides finds the queue one above the limit when it turns a request away, and at the
      limit or below when it takes it. */
  lemma DecidesByLength(s: Pool, p: nat)
    requires Inv(s) && p < |s.producers| && s.producers[p].Checking?
    ensures Enabled(s, Reject(p)) <==> |s.queue| == s.max + 1
    ensures Enabled(s, Push(p)) <==> |s.queue| <= s.max
  {
  }

  lemma {:induction false} HeldAtLeast<T>(h: T -> multiset<Request>, s: seq<T>, i: nat)
    requires i < |s|
    ensures |Held(h, s)| >= |h(s[i])|
  {
    if i > 0 { HeldAtLeast(h, s[1..], i - 1); }
  }

  /** A request is turned away only while more than max + 1 of those offered have not been popped. */
  lemma RejectMeansFull(s: Pool, p: nat)
    requires Inv(s) && Enabled(s, Reject(p))
    ensures |s.offered| > |s.taken| + s.max + 1
  {
    HeldAtLeast(Undecided, s.producers, p);
    var decided := multiset(s.accepted) + multiset(s.rejected);
    assert |decided + Held(Undecided, s.producers)| == |decided| + |Held(Undecided, s.producers)|;
    assert |decided| == |s.accepted| + |s.rejected|;
    assert |multiset(s.offered)| == |s.offered|;
    assert |Requests(s.taken) + s.queue| == |s.accepted|;
  }

  /** At no moment of the run are more than `limit` of the requests offered not yet popped. */
  ghost predicate BacklogWithin(s: Pool, run: seq<Step>, limit: nat)
    requires Runs(s, run)
    decreases |run|
  {
    && |s.offered| <= |s.taken| + limit
    && (run == [] || BacklogWithin(Next(s, run[0]), run[1..], limit))
  }

  lemma StepRejectsNothing(s: Pool, a: Step)
    requires Inv(s) && Enabled(s, a) && |s.offered| <= |s.taken| + s.max + 1
    ensures Inv(Next(s, a)) && Next(s, a).max == s.max && Next(s, a).rejected == s.rejected
  {
    StepInv(s, a);
    if a.Reject? { RejectMeansFull(s, a.p); }
  }

  lemma {:induction false} RejectsNothing(s: Pool, run: seq<Step>, limit: nat)
    requires Inv(s) && Runs(s, run) && limit == s.max + 1 && BacklogWithin(s, run, limit)
    ensures After(s, run).rejected == s.rejected
    decreases |run|
  {
    if run != [] {
      StepRejectsNothing(s, run[0]);
      RejectsNothing(Next(s, run[0]), run[1..], limit);
    }
  }

  /** Over every run of every pool: nothing is turned away while at most max + 1 of the requests
      offered have not been popped. */
  lemma TakesWhatFits(producers: nat, workers: nat, max: nat, run: seq<Step>)
    requires Runs(Start(producers, workers, max), run)
    requires BacklogWithin(Start(producers, workers, max), run, max + 1)
    ensures After(Start(producers, workers, max), run).rejected == []
  {
    StartInv(producers, workers, max);
    RejectsNothing(Start(producers, workers, max), run, max + 1);
  }

  /** A pool in which one producer has queued `k` requests and no worker has moved. */
  ghost predicate QueuedBy(s: Pool, k: nat) {
    && s.producers != [] && s.producers[0].Idle? && s.owner.Free? && |s.queue| == k && s.rejected == []
  }

  lemma Appends(s: Pool, run: seq<Step>, req: Request) returns (more: seq<Step>)
    requires Runs(s, run) && s.producers != []
    requires var t := After(s, run); t.producers != [] && t.producers[0].Idle? && t.owner.Free? && |t.queue| <= t.max
    ensures Runs(s, more)
    ensures var t, u := After(s, run), After(s, more);
      u.producers != [] && u.producers[0].Idle? && u.owner.Free? && u.max == t.max
      && u.queue == t.queue + [req] && u.rejected == t.rejected
  {
    more := run;
    Extend(s, more, Begin(0, req));
    more := more + [Begin(0, req)];
    Extend(s, more, LockToPush(0));
    more := more + [LockToPush(0)];
    Extend(s, more, Push(0));
    more := more + [Push(0)];
    Extend(s, more, UnlockPushed(0));
    more := more + [UnlockPushed(0)];
    Extend(s, more, Post(0));
    more := more + [Post(0)];
  }

  lemma {:induction false} FillsUpTo(producers: nat, workers: nat, max: nat, k: nat) returns (run: seq<Step>)
    requires producers > 0 && k <= max + 1
    ensures Runs(Start(producers, workers, max), run)
    ensures QueuedBy(After(Start(producers, workers, max), run), k)
    ensures After(Start(producers, workers, max), run).max == max
  {
    if k == 0 {
      run := [];
    } else {
      run := FillsUpTo(producers, workers, max, k - 1);
      run := Appends(Start(producers, workers, max), run, Req(k));
    }
  }

  /** The bound is sharp: every pool with a producer has a run that fills the queue up to max + 1
      without turning anything away, and the append after that is turned away. */
  lemma FullQueueRejects(producers: nat, workers: nat, max: nat, req: Request) returns (run: seq<Step>, more: seq<Step>)
    requires producers > 0
    ensures var s := Start(producers, workers, max);
      && Runs(s, run) && |After(s, run).queue| == max + 1 && After(s, run).rejected == []
      && more == run + [Begin(0, req)] + [LockToPush(0)] + [Reject(0)]
      && Runs(s, more) && After(s, more).rejected == [req]
  {
    var s := Start(producers, workers, max);
    run := FillsUpTo(producers, workers, max, max + 1);
    Extend(s, run, Begin(0, req));
    more := run + [Begin(0, req)];
    Extend(s, more, LockToPush(0));
    more := more + [LockToPush(0)];
    Extend(s, more, Reject(0));
    more := more + [Reject(0)];
  }
}
