/**
 The hashed timing wheel as a value: 60 chains of (timer, rotations left), newest first,
 and what each operation of `time_wheel_timer` does to them.
 */
module Wheels {
  import opened Sequences
  import opened TimerService

  const N: nat := 60
  const SI: nat := 1

  datatype Spoke<T> = Spoke(timer: T, rotation: int)

  datatype Wheel<T> = Wheel(cur: nat, slots: seq<seq<Spoke<T>>>)

  datatype WheelOp<T> =
    | AddFor(timer: T, timeout: int)
    | Cancel(timer: T)
    | Advance

  function Empty<T>(): Wheel<T> {
    Wheel(0, seq(N, s => []))
  }

  /** `d` ticks are what `timeout` asks for: as many whole intervals as fit into it, and one at least. */
  predicate IsDelay(timeout: nat, d: nat) {
    if timeout < SI then d == 1 else d * SI <= timeout < (d + 1) * SI
  }

  function Offset(timeout: nat): (o: nat)
    ensures o > 0 && IsDelay(timeout, o)
  {
    if timeout / SI == 0 then 1 else timeout / SI
  }

  /** `t` becomes the head of chain `s`. */
  function Hung<T>(w: Wheel<T>, t: T, s: nat, rotation: int): Wheel<T>
    requires s < |w.slots|
  {
    w.(slots := w.slots[s := [Spoke(t, rotation)] + w.slots[s]])
  }

  function Add<T>(w: Wheel<T>, t: T, timeout: int): Wheel<T>
    requires |w.slots| == N
  {
    if timeout < 0 then w
    else Hung(w, t, (w.cur + Offset(timeout)) % N, Offset(timeout) / N)
  }

  /** `r` is `w` with `t` at the head of the slot that its delay leads to, with the turns it has to wait. */
  ghost predicate HungFor<T>(w: Wheel<T>, r: Wheel<T>, t: T, timeout: nat)
    requires |w.slots| == N
  {
    exists d: nat :: IsDelay(timeout, d) && r == Hung(w, t, (w.cur + d) % 60, d / 60)
  }

  lemma AddHangsFor<T>(w: Wheel<T>, t: T, timeout: nat)
    requires |w.slots| == N
    ensures HungFor(w, Add(w, t, timeout), t, timeout)
    ensures forall r :: HungFor(w, r, t, timeout) ==> r == Add(w, t, timeout)
  {
    assert IsDelay(timeout, Offset(timeout));
    forall r | HungFor(w, r, t, timeout)
      ensures r == Add(w, t, timeout)
    {
      var d: nat :| IsDelay(timeout, d) && r == Hung(w, t, (w.cur + d) % 60, d / 60);
      DelayIsOffset(timeout, d);
    }
  }

  function IndexIn<T(==)>(c: seq<Spoke<T>>, t: T): (i: nat)
    ensures i <= |c|
    ensures forall m :: 0 <= m < i ==> c[m].timer != t
    ensures i < |c| ==> c[i].timer == t
  {
    if c == [] || c[0].timer == t then 0 else 1 + IndexIn(c[1..], t)
  }

  function Drop<T(==)>(c: seq<Spoke<T>>, t: T): seq<Spoke<T>> {
    if IndexIn(c, t) < |c| then Without(c, IndexIn(c, t)) else c
  }

  function Del<T(==)>(w: Wheel<T>, t: T): (r: Wheel<T>)
    requires |w.slots| == N
    ensures |r.slots| == N
  {
    w.(slots := seq(N, s requires 0 <= s < N => Drop(w.slots[s], t)))
  }

  /** What a pass over the current chain leaves behind, each spoke one rotation closer. */
  function Kept<T>(c: seq<Spoke<T>>): seq<Spoke<T>> {
    if c == [] then []
    else if c[0].rotation > 0 then [Spoke(c[0].timer, c[0].rotation - 1)] + Kept(c[1..])
    else Kept(c[1..])
  }

  /** The timers that the pass fires, in the order it meets them. */
  function Expired<T>(c: seq<Spoke<T>>): seq<T> {
    if c == [] then []
    else if c[0].rotation > 0 then Expired(c[1..])
    else [c[0].timer] + Expired(c[1..])
  }

  function Tick<T>(w: Wheel<T>): Wheel<T>
    requires |w.slots| == N && w.cur < N
  {
    Wheel((w.cur + 1) % N, w.slots[w.cur := Kept(w.slots[w.cur])])
  }

  function Step<T(==)>(w: Wheel<T>, op: WheelOp<T>): (r: Wheel<T>)
    requires |w.slots| == N && w.cur < N
    ensures |r.slots| == N && r.cur < N
  {
    match op
    case AddFor(t, timeout) => Add(w, t, timeout)
    case Cancel(t) => Del(w, t)
    case Advance => Tick(w)
  }

  function Fired<T>(w: Wheel<T>, op: WheelOp<T>): seq<T>
    requires |w.slots| == N && w.cur < N
  {
    if op.Advance? then Expired(w.slots[w.cur]) else []
  }

  function Run<T(==)>(w: Wheel<T>, ops: seq<WheelOp<T>>): (r: Wheel<T>)
    requires |w.slots| == N && w.cur < N
    ensures |r.slots| == N && r.cur < N
    decreases |ops|
  {
    if ops == [] then w else Run(Step(w, ops[0]), ops[1..])
  }

  function RunFired<T(==)>(w: Wheel<T>, ops: seq<WheelOp<T>>): (r: seq<seq<T>>)
    requires |w.slots| == N && w.cur < N
    ensures |r| == |ops|
    decreases |ops|
  {
    if ops == [] then [] else [Fired(w, ops[0])] + RunFired(Step(w, ops[0]), ops[1..])
  }

  // ---------- the wheel as a timer service whose clock counts completed ticks ----------

  function AsOp<T>(op: WheelOp<T>, now: nat): Op<T> {
    match op
    case AddFor(t, timeout) => if timeout < 0 then Op.Skip else Op.Add(t, now + Offset(timeout))
    case Cancel(t) => Op.Del(t)
    case Advance => Op.Tick(now)
  }

  /** The service operations that a run of the wheel at time `now` asks for, with expiries by IsDelay. */
  predicate Asks<T(==)>(ops: seq<WheelOp<T>>, reqs: seq<Op<T>>, now: nat)
    decreases |ops|
  {
    && |ops| == |reqs|
    && (ops == [] || (AsksOne(ops[0], reqs[0], now) && Asks(ops[1..], reqs[1..], Clock(ops[0], now))))
  }

  predicate AsksOne<T(==)>(op: WheelOp<T>, req: Op<T>, now: nat) {
    match op
    case AddFor(t, timeout) =>
      if timeout < 0 then req.Skip?
      else req.Add? && req.timer == t && req.expire >= now && IsDelay(timeout, req.expire - now)
    case Cancel(t) => req == Op.Del(t)
    case Advance => req == Op.Tick(now)
  }

  function Clock<T>(op: WheelOp<T>, now: nat): nat {
    if op.Advance? then now + 1 else now
  }

  function ClockAfter<T>(ops: seq<WheelOp<T>>, now: nat): nat
    decreases |ops|
  {
    if ops == [] then now else ClockAfter(ops[1..], Clock(ops[0], now))
  }

  function AsOps<T>(ops: seq<WheelOp<T>>, now: nat): (r: seq<Op<T>>)
    ensures |r| == |ops|
    decreases |ops|
  {
    if ops == [] then [] else [AsOp(ops[0], now)] + AsOps(ops[1..], Clock(ops[0], now))
  }

  /** Chain `s` at time `now`: each timer hangs in the slot of its expiry with the whole
      turns it still has to wait, newest scheduling first. */
  ghost predicate ChainFits<T>(c: seq<Spoke<T>>, s: nat, due: map<T, Due>, now: nat) {
    && (forall i :: 0 <= i < |c| ==> c[i].timer in due)
    && (forall i :: 0 <= i < |c| ==>
          var e := due[c[i].timer].expire; e >= now && e % N == s && c[i].rotation == (e - now) / N)
    && (forall i, j :: 0 <= i < j < |c| ==> due[c[i].timer].stamp > due[c[j].timer].stamp)
  }

  ghost predicate Hangs<T>(c: seq<Spoke<T>>, t: T) {
    exists i :: 0 <= i < |c| && c[i].timer == t
  }

  ghost predicate AllFit<T>(slots: seq<seq<Spoke<T>>>, due: map<T, Due>, now: nat) {
    forall s :: 0 <= s < |slots| ==> ChainFits(slots[s], s, due, now)
  }

  ghost predicate Represents<T>(w: Wheel<T>, svc: Service<T>, now: nat) {
    && svc.Valid()
    && |w.slots| == N && w.cur == now % N
    && AllFit(w.slots, svc.due, now)
    && (forall t :: t in svc.due ==> Hangs(w.slots[svc.due[t].expire % N], t))
  }

  /** The wheel fires exactly the timers due, newest scheduling first. */
  ghost predicate FiresNewestFirst<T>(svc: Service<T>, op: Op<T>, q: seq<T>) {
    && (forall i :: 0 <= i < |q| ==> q[i] in svc.Fired(op) && svc.due[q[i]].expire == op.now)
    && (forall t :: t in svc.Fired(op) ==> t in q)
    && (forall i, j :: 0 <= i < j < |q| ==> svc.due[q[i]].stamp > svc.due[q[j]].stamp)
  }

  ghost predicate RunFiresNewestFirst<T>(svc: Service<T>, ops: seq<Op<T>>, outs: seq<seq<T>>)
    decreases |ops|
  {
    && |outs| == |ops|
    && (ops == [] || (FiresNewestFirst(svc, ops[0], outs[0]) &&
      RunFiresNewestFirst(svc.Step(ops[0]), ops[1..], outs[1..])))
  }

  // ---------- one step ----------

  lemma SlotOf(now: nat, o: nat)
    ensures (now % N + o) % N == (now + o) % N
  {
  }

  /** One tick brings an expiry in the current slot a whole turn closer, and no other. */
  lemma TurnCloser(e: int, now: nat)
    requires e >= now
    ensures e % N == now % N ==> (e > now <==> (e - now) / N > 0)
    ensures e % N == now % N && e > now ==> (e - (now + 1)) / N == (e - now) / N - 1
    ensures e % N != now % N ==> e > now && (e - (now + 1)) / N == (e - now) / N
  {
  }

  lemma AddFits<T>(c: seq<Spoke<T>>, s: nat, svc: Service<T>, now: nat, t: T, e: int)
    requires svc.Valid() && ChainFits(c, s, svc.due, now) && t !in svc.due && e >= now
    ensures ChainFits(c, s, svc.Step(Op.Add(t, e)).due, now)
    ensures e % N == s ==> ChainFits([Spoke(t, (e - now) / N)] + c, s, svc.Step(Op.Add(t, e)).due, now)
  {
  }

  lemma AddRepresents<T>(w: Wheel<T>, svc: Service<T>, now: nat, t: T, timeout: nat)
    requires Represents(w, svc, now) && t !in svc.due
    ensures Represents(Step(w, AddFor(t, timeout)), svc.Step(AsOp(AddFor(t, timeout), now)),
      Clock(AddFor(t, timeout), now))
  {
    var e := now + Offset(timeout);
    AddIsHung(w, now, t, timeout);
    HungRepresents(w, svc, now, t, e);
    assert AsOp(AddFor(t, timeout), now) == Op.Add(t, e) && Clock(AddFor(t, timeout), now) == now;
  }

  lemma AddIsHung<T>(w: Wheel<T>, now: nat, t: T, timeout: nat)
    requires |w.slots| == N && w.cur == now % N
    ensures var e := now + Offset(timeout);
      Step(w, AddFor(t, timeout)) == Hung(w, t, e % N, (e - now) / N)
  {
    SlotOf(now, Offset(timeout));
  }

  lemma HungRepresents<T>(w: Wheel<T>, svc: Service<T>, now: nat, t: T, e: int)
    requires Represents(w, svc, now) && t !in svc.due && e >= now
    ensures Represents(Hung(w, t, e % N, (e - now) / N), svc.Step(Op.Add(t, e)), now)
  {
    StepValid(svc, Op.Add(t, e));
    AddFitsAll(w, svc, now, t, e);
    AddHangsAll(w, svc, now, t, e);
  }

  lemma AddFitsAll<T>(w: Wheel<T>, svc: Service<T>, now: nat, t: T, e: int)
    requires Represents(w, svc, now) && t !in svc.due && e >= now
    ensures AllFit(Hung(w, t, e % N, (e - now) / N).slots, svc.Step(Op.Add(t, e)).due, now)
  {
    var r := Hung(w, t, e % N, (e - now) / N);
    forall s | 0 <= s < N
      ensures ChainFits(r.slots[s], s, svc.Step(Op.Add(t, e)).due, now)
    {
      AddFits(w.slots[s], s, svc, now, t, e);
    }
  }

  lemma AddHangsAll<T>(w: Wheel<T>, svc: Service<T>, now: nat, t: T, e: int)
    requires Represents(w, svc, now) && t !in svc.due && e >= now
    ensures var due := svc.Step(Op.Add(t, e)).due;
      forall u :: u in due ==> Hangs(Hung(w, t, e % N, (e - now) / N).slots[due[u].expire % N], u)
  {
    var r := Hung(w, t, e % N, (e - now) / N);
    assert r.slots[e % N][0].timer == t;
    forall u | u in svc.due
      ensures Hangs(r.slots[svc.due[u].expire % N], u)
    {
      HangsBehind(w.slots[svc.due[u].expire % N], Spoke(t, (e - now) / N), u);
    }
  }

  lemma HangsBehind<T>(c: seq<Spoke<T>>, x: Spoke<T>, u: T)
    requires Hangs(c, u)
    ensures Hangs([x] + c, u)
  {
    var i :| 0 <= i < |c| && c[i].timer == u;
    assert ([x] + c)[i + 1].timer == u;
  }

  lemma DropFits<T>(c: seq<Spoke<T>>, s: nat, due: map<T, Due>, now: nat, t: T)
    requires ChainFits(c, s, due, now)
    ensures ChainFits(Drop(c, t), s, due - {t}, now)
  {
    if IndexIn(c, t) < |c| { WithoutFits(c, s, due, now, IndexIn(c, t)); }
  }

  lemma WithoutFits<T>(c: seq<Spoke<T>>, s: nat, due: map<T, Due>, now: nat, k: nat)
    requires ChainFits(c, s, due, now) && k < |c|
    ensures ChainFits(Without(c, k), s, due - {c[k].timer}, now)
  {
    var r := Without(c, k);
    forall i | 0 <= i < |r|
      ensures r[i].timer in due && r[i].timer != c[k].timer
    {
      var m := if i < k then i else i + 1;
      assert r[i] == c[m];
    }
  }

  lemma DropHangs<T>(c: seq<Spoke<T>>, t: T, u: T)
    requires Hangs(c, u) && u != t
    ensures Hangs(Drop(c, t), u)
  {
    var i :| 0 <= i < |c| && c[i].timer == u;
    var k := IndexIn(c, t);
    if k < |c| {
      var m := if i < k then i else i - 1;
      assert Without(c, k)[m] == c[i];
    }
  }

  lemma DelRepresents<T>(w: Wheel<T>, svc: Service<T>, now: nat, t: T)
    requires Represents(w, svc, now)
    ensures Represents(Step(w, Cancel(t)), svc.Step(AsOp(Cancel(t), now)), Clock(Cancel(t), now))
  {
    forall s | 0 <= s < N
      ensures ChainFits(Del(w, t).slots[s], s, svc.due - {t}, now)
    {
      DropFits(w.slots[s], s, svc.due, now, t);
    }
    forall u | u in svc.due && u != t
      ensures Hangs(Del(w, t).slots[svc.due[u].expire % N], u)
    {
      DropHangs(w.slots[svc.due[u].expire % N], t, u);
    }
    StepValid(svc, Op.Del(t));
  }

  lemma {:induction false} KeptFits<T>(c: seq<Spoke<T>>, due: map<T, Due>, now: nat, top: nat)
    requires ChainFits(c, now % N, due, now)
    requires forall i :: 0 <= i < |c| ==> due[c[i].timer].stamp < top
    ensures ChainFits(Kept(c), now % N, due, now + 1)
    ensures forall i :: 0 <= i < |Kept(c)| ==> due[Kept(c)[i].timer].stamp < top
  {
    if c != [] {
      var e := due[c[0].timer].expire;
      TurnCloser(e, now);
      KeptFits(c[1..], due, now, due[c[0].timer].stamp);
    }
  }

  lemma {:induction false} KeptHangs<T>(c: seq<Spoke<T>>, i: nat)
    requires i < |c| && c[i].rotation > 0
    ensures Hangs(Kept(c), c[i].timer)
  {
    if i == 0 {
      assert Kept(c)[0].timer == c[0].timer;
    } else {
      KeptHangs(c[1..], i - 1);
      if c[0].rotation > 0 { HangsBehind(Kept(c[1..]), Kept(c)[0], c[i].timer); }
    }
  }

  lemma {:induction false} ExpiredFires<T>(c: seq<Spoke<T>>, due: map<T, Due>, now: nat, top: nat)
    requires ChainFits(c, now % N, due, now)
    requires forall i :: 0 <= i < |c| ==> due[c[i].timer].stamp < top
    ensures forall i :: 0 <= i < |Expired(c)| ==>
      Expired(c)[i] in due && due[Expired(c)[i]].expire == now && due[Expired(c)[i]].stamp < top
    ensures forall i, j :: 0 <= i < j < |Expired(c)| ==> due[Expired(c)[i]].stamp > due[Expired(c)[j]].stamp
  {
    if c != [] {
      TurnCloser(due[c[0].timer].expire, now);
      ExpiredFires(c[1..], due, now, due[c[0].timer].stamp);
    }
  }

  lemma {:induction false} ExpiredHas<T>(c: seq<Spoke<T>>, i: nat)
    requires i < |c| && c[i].rotation <= 0
    ensures c[i].timer in Expired(c)
  {
    if i > 0 { ExpiredHas(c[1..], i - 1); }
  }

  lemma TickFires<T>(w: Wheel<T>, svc: Service<T>, now: nat)
    requires Represents(w, svc, now)
    ensures FiresNewestFirst(svc, Op.Tick(now), Expired(w.slots[w.cur]))
  {
    var c := w.slots[w.cur];
    ExpiredFires(c, svc.due, now, svc.next);
    forall t | t in svc.Fired(Op.Tick(now))
      ensures t in Expired(c)
    {
      NothingOverdue(w, svc, now, t);
      var i :| 0 <= i < |c| && c[i].timer == t;
      ExpiredHas(c, i);
    }
  }

  lemma NothingOverdue<T>(w: Wheel<T>, svc: Service<T>, now: nat, t: T)
    requires Represents(w, svc, now) && t in svc.due
    ensures svc.due[t].expire >= now
  {
    var s := svc.due[t].expire % N;
    assert ChainFits(w.slots[s], s, svc.due, now);
  }

  lemma TickRepresents<T>(w: Wheel<T>, svc: Service<T>, now: nat)
    requires Represents(w, svc, now)
    ensures Represents(Step(w, WheelOp<T>.Advance), svc.Step(AsOp(WheelOp<T>.Advance, now)),
      Clock(WheelOp<T>.Advance, now))
  {
    var due' := svc.Step(Op.Tick(now)).due;
    forall s | 0 <= s < N
      ensures ChainFits(Tick(w).slots[s], s, due', now + 1)
    {
      if s == w.cur {
        KeptFits(w.slots[s], svc.due, now, svc.next);
        StillDue(Kept(w.slots[s]), s, svc, now);
      } else {
        LaterFits(w.slots[s], s, svc.due, now);
        StillDue(w.slots[s], s, svc, now);
      }
    }
    forall t | t in due'
      ensures Hangs(Tick(w).slots[due'[t].expire % N], t)
    {
      TurnCloser(svc.due[t].expire, now);
      var s := svc.due[t].expire % N;
      if s == w.cur {
        var i :| 0 <= i < |w.slots[s]| && w.slots[s][i].timer == t;
        KeptHangs(w.slots[s], i);
      }
    }
    StepValid(svc, Op.Tick(now));
  }

  lemma LaterFits<T>(c: seq<Spoke<T>>, s: nat, due: map<T, Due>, now: nat)
    requires ChainFits(c, s, due, now) && s != now % N
    ensures ChainFits(c, s, due, now + 1)
  {
    forall i | 0 <= i < |c|
      ensures due[c[i].timer].expire >= now + 1 && c[i].rotation == (due[c[i].timer].expire - (now + 1)) / N
    {
      TurnCloser(due[c[i].timer].expire, now);
    }
  }

  lemma StillDue<T>(c: seq<Spoke<T>>, s: nat, svc: Service<T>, now: nat)
    requires ChainFits(c, s, svc.due, now + 1)
    ensures ChainFits(c, s, svc.Step(Op.Tick(now)).due, now + 1)
  {
  }

  lemma StepRepresents<T>(w: Wheel<T>, svc: Service<T>, now: nat, op: WheelOp<T>)
    requires Represents(w, svc, now) && svc.Legal(AsOp(op, now))
    ensures Represents(Step(w, op), svc.Step(AsOp(op, now)), Clock(op, now))
  {
    match op
    case AddFor(t, timeout) => if timeout >= 0 { AddRepresents(w, svc, now, t, timeout); }
    case Cancel(t) => DelRepresents(w, svc, now, t);
    case Advance => TickRepresents(w, svc, now);
  }

  lemma StepFires<T>(w: Wheel<T>, svc: Service<T>, now: nat, op: WheelOp<T>)
    requires Represents(w, svc, now)
    ensures FiresNewestFirst(svc, AsOp(op, now), Fired(w, op))
  {
    if op.Advance? { TickFires(w, svc, now); }
  }

  // ---------- whole runs ----------

  lemma {:induction false} RunRepresents<T>(w: Wheel<T>, svc: Service<T>, now: nat, ops: seq<WheelOp<T>>)
    requires Represents(w, svc, now) && LegalRun(svc, AsOps(ops, now))
    ensures RunFiresNewestFirst(svc, AsOps(ops, now), RunFired(w, ops))
    ensures Represents(Run(w, ops), After(svc, AsOps(ops, now)), ClockAfter(ops, now))
    decreases |ops|
  {
    if ops != [] {
      StepRepresents(w, svc, now, ops[0]);
      StepFires(w, svc, now, ops[0]);
      var rest := AsOps(ops[1..], Clock(ops[0], now));
      assert AsOps(ops, now)[1..] == rest;
      RunRepresents(Step(w, ops[0]), svc.Step(AsOp(ops[0], now)), Clock(ops[0], now), ops[1..]);
      assert RunFired(w, ops)[1..] == RunFired(Step(w, ops[0]), ops[1..]);
    }
  }

  lemma DelayIsOffset(timeout: nat, d: nat)
    requires IsDelay(timeout, d)
    ensures d == Offset(timeout)
  {
  }

  lemma {:induction false} AsksIsAsOps<T>(ops: seq<WheelOp<T>>, reqs: seq<Op<T>>, now: nat)
    requires Asks(ops, reqs, now)
    ensures reqs == AsOps(ops, now)
    decreases |ops|
  {
    if ops != [] {
      if ops[0].AddFor? && ops[0].timeout >= 0 { DelayIsOffset(ops[0].timeout, reqs[0].expire - now); }
      AsksIsAsOps(ops[1..], reqs[1..], Clock(ops[0], now));
      assert reqs == [reqs[0]] + reqs[1..];
    }
  }

  /** Over every legal run, the wheel fires at each tick exactly the timers that have waited for as
      many ticks as whole intervals fit into their timeout, or for one, newest first, and keeps
      the rest. */
  lemma WheelRefinesService<T>(w: Wheel<T>, svc: Service<T>, now: nat, ops: seq<WheelOp<T>>, reqs: seq<Op<T>>)
    requires Represents(w, svc, now) && Asks(ops, reqs, now) && LegalRun(svc, reqs)
    ensures RunFiresNewestFirst(svc, reqs, RunFired(w, ops))
    ensures Represents(Run(w, ops), After(svc, reqs), ClockAfter(ops, now))
  {
    AsksIsAsOps(ops, reqs, now);
    RunRepresents(w, svc, now, ops);
  }

  /** The countdown that slot and rotation encode is the number of ticks still to wait. */
  lemma Countdown<T>(w: Wheel<T>, svc: Service<T>, now: nat, s: nat, i: nat)
    requires Represents(w, svc, now) && s < N && i < |w.slots[s]|
    ensures w.slots[s][i].timer in svc.due
    ensures (s - w.cur) % N + N * w.slots[s][i].rotation == svc.due[w.slots[s][i].timer].expire - now
  {
    assert ChainFits(w.slots[s], s, svc.due, now);
    SlotDistance(svc.due[w.slots[s][i].timer].expire, now);
  }

  lemma SlotDistance(e: int, now: nat)
    requires e >= now
    ensures (e % N - now % N) % N + N * ((e - now) / N) == e - now
  {
  }
}
