/**
 The timing wheel updated in place: an array of 60 chain heads and doubly linked
 nodes.  The ghost field `wheel` is the abstract wheel; `Valid` ties it to the links.
 */
module TimeWheelTimer {
  import opened Sequences
  import opened Wheels

  class TwTimer {
    var rotation: int
    const timeSlot: nat
    var next: TwTimer?
    var prev: TwTimer?

    constructor (rotation: int, timeSlot: nat)
      ensures this.rotation == rotation && this.timeSlot == timeSlot && next == null && prev == null
    {
      this.rotation, this.timeSlot := rotation, timeSlot;
      next, prev := null, null;
    }
  }

  type Chain = seq<Spoke<TwTimer>>

  ghost function At(c: Chain, i: int): TwTimer? {
    if 0 <= i < |c| then c[i].timer else null
  }

  ghost function Nodes(c: Chain): set<TwTimer> {
    set i | 0 <= i < |c| :: c[i].timer
  }

  ghost function Timers(c: Chain): (r: seq<TwTimer>)
    ensures |r| == |c|
  {
    seq(|c|, i requires 0 <= i < |c| => c[i].timer)
  }

  ghost predicate InSlot(c: Chain, s: nat) {
    && (forall i, j :: 0 <= i < j < |c| ==> c[i].timer != c[j].timer)
    && (forall i :: 0 <= i < |c| ==> c[i].timer.timeSlot == s)
  }

  /** The nodes of `c` form a null-terminated doubly linked chain in slot `s`. */
  ghost predicate Chained(c: Chain, s: nat)
    reads Nodes(c)
  {
    && InSlot(c, s)
    && (forall i {:trigger c[i].timer.next} :: 0 <= i < |c| ==> c[i].timer.next == At(c, i + 1))
    && (forall i {:trigger c[i].timer.prev} :: 0 <= i < |c| ==> c[i].timer.prev == At(c, i - 1))
    && (forall i {:trigger c[i].timer.rotation} :: 0 <= i < |c| ==> c[i].timer.rotation == c[i].rotation)
  }

  /** `c` with its links opened in front for `t`. */
  ghost predicate OpensFor(c: Chain, s: nat, t: TwTimer)
    reads Nodes(c), t
  {
    && InSlot(c, s) && t !in Nodes(c) && t.timeSlot == s
    && t.next == At(c, 0) && t.prev == null
    && (forall i {:trigger c[i].timer.next} :: 0 <= i < |c| ==> c[i].timer.next == At(c, i + 1))
    && (forall i {:trigger c[i].timer.prev} :: 0 <= i < |c| ==> c[i].timer.prev == if i == 0 then t else At(c, i - 1))
    && (forall i {:trigger c[i].timer.rotation} :: 0 <= i < |c| ==> c[i].timer.rotation == c[i].rotation)
  }

  lemma Pushed(c: Chain, s: nat, t: TwTimer)
    requires OpensFor(c, s, t)
    ensures Chained([Spoke(t, t.rotation)] + c, s)
  {
  }

  /** `c` with the neighbours of the node at `k` linked past it. */
  ghost predicate SkipsOver(c: Chain, s: nat, k: nat)
    reads Nodes(c)
  {
    && InSlot(c, s) && k < |c|
    && (forall i {:trigger c[i].timer.next} :: 0 <= i < |c| && i != k ==>
      c[i].timer.next == At(c, if i + 1 == k then k + 1 else i + 1))
    && (forall i {:trigger c[i].timer.prev} :: 0 <= i < |c| && i != k ==>
      c[i].timer.prev == At(c, if i == k + 1 then k - 1 else i - 1))
    && (forall i {:trigger c[i].timer.rotation} :: 0 <= i < |c| ==> c[i].timer.rotation == c[i].rotation)
  }

  lemma Unlinked(c: Chain, s: nat, k: nat)
    requires SkipsOver(c, s, k)
    ensures Chained(Without(c, k), s)
  {
  }

  lemma Turned(c: Chain, s: nat, k: nat)
    requires InSlot(c, s) && k < |c|
    requires forall i {:trigger c[i].timer.next} :: 0 <= i < |c| ==> c[i].timer.next == At(c, i + 1)
    requires forall i {:trigger c[i].timer.prev} :: 0 <= i < |c| ==> c[i].timer.prev == At(c, i - 1)
    requires forall i {:trigger c[i].timer.rotation} :: 0 <= i < |c| && i != k ==> c[i].timer.rotation == c[i].rotation
    ensures var c' := c[k := Spoke(c[k].timer, c[k].timer.rotation)];
      Chained(c', s) && Nodes(c') <= Nodes(c)
  {
    var c' := c[k := Spoke(c[k].timer, c[k].timer.rotation)];
    assert forall i :: 0 <= i < |c| ==> c'[i].timer == c[i].timer;
  }

  class TimeWheel {
    const slots: array<TwTimer?>
    var curSlot: nat
    ghost var wheel: Wheel<TwTimer>
    ghost var nodes: set<TwTimer>

    ghost predicate Valid()
      reads this, slots, nodes
    {
      && slots.Length == N == |wheel.slots|
      && curSlot == wheel.cur < N
      && (forall s :: 0 <= s < N ==> Nodes(wheel.slots[s]) <= nodes)
      && (forall s :: 0 <= s < N ==> Chained(wheel.slots[s], s))
      && (forall s :: 0 <= s < N ==> slots[s] == At(wheel.slots[s], 0))
    }

    constructor ()
      ensures Valid() && wheel == Empty() && nodes == {} && fresh(slots)
    {
      slots := new TwTimer?[N](i => null);
      curSlot := 0;
      wheel := Empty();
      nodes := {};
    }

    /** A new timer at the head of its chain, or null for a negative timeout. */
    method AddTimer(timeout: int) returns (timer: TwTimer?)
      requires Valid()
      modifies this, slots, nodes
      ensures Valid()
      ensures timer == null <==> timeout < 0
      ensures timer == null ==> wheel == old(wheel) && nodes == old(nodes)
      ensures timer != null ==> fresh(timer) && nodes == old(nodes) + {timer}
      ensures timer != null ==> wheel == Add(old(wheel), timer, timeout)
    {
      if timeout < 0 {
        return null;
      }
      var offset := if timeout / SI == 0 then 1 else timeout / SI;
      var rotation := offset / N;
      var slotPos := (curSlot + offset) % N;
      var t := new TwTimer(rotation, slotPos);
      LinkHead(t, slotPos);
      timer := t;
    }

    method LinkHead(t: TwTimer, slotPos: nat)
      requires Valid() && slotPos < N && t !in nodes && t.timeSlot == slotPos && t.next == null && t.prev == null
      modifies this`wheel, this`nodes, slots, Nodes(wheel.slots[slotPos]), t
      ensures Valid() && nodes == old(nodes) + {t} && wheel == Hung(old(wheel), t, slotPos, old(t.rotation))
    {
      HookHead(t, slotPos);
      Pushed(wheel.slots[slotPos], slotPos, t);
      nodes := nodes + {t};
      wheel := Hung(wheel, t, slotPos, t.rotation);
    }

    /** All chains but `s` are in order, and `s` is once `t` is put in front. */
    ghost predicate Opened(s: nat, t: TwTimer)
      reads this, slots, nodes, t
    {
      && slots.Length == N == |wheel.slots| && curSlot == wheel.cur < N && s < N
      && (forall m :: 0 <= m < N ==> Nodes(wheel.slots[m]) <= nodes)
      && (forall m :: 0 <= m < N && m != s ==> Chained(wheel.slots[m], m) && slots[m] == At(wheel.slots[m], 0))
      && slots[s] == t && OpensFor(wheel.slots[s], s, t)
    }

    method HookHead(t: TwTimer, slotPos: nat)
      requires Valid() && slotPos < N && t !in nodes && t.timeSlot == slotPos && t.next == null && t.prev == null
      modifies slots, Nodes(wheel.slots[slotPos]), t
      ensures Opened(slotPos, t) && t.rotation == old(t.rotation)
    {
      if slots[slotPos] != null {
        t.next := slots[slotPos];
        t.next.prev := t;
      }
      slots[slotPos] := t;
      assert forall k :: 0 <= k < N && k != slotPos ==> Chained(wheel.slots[k], k);
    }

    /** Take a timer off the wheel; null is ignored. */
    method DelTimer(timer: TwTimer?)
      requires Valid()
      requires timer != null ==> timer.timeSlot < N && timer in Nodes(wheel.slots[timer.timeSlot])
      modifies this, slots, nodes
      ensures Valid() && nodes == old(nodes)
      ensures wheel == if timer == null then old(wheel) else Del(old(wheel), timer)
    {
      if timer == null {
        return;
      }
      ghost var c := wheel.slots[timer.timeSlot];
      ghost var k :| 0 <= k < |c| && c[k].timer == timer;
      DelAt(wheel, timer, timer.timeSlot, k);
      Unlink(timer, timer.timeSlot, k);
    }

    lemma DelAt(w: Wheel<TwTimer>, timer: TwTimer, s: nat, k: nat)
      requires |w.slots| == N && s < N && k < |w.slots[s]| && w.slots[s][k].timer == timer
      requires forall m :: 0 <= m < N ==> InSlot(w.slots[m], m)
      ensures Del(w, timer) == w.(slots := w.slots[s := Without(w.slots[s], k)])
    {
      assert InSlot(w.slots[s], s);
      forall m | 0 <= m < N && m != s
        ensures Drop(w.slots[m], timer) == w.slots[m]
      {
        assert InSlot(w.slots[m], m);
      }
    }

    method Unlink(timer: TwTimer, ts: nat, ghost k: nat)
      requires Valid() && ts < N && k < |wheel.slots[ts]| && wheel.slots[ts][k].timer == timer
      modifies this`wheel, slots, Nodes(wheel.slots[ts])
      ensures Valid()
      ensures wheel == old(wheel.(slots := wheel.slots[ts := Without(wheel.slots[ts], k)]))
      ensures timer.next == At(wheel.slots[ts], k)
    {
      if timer == slots[ts] {
        BypassHead(timer, ts);
      } else {
        BypassInner(timer, ts, k);
      }
      Unlinked(wheel.slots[ts], ts, k);
      wheel := wheel.(slots := wheel.slots[ts := Without(wheel.slots[ts], k)]);
    }

    /** All chains but `ts` are in order, and `ts` is once the node at `k` is left out. */
    ghost predicate Bypassed(ts: nat, k: nat)
      reads this, slots, nodes
    {
      && slots.Length == N == |wheel.slots| && curSlot == wheel.cur < N && ts < N && k < |wheel.slots[ts]|
      && (forall s :: 0 <= s < N ==> Nodes(wheel.slots[s]) <= nodes)
      && (forall s :: 0 <= s < N && s != ts ==> Chained(wheel.slots[s], s) && slots[s] == At(wheel.slots[s], 0))
      && SkipsOver(wheel.slots[ts], ts, k)
      && slots[ts] == At(wheel.slots[ts], if k == 0 then 1 else 0)
    }

    method BypassHead(timer: TwTimer, ts: nat)
      requires Valid() && ts < N && wheel.slots[ts] != [] && wheel.slots[ts][0].timer == timer
      modifies slots, Nodes(wheel.slots[ts])
      ensures Bypassed(ts, 0) && timer.next == old(timer.next)
    {
      slots[ts] := timer.next;
      if slots[ts] != null {
        slots[ts].prev := null;
      }
      assert forall m :: 0 <= m < N && m != ts ==> Chained(wheel.slots[m], m);
    }

    method BypassInner(timer: TwTimer, ts: nat, ghost k: nat)
      requires Valid() && ts < N && 0 < k < |wheel.slots[ts]| && wheel.slots[ts][k].timer == timer
      modifies Nodes(wheel.slots[ts])
      ensures Bypassed(ts, k) && timer.next == old(timer.next)
    {
      timer.prev.next := timer.next;
      if timer.next != null {
        timer.next.prev := timer.prev;
      }
      assert forall m :: 0 <= m < N && m != ts ==> Chained(wheel.slots[m], m);
    }

    /** One interval has passed: walk the current chain, fire what has no rotation left, move on.
        `fired` records the callbacks in order, `walked` the nodes the loop has looked at. */
    method Tick() returns (fired: seq<TwTimer>, ghost walked: seq<TwTimer>)
      requires Valid()
      modifies this, slots, nodes
      ensures Valid() && nodes == old(nodes)
      ensures wheel == Wheels.Tick(old(wheel))
      ensures fired == Expired(old(wheel.slots[wheel.cur]))
      ensures walked == Timers(old(wheel.slots[wheel.cur]))
    {
      fired, walked := Walk();
      curSlot := (curSlot + 1) % N;
      wheel := wheel.(cur := curSlot);
    }

    method Walk() returns (fired: seq<TwTimer>, ghost walked: seq<TwTimer>)
      requires Valid()
      modifies this`wheel, slots, nodes
      ensures Valid()
      ensures wheel == old(wheel.(slots := wheel.slots[wheel.cur := Kept(wheel.slots[wheel.cur])]))
      ensures fired == Expired(old(wheel.slots[wheel.cur]))
      ensures walked == Timers(old(wheel.slots[wheel.cur]))
    {
      fired, walked := [], [];
      ghost var w := wheel;
      ghost var done, rest: Chain := [], w.slots[w.cur];
      var tmp := slots[curSlot];
      assert done + rest == rest;
      while tmp != null
        invariant Valid() && wheel == w.(slots := w.slots[curSlot := done + rest])
        invariant tmp == At(done + rest, |done|)
        invariant WalkedTo(w.slots[curSlot], done, rest, fired, walked)
        decreases |rest|
      {
        WalkOn(w.slots[curSlot], done, rest, fired, walked);
        assert wheel.slots[curSlot][|done|].timer == tmp;
        assert Nodes(wheel.slots[curSlot]) <= nodes;
        walked := walked + [tmp];
        if tmp.rotation <= 0 {
          fired := fired + [tmp];
        }
        tmp, done := Pass(tmp, done, rest);
        rest := rest[1..];
      }
      assert rest == [] && done + rest == done;
    }

    ghost predicate WalkedTo(c: Chain, done: Chain, rest: Chain, fired: seq<TwTimer>, walked: seq<TwTimer>) {
      done + Kept(rest) == Kept(c) && fired + Expired(rest) == Expired(c) && walked + Timers(rest) == Timers(c)
    }

    lemma WalkOn(c: Chain, done: Chain, rest: Chain, fired: seq<TwTimer>, walked: seq<TwTimer>)
      requires WalkedTo(c, done, rest, fired, walked) && rest != []
      ensures (done + rest)[|done|] == rest[0]
      ensures var fired' := if rest[0].rotation > 0 then fired else fired + [rest[0].timer];
        fired' + Expired(rest[1..]) == Expired(c)
      ensures (walked + [rest[0].timer]) + Timers(rest[1..]) == Timers(c)
    {
      assert Timers(rest) == [rest[0].timer] + Timers(rest[1..]);
    }

    /** One iteration of the walk: turn the node, or unlink it; then step to its successor. */
    method Pass(tmp: TwTimer, ghost done: Chain, ghost rest: Chain) returns (next: TwTimer?, ghost done': Chain)
      requires Valid() && wheel.slots[curSlot] == done + rest && rest != [] && rest[0].timer == tmp
      modifies this`wheel, slots, Nodes(wheel.slots[curSlot])
      ensures Valid()
      ensures done' + Kept(rest[1..]) == done + Kept(rest)
      ensures wheel == old(wheel.(slots := wheel.slots[curSlot := done' + rest[1..]]))
      ensures next == At(done' + rest[1..], |done'|)
    {
      Peel(done, rest);
      if tmp.rotation > 0 {
        Turn(tmp, |done|);
        done' := done + [Spoke(tmp, tmp.rotation)];
        next := tmp.next;
      } else {
        done' := done;
        if tmp == slots[curSlot] {
          Unlink(tmp, curSlot, |done|);
          next := slots[curSlot];
        } else {
          Unlink(tmp, curSlot, |done|);
          next := tmp.next;
        }
      }
    }

    /** What one iteration does to the chain: the first of `rest` is turned or dropped. */
    lemma Peel(done: Chain, rest: Chain)
      requires rest != []
      ensures (done + rest)[|done|] == rest[0]
      ensures Timers(rest) == [rest[0].timer] + Timers(rest[1..])
      ensures forall x :: (done + rest)[|done| := x] == (done + [x]) + rest[1..]
      ensures forall x :: (done + [x]) + Kept(rest[1..]) == done + ([x] + Kept(rest[1..]))
      ensures Without(done + rest, |done|) == done + rest[1..]
    {
    }

    method Turn(tmp: TwTimer, ghost k: nat)
      requires Valid() && k < |wheel.slots[curSlot]| && wheel.slots[curSlot][k].timer == tmp
      modifies this`wheel, tmp`rotation
      ensures Valid() && tmp.rotation == old(tmp.rotation) - 1 && tmp.next == At(wheel.slots[curSlot], k + 1)
      ensures wheel == old(wheel.(slots :=
        wheel.slots[curSlot := wheel.slots[curSlot][k := Spoke(tmp, tmp.rotation - 1)]]))
    {
      ghost var c := wheel.slots[curSlot];
      tmp.rotation := tmp.rotation - 1;
      Turned(c, curSlot, k);
      assert forall m :: 0 <= m < N && m != curSlot ==> Chained(wheel.slots[m], m);
      wheel := wheel.(slots := wheel.slots[curSlot := c[k := Spoke(tmp, tmp.rotation)]]);
    }
  }
}
