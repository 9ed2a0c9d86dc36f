/**
 Lazy deletion: `del_timer` only clears the callback, and the entry stays in the heap until
 it expires.  Over whole runs this is indistinguishable from deleting at once.
 */
module LazyTimers {
  import opened Sequences
  import opened TimerService
  import SortedTimers

  /** The entries still in the heap, and which of them have lost their callback. */
  datatype LazyHeap<T> = LazyHeap(stored: map<T, int>, cleared: set<T>)

  /** The operations of the heap: it has no move. */
  predicate Supports<T>(op: Op<T>) {
    !op.Move?
  }

  function Step<T(==)>(h: LazyHeap<T>, op: Op<T>): LazyHeap<T> {
    match op
    case Add(t, e) => h.(stored := h.stored[t := e])
    case Del(t) => h.(cleared := h.cleared + {t})
    case Tick(now) =>
      var gone := set t | t in h.stored && h.stored[t] <= now;
      LazyHeap(h.stored - gone, h.cleared - gone)
    case Move(_, _) => h
    case Skip => h
  }

  /** The callbacks a tick may run: one for each expired entry that still has one, in
      non-decreasing expiry order.  Ties are left to the layout of the heap. */
  ghost predicate Fires<T>(h: LazyHeap<T>, op: Op<T>, q: seq<T>) {
    && (forall i :: 0 <= i < |q| ==> op.Tick? && q[i] in h.stored && h.stored[q[i]] <= op.now && q[i] !in h.cleared)
    && (op.Tick? ==> forall t :: t in h.stored && h.stored[t] <= op.now && t !in h.cleared ==> t in q)
    && (forall i, j :: 0 <= i < j < |q| ==> h.stored[q[i]] <= h.stored[q[j]])
    && Distinct(q)
  }

  ghost predicate RunFires<T>(h: LazyHeap<T>, ops: seq<Op<T>>, outs: seq<seq<T>>)
    decreases |ops|
  {
    && |outs| == |ops|
    && (ops == [] || (Fires(h, ops[0], outs[0]) && RunFires(Step(h, ops[0]), ops[1..], outs[1..])))
  }

  /** A handle is not reused while its entry is still stored. */
  ghost predicate LegalHeapRun<T>(h: LazyHeap<T>, svc: Service<T>, ops: seq<Op<T>>)
    decreases |ops|
  {
    ops == [] ||
    (&& Supports(ops[0]) && svc.Legal(ops[0])
     && (ops[0].Add? ==> ops[0].timer !in h.stored)
     && LegalHeapRun(Step(h, ops[0]), svc.Step(ops[0]), ops[1..]))
  }

  /** The service holds exactly the stored entries whose callback is still there. */
  ghost predicate Represents<T>(h: LazyHeap<T>, svc: Service<T>) {
    && (forall t :: t in svc.due ==> t in h.stored && t !in h.cleared && svc.due[t].expire == h.stored[t])
    && (forall t :: t in h.stored && t !in h.cleared ==> t in svc.due)
    && h.cleared <= h.stored.Keys
  }

  lemma StepRepresents<T>(h: LazyHeap<T>, svc: Service<T>, op: Op<T>)
    requires Represents(h, svc) && Supports(op) && svc.Legal(op)
    requires op.Add? ==> op.timer !in h.stored
    ensures Represents(Step(h, op), svc.Step(op))
  {
  }

  /** What eager deletion promises of a firing sequence, ties aside. */
  ghost predicate FiresByExpiry<T>(svc: Service<T>, op: Op<T>, q: seq<T>) {
    && (forall i :: 0 <= i < |q| ==> q[i] in svc.Fired(op))
    && (forall t :: t in svc.Fired(op) ==> t in q)
    && (forall i, j :: 0 <= i < j < |q| ==> svc.due[q[i]].expire <= svc.due[q[j]].expire)
    && Distinct(q)
  }

  lemma StepFires<T>(h: LazyHeap<T>, svc: Service<T>, op: Op<T>, q: seq<T>)
    requires Represents(h, svc) && Fires(h, op, q)
    ensures FiresByExpiry(svc, op, q)
  {
  }

  /** In every run and however ties fall, each tick of the lazy heap runs exactly the callbacks
      that fall due when cancelled timers are deleted at once, each once and in
      non-decreasing expiry order. */
  lemma {:induction false} LazyRefinesEager<T>(h: LazyHeap<T>, svc: Service<T>, ops: seq<Op<T>>, outs: seq<seq<T>>,
      i: nat)
    requires Represents(h, svc) && LegalHeapRun(h, svc, ops) && RunFires(h, ops, outs) && i < |ops|
    ensures FiresByExpiry(After(svc, ops[..i]), ops[i], outs[i])
    decreases i
  {
    if i == 0 {
      StepFires(h, svc, ops[0], outs[0]);
    } else {
      StepRepresents(h, svc, ops[0]);
      LazyRefinesEager(Step(h, ops[0]), svc.Step(ops[0]), ops[1..], outs[1..], i - 1);
      assert ops[..i][0] == ops[0] && ops[..i][1..] == ops[1..][..i - 1];
    }
  }

  /** No callback of a deleted timer ever runs: after its deletion, and until the handle is
      added anew, `t` appears in no output. */
  lemma {:induction false} DeletedStaysSilent<T>(h: LazyHeap<T>, ops: seq<Op<T>>, outs: seq<seq<T>>, t: T, i: nat)
    requires RunFires(h, ops, outs) && i < |ops|
    requires t in h.cleared || t !in h.stored
    requires forall k :: 0 <= k < |ops| ==> ops[k].Add? ==> ops[k].timer != t
    ensures t !in outs[i]
    decreases i
  {
    if i > 0 {
      DeletedStaysSilent(Step(h, ops[0]), ops[1..], outs[1..], t, i - 1);
    }
  }

  // ---------- heap against sorted list ----------

  lemma {:induction false} ListRunFiresAt<T>(svc: Service<T>, ops: seq<Op<T>>, outs: seq<seq<T>>, i: nat)
    requires RunFiresInOrder(svc, ops, outs) && i < |ops|
    ensures FiresInOrder(After(svc, ops[..i]), ops[i], outs[i])
    decreases i
  {
    if i > 0 {
      ListRunFiresAt(svc.Step(ops[0]), ops[1..], outs[1..], i - 1);
      assert ops[..i][0] == ops[0] && ops[..i][1..] == ops[1..][..i - 1];
    }
  }

  /** Driven by the same run, heap and sorted list invoke the same multiset of callbacks at every operation. */
  lemma HeapMatchesList<T>(h: LazyHeap<T>, s: seq<SortedTimers.Entry<T>>, svc: Service<T>, ops: seq<Op<T>>,
      outs: seq<seq<T>>, i: nat)
    requires Represents(h, svc) && SortedTimers.Represents(s, svc)
    requires LegalHeapRun(h, svc, ops) && LegalRun(svc, ops) && RunFires(h, ops, outs) && i < |ops|
    ensures |SortedTimers.RunFired(s, ops)| == |ops|
    ensures multiset(outs[i]) == multiset(SortedTimers.RunFired(s, ops)[i])
  {
    LazyRefinesEager(h, svc, ops, outs, i);
    SortedTimers.ListRefinesService(s, svc, ops);
    ListRunFiresAt(svc, ops, SortedTimers.RunFired(s, ops), i);
    SameElements(outs[i], SortedTimers.RunFired(s, ops)[i]);
  }

  // ---------- from the empty heap ----------

  lemma EmptyRepresents<T>()
    ensures Represents<T>(LazyHeap(map[], {}), Service(map[], 0))
    ensures SortedTimers.Represents<T>([], Service(map[], 0))
  {
  }

  /** Over every legal run of a heap that starts empty: each tick agrees with eager deletion, and
      with a sorted list that starts empty. */
  lemma FromEmpty<T>(ops: seq<Op<T>>, outs: seq<seq<T>>, i: nat)
    requires LegalHeapRun(LazyHeap(map[], {}), Service(map[], 0), ops) && LegalRun(Service(map[], 0), ops)
    requires RunFires(LazyHeap(map[], {}), ops, outs) && i < |ops|
    ensures FiresByExpiry(After(Service(map[], 0), ops[..i]), ops[i], outs[i])
    ensures |SortedTimers.RunFired([], ops)| == |ops|
    ensures multiset(outs[i]) == multiset(SortedTimers.RunFired([], ops)[i])
  {
    EmptyRepresents<T>();
    LazyRefinesEager(LazyHeap(map[], {}), Service(map[], 0), ops, outs, i);
    HeapMatchesList(LazyHeap(map[], {}), [], Service(map[], 0), ops, outs, i);
  }
}
