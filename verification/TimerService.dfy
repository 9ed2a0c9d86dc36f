/**
 The timer service that all three containers implement: a map from live timers
 to the moment they fall due.  Every (re)scheduling gets the next stamp, so the
 pair (expire, stamp) orders live timers totally; containers are compared by the
 order in which they fire, not only by what they fire.
 */
module TimerService {

  datatype Due = Due(expire: int, stamp: nat)

  /** Earlier expiry first; among equal expiries, the one scheduled first. */
  predicate Before(a: Due, b: Due) {
    a.expire < b.expire || (a.expire == b.expire && a.stamp < b.stamp)
  }

  datatype Op<T> =
    | Add(timer: T, expire: int)
    | Move(timer: T, expire: int)
    | Del(timer: T)
    | Tick(now: int)
    | Skip

  datatype Service<T(==)> = Service(due: map<T, Due>, next: nat) {

    /** Stamps identify schedulings. */
    ghost predicate Valid() {
      && (forall t :: t in due ==> due[t].stamp < next)
      && (forall t, u :: t in due && u in due && t != u ==> due[t].stamp != due[u].stamp)
    }

    /** What a client may ask: handles are fresh when added, live otherwise, and
        a move never brings the expiry forward. */
    predicate Legal(op: Op<T>) {
      match op
      case Add(t, _) => t !in due
      case Move(t, e) => t in due && due[t].expire <= e
      case Del(t) => t in due
      case Tick(_) => true
      case Skip => true
    }

    function Fired(op: Op<T>): set<T> {
      if op.Tick? then set t | t in due && due[t].expire <= op.now else {}
    }

    function Step(op: Op<T>): Service<T> {
      match op
      case Add(t, e) => Service(due[t := Due(e, next)], next + 1)
      case Move(t, e) => Service(due[t := Due(e, next)], next + 1)
      case Del(t) => Service(due - {t}, next)
      case Tick(_) => Service(due - Fired(op), next)
      case Skip => this
    }
  }

  predicate LegalRun<T(==)>(svc: Service<T>, ops: seq<Op<T>>)
    decreases |ops|
  {
    ops == [] || (svc.Legal(ops[0]) && LegalRun(svc.Step(ops[0]), ops[1..]))
  }

  function After<T(==)>(svc: Service<T>, ops: seq<Op<T>>): Service<T>
    decreases |ops|
  {
    if ops == [] then svc else After(svc.Step(ops[0]), ops[1..])
  }

  /** `q` lists exactly the timers that fall due at `op`, each once, and in the
      order of (expire, stamp). */
  ghost predicate FiresInOrder<T>(svc: Service<T>, op: Op<T>, q: seq<T>) {
    && (forall i :: 0 <= i < |q| ==> q[i] in svc.Fired(op))
    && (forall t :: t in svc.Fired(op) ==> t in q)
    && (forall i, j :: 0 <= i < j < |q| ==> q[i] in svc.due && q[j] in svc.due && Before(svc.due[q[i]], svc.due[q[j]]))
  }

  ghost predicate RunFiresInOrder<T>(svc: Service<T>, ops: seq<Op<T>>, outs: seq<seq<T>>)
    decreases |ops|
  {
    && |outs| == |ops|
    && (ops == [] || (FiresInOrder(svc, ops[0], outs[0]) && RunFiresInOrder(svc.Step(ops[0]), ops[1..], outs[1..])))
  }

  /** A legal step keeps stamps distinct. */
  lemma StepValid<T>(svc: Service<T>, op: Op<T>)
    requires svc.Valid()
    ensures svc.Step(op).Valid()
  {
  }
}
