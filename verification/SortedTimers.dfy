/**
 The sorted timer list as a value: what each operation of `sort_timer_lst` does
 to the sequence of (timer, expire) pairs from head to tail.
 */
module SortedTimers {
  import opened Sequences
  import opened TimerService

  datatype Entry<T> = Entry(timer: T, expire: int)

  /** Where the insertion scan that starts at `k` stops: before the first entry
      that expires strictly later than `e`, or at the end. */
  function Place<T>(s: seq<Entry<T>>, k: nat, e: int): (j: nat)
    requires k <= |s|
    ensures k <= j <= |s|
    ensures forall m :: k <= m < j ==> s[m].expire <= e
    ensures j < |s| ==> e < s[j].expire
    decreases |s| - k
  {
    if k < |s| && s[k].expire <= e then Place(s, k + 1, e) else k
  }

  function InsertFrom<T>(s: seq<Entry<T>>, k: nat, x: Entry<T>): seq<Entry<T>>
    requires k <= |s|
  {
    With(s, Place(s, k, x.expire), x)
  }

  /** Insertion after every entry that does not expire later. */
  function StableInsert<T>(s: seq<Entry<T>>, x: Entry<T>): seq<Entry<T>> {
    InsertFrom(s, 0, x)
  }

  /** `adjust_timer` on the entry at `i`, whose expiry the caller has already changed:
      stay if the successor expires strictly later, else rescan behind the successor. */
  function Adjust<T>(s: seq<Entry<T>>, i: nat): seq<Entry<T>>
    requires i < |s|
  {
    if i + 1 == |s| || s[i].expire < s[i + 1].expire then s
    else InsertFrom(Without(s, i), i + 1, s[i])
  }

  /** How many entries `tick` takes off the front. */
  function ExpiredCount<T>(s: seq<Entry<T>>, now: int): nat {
    Place(s, 0, now)
  }

  function Timers<T>(s: seq<Entry<T>>): (r: seq<T>)
    ensures |r| == |s|
  {
    seq(|s|, i requires 0 <= i < |s| => s[i].timer)
  }

  ghost predicate Sorted<T>(s: seq<Entry<T>>) {
    forall i, j :: 0 <= i < j < |s| ==> s[i].expire <= s[j].expire
  }

  // ---------- adjust_timer is remove followed by stable insert, exactly when it sorts ----------

  /** The scan may start anywhere among the entries that stay in front. */
  lemma {:induction false} PlaceSkips<T>(s: seq<Entry<T>>, j: nat, k: nat, e: int)
    requires j <= k <= |s|
    requires forall m :: j <= m < k ==> s[m].expire <= e
    ensures Place(s, j, e) == Place(s, k, e)
    decreases k - j
  {
    if j < k { PlaceSkips(s, j + 1, k, e); }
  }

  /** With the rest sorted, the list after `adjust_timer` is sorted if and only if the new
      expiry is not below the predecessor's; and then it is what removing the
      timer and inserting it afresh would give. */
  lemma AdjustSorts<T>(s: seq<Entry<T>>, i: nat)
    requires i < |s|
    requires Sorted(Without(s, i))
    ensures Sorted(Adjust(s, i)) <==> (i == 0 || s[i - 1].expire <= s[i].expire)
    ensures Sorted(Adjust(s, i)) ==> Adjust(s, i) == StableInsert(Without(s, i), s[i])
  {
    if i == 0 || s[i - 1].expire <= s[i].expire {
      AdjustIsReinsert(s, i);
      InsertSorted(Without(s, i), s[i]);
    } else {
      AdjustUnsorted(s, i);
    }
  }

  lemma InsertSorted<T>(s: seq<Entry<T>>, x: Entry<T>)
    requires Sorted(s)
    ensures Sorted(StableInsert(s, x))
  {
  }

  lemma AdjustIsReinsert<T>(s: seq<Entry<T>>, i: nat)
    requires i < |s| && Sorted(Without(s, i))
    requires i == 0 || s[i - 1].expire <= s[i].expire
    ensures Adjust(s, i) == StableInsert(Without(s, i), s[i])
  {
    FrontIsEarly(s, i);
    PlaceSkips(Without(s, i), 0, i, s[i].expire);
    PutBack(s, i);
  }

  /** Putting an entry back where it was undoes its removal. */
  lemma PutBack<T>(s: seq<Entry<T>>, i: nat)
    requires i < |s|
    ensures With(Without(s, i), i, s[i]) == s
  {
  }

  lemma FrontIsEarly<T>(s: seq<Entry<T>>, i: nat)
    requires i < |s| && Sorted(Without(s, i))
    requires i == 0 || s[i - 1].expire <= s[i].expire
    ensures forall m :: 0 <= m < i ==> Without(s, i)[m].expire <= s[i].expire
  {
    assert i > 0 ==> Without(s, i)[i - 1] == s[i - 1];
  }

  lemma AdjustUnsorted<T>(s: seq<Entry<T>>, i: nat)
    requires 0 < i < |s| && s[i - 1].expire > s[i].expire
    ensures !Sorted(Adjust(s, i))
  {
    var a := Adjust(s, i);
    if i + 1 == |s| || s[i].expire < s[i + 1].expire {
      assert a[i - 1].expire > a[i].expire;
    } else {
      var rest := Without(s, i);
      var j := Place(rest, i + 1, s[i].expire);
      assert a[i - 1] == s[i - 1] && a[j] == s[i];
    }
  }

  // ---------- whole runs ----------

  function IndexOf<T(==)>(s: seq<Entry<T>>, t: T): (i: nat)
    ensures i <= |s|
    ensures Holds(s, t) ==> i < |s|
    ensures forall m :: 0 <= m < i ==> s[m].timer != t
    ensures i < |s| ==> s[i].timer == t
  {
    if s == [] || s[0].timer == t then 0 else 1 + IndexOf(s[1..], t)
  }

  /** The list after one operation; a moved timer has its expiry raised first. */
  function Step<T(==)>(s: seq<Entry<T>>, op: Op<T>): seq<Entry<T>> {
    match op
    case Add(t, e) => StableInsert(s, Entry(t, e))
    case Move(t, e) =>
      var i := IndexOf(s, t);
      if i < |s| then Adjust(s[i := Entry(t, e)], i) else s
    case Del(t) =>
      var i := IndexOf(s, t);
      if i < |s| then Without(s, i) else s
    case Tick(now) => s[ExpiredCount(s, now)..]
    case Skip => s
  }

  function Fired<T>(s: seq<Entry<T>>, op: Op<T>): seq<T> {
    if op.Tick? then Timers(s[..ExpiredCount(s, op.now)]) else []
  }

  function Run<T(==)>(s: seq<Entry<T>>, ops: seq<Op<T>>): seq<Entry<T>>
    decreases |ops|
  {
    if ops == [] then s else Run(Step(s, ops[0]), ops[1..])
  }

  function RunFired<T(==)>(s: seq<Entry<T>>, ops: seq<Op<T>>): seq<seq<T>>
    decreases |ops|
  {
    if ops == [] then [] else [Fired(s, ops[0])] + RunFired(Step(s, ops[0]), ops[1..])
  }

  /** The list holds exactly the live timers, each with its expiry, in the order (expire, stamp). */
  ghost predicate Represents<T>(s: seq<Entry<T>>, svc: Service<T>) {
    && svc.Valid()
    && Faithful(s, svc.due)
    && Covers(s, svc.due)
    && InOrder(s, svc.due)
  }

  ghost predicate Faithful<T>(s: seq<Entry<T>>, due: map<T, Due>) {
    forall i :: 0 <= i < |s| ==> s[i].timer in due && due[s[i].timer].expire == s[i].expire
  }

  ghost predicate Covers<T>(s: seq<Entry<T>>, due: map<T, Due>) {
    forall t :: t in due ==> Holds(s, t)
  }

  ghost predicate Holds<T>(s: seq<Entry<T>>, t: T) {
    exists i :: 0 <= i < |s| && s[i].timer == t
  }

  ghost predicate InOrder<T>(s: seq<Entry<T>>, due: map<T, Due>)
    requires Faithful(s, due)
  {
    forall i, j :: 0 <= i < j < |s| ==> Before(due[s[i].timer], due[s[j].timer])
  }

  lemma InsertRepresents<T>(s: seq<Entry<T>>, svc: Service<T>, t: T, e: int)
    requires Represents(s, svc) && t !in svc.due
    ensures Represents(StableInsert(s, Entry(t, e)), svc.Step(Add(t, e)))
  {
    var x := Entry(t, e);
    var j := Place(s, 0, e);
    var due := svc.due[t := Due(e, svc.next)];
    InsertFaithful(s, svc.due, j, x, svc.next);
    InsertInOrder(s, svc.due, j, x, svc.next);
    StepValid(svc, Add(t, e));
  }

  lemma InsertFaithful<T>(s: seq<Entry<T>>, due: map<T, Due>, j: nat, x: Entry<T>, stamp: nat)
    requires j <= |s| && Faithful(s, due) && Covers(s, due) && x.timer !in due
    ensures Faithful(With(s, j, x), due[x.timer := Due(x.expire, stamp)])
    ensures Covers(With(s, j, x), due[x.timer := Due(x.expire, stamp)])
  {
    var r := With(s, j, x);
    assert r[j] == x;
    forall u | u in due
      ensures Holds(r, u)
    {
      var i :| 0 <= i < |s| && s[i].timer == u;
      assert r[if i < j then i else i + 1].timer == u;
    }
  }

  lemma InsertInOrder<T>(s: seq<Entry<T>>, due: map<T, Due>, j: nat, x: Entry<T>, stamp: nat)
    requires j <= |s| && Faithful(s, due) && InOrder(s, due) && x.timer !in due
    requires forall m :: 0 <= m < j ==> s[m].expire <= x.expire && due[s[m].timer].stamp < stamp
    requires forall m :: j <= m < |s| ==> x.expire < s[m].expire
    requires Faithful(With(s, j, x), due[x.timer := Due(x.expire, stamp)])
    ensures InOrder(With(s, j, x), due[x.timer := Due(x.expire, stamp)])
  {
  }

  lemma WithoutRepresents<T>(s: seq<Entry<T>>, svc: Service<T>, i: nat)
    requires Represents(s, svc) && i < |s|
    ensures Represents(Without(s, i), svc.Step(Del(s[i].timer)))
  {
    WithoutSlices(s, i);
    KeepFaithful(s, svc.due, i, i + 1);
    KeepCovers(s, svc.due, i, i + 1, svc.due - {s[i].timer});
    StepValid(svc, Del(s[i].timer));
  }

  /** Dropping the stretch s[lo..hi] leaves a faithful, ordered list over any sub-map that still has the rest. */
  lemma KeepFaithful<T>(s: seq<Entry<T>>, due: map<T, Due>, lo: nat, hi: nat)
    requires lo <= hi <= |s| && Faithful(s, due) && InOrder(s, due)
    ensures var gone := set m | lo <= m < hi :: s[m].timer;
      Faithful(s[..lo] + s[hi..], due - gone) && InOrder(s[..lo] + s[hi..], due - gone)
  {
    var r := s[..lo] + s[hi..];
    assert forall m :: 0 <= m < |r| ==> r[m] == s[if m < lo then m else m + hi - lo];
  }

  lemma KeepCovers<T>(s: seq<Entry<T>>, due: map<T, Due>, lo: nat, hi: nat, kept: map<T, Due>)
    requires lo <= hi <= |s| && Covers(s, due)
    requires forall t :: t in kept ==> t in due
    requires forall m :: lo <= m < hi ==> s[m].timer !in kept
    ensures Covers(s[..lo] + s[hi..], kept)
  {
    var r := s[..lo] + s[hi..];
    forall u | u in kept
      ensures Holds(r, u)
    {
      var m :| 0 <= m < |s| && s[m].timer == u;
      assert r[if m < lo then m else m - hi + lo].timer == u;
    }
  }

  lemma TickRepresents<T>(s: seq<Entry<T>>, svc: Service<T>, now: int)
    requires Represents(s, svc)
    ensures Represents(Step(s, Tick(now)), svc.Step(Tick(now)))
  {
    var n := ExpiredCount(s, now);
    LateTail(s, svc.due, n, now);
    PrefixIsFired(s, svc.due, n, now);
    assert s[n..] == s[..0] + s[n..];
    KeepFaithful(s, svc.due, 0, n);
    KeepCovers(s, svc.due, 0, n, svc.due - svc.Fired(Tick(now)));
    StepValid(svc, Tick(now));
  }

  lemma StepFires<T>(s: seq<Entry<T>>, svc: Service<T>, op: Op<T>)
    requires Represents(s, svc)
    ensures FiresInOrder(svc, op, Fired(s, op))
  {
    if op.Tick? {
      var n := ExpiredCount(s, op.now);
      LateTail(s, svc.due, n, op.now);
      PrefixIsFired(s, svc.due, n, op.now);
      var q := Fired(s, op);
      assert forall m :: 0 <= m < |q| ==> q[m] == s[m].timer;
      forall t | t in svc.Fired(op)
        ensures t in q
      {
        var m :| 0 <= m < n && s[m].timer == t;
        assert q[m] == t;
      }
    }
  }

  lemma PrefixIsFired<T>(s: seq<Entry<T>>, due: map<T, Due>, n: nat, now: int)
    requires Faithful(s, due) && Covers(s, due) && n <= |s|
    requires forall m :: 0 <= m < n ==> s[m].expire <= now
    requires forall m :: n <= m < |s| ==> now < s[m].expire
    ensures (set m | 0 <= m < n :: s[m].timer) == set t | t in due && due[t].expire <= now
  {
    forall t | t in due && due[t].expire <= now
      ensures exists m :: 0 <= m < n && s[m].timer == t
    {
      var i :| 0 <= i < |s| && s[i].timer == t;
    }
  }

  lemma LateTail<T>(s: seq<Entry<T>>, due: map<T, Due>, n: nat, now: int)
    requires Faithful(s, due) && InOrder(s, due) && n <= |s|
    requires n < |s| ==> now < s[n].expire
    ensures forall m :: n <= m < |s| ==> now < s[m].expire
  {
  }

  /** Raising an expiry and adjusting is removing the timer and adding it afresh. */
  lemma MoveIsReinsert<T>(s: seq<Entry<T>>, t: T, e: int)
    requires Sorted(s) && Holds(s, t) && s[IndexOf(s, t)].expire <= e
    ensures Step(s, Move(t, e)) == StableInsert(Without(s, IndexOf(s, t)), Entry(t, e))
  {
    var i := IndexOf(s, t);
    var raised := s[i := Entry(t, e)];
    assert Without(raised, i) == Without(s, i);
    WithoutSorted(s, i);
    AdjustIsReinsert(raised, i);
  }

  lemma WithoutSorted<T>(s: seq<Entry<T>>, i: nat)
    requires i < |s| && Sorted(s)
    ensures Sorted(Without(s, i))
  {
  }

  lemma OrderedIsSorted<T>(s: seq<Entry<T>>, due: map<T, Due>)
    requires Faithful(s, due) && InOrder(s, due)
    ensures Sorted(s)
  {
  }

  lemma ReinsertRepresents<T>(s: seq<Entry<T>>, svc: Service<T>, i: nat, e: int)
    requires Represents(s, svc) && i < |s|
    ensures Represents(StableInsert(Without(s, i), Entry(s[i].timer, e)), svc.Step(Move(s[i].timer, e)))
  {
    WithoutRepresents(s, svc, i);
    InsertRepresents(Without(s, i), svc.Step(Del(s[i].timer)), s[i].timer, e);
    MoveIsDelAdd(svc, s[i].timer, e);
  }

  lemma MoveIsDelAdd<T>(svc: Service<T>, t: T, e: int)
    requires t in svc.due
    ensures svc.Step(Move(t, e)) == svc.Step(Del(t)).Step(Add(t, e))
  {
    assert (svc.due - {t})[t := Due(e, svc.next)] == svc.due[t := Due(e, svc.next)];
  }

  lemma MoveRepresents<T>(s: seq<Entry<T>>, svc: Service<T>, t: T, e: int)
    requires Represents(s, svc) && svc.Legal(Move(t, e))
    ensures Represents(Step(s, Move(t, e)), svc.Step(Move(t, e)))
  {
    OrderedIsSorted(s, svc.due);
    MoveIsReinsert(s, t, e);
    ReinsertRepresents(s, svc, IndexOf(s, t), e);
  }

  lemma StepRepresents<T>(s: seq<Entry<T>>, svc: Service<T>, op: Op<T>)
    requires Represents(s, svc) && svc.Legal(op)
    ensures Represents(Step(s, op), svc.Step(op))
  {
    match op
    case Add(t, e) => InsertRepresents(s, svc, t, e);
    case Move(t, e) => MoveRepresents(s, svc, t, e);
    case Del(t) => WithoutRepresents(s, svc, IndexOf(s, t));
    case Tick(now) => TickRepresents(s, svc, now);
    case Skip =>
  }

  /** Over every legal run of add, adjust, delete and tick, the list fires at each tick exactly
      the timers due, ordered by expiry and, among equals, by when they were scheduled. */
  lemma {:induction false} ListRefinesService<T>(s: seq<Entry<T>>, svc: Service<T>, ops: seq<Op<T>>)
    requires Represents(s, svc) && LegalRun(svc, ops)
    ensures Represents(Run(s, ops), After(svc, ops))
    ensures RunFiresInOrder(svc, ops, RunFired(s, ops))
    decreases |ops|
  {
    if ops != [] {
      StepRepresents(s, svc, ops[0]);
      StepFires(s, svc, ops[0]);
      ListRefinesService(Step(s, ops[0]), svc.Step(ops[0]), ops[1..]);
      assert RunFired(s, ops)[1..] == RunFired(Step(s, ops[0]), ops[1..]);
    }
  }
}
