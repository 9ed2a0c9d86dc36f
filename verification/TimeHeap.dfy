/**
 The min-heap of timers in an array that doubles when full, with lazy deletion.
 Repairs to the published code are listed in README.md; `HeapAsWritten` shows why two are needed.
 */
module TimeHeap {
  import opened Sequences
  import opened TimerService
  import opened Heaps
  import opened LazyTimers

  class HeapTimer {
    const expire: int
    var armed: bool  // cb_func is not NULL

    constructor (expire: int)
      ensures this.expire == expire && armed
    {
      this.expire := expire;
      armed := true;
    }
  }

  function Wrap(t: HeapTimer): Item<HeapTimer> {
    Item(t, t.expire)
  }

  ghost function Elems(items: seq<Item<HeapTimer>>): set<HeapTimer> {
    set i | 0 <= i < |items| :: items[i].elem
  }

  ghost predicate Wrapped(items: seq<Item<HeapTimer>>) {
    forall i {:trigger items[i].key} :: 0 <= i < |items| ==> items[i].key == items[i].elem.expire
  }

  /** The heap holds exactly the stored entries of `v`, under their own expiries. */
  ghost predicate Holds(items: seq<Item<HeapTimer>>, v: LazyHeap<HeapTimer>) {
    && v.stored.Keys == Elems(items)
    && v.cleared <= v.stored.Keys
    && (forall t :: t in v.stored ==> v.stored[t] == t.expire)
  }

  lemma ElemsPermuted(a: seq<Item<HeapTimer>>, b: seq<Item<HeapTimer>>)
    requires multiset(a) == multiset(b)
    ensures Elems(a) == Elems(b)
    ensures Wrapped(a) ==> Wrapped(b)
  {
    ElemsWithin(a, b);
    ElemsWithin(b, a);
  }

  lemma ElemsWithin(a: seq<Item<HeapTimer>>, b: seq<Item<HeapTimer>>)
    requires multiset(a) <= multiset(b)
    ensures Elems(a) <= Elems(b)
    ensures Wrapped(b) ==> Wrapped(a)
  {
    forall i | 0 <= i < |a|
      ensures a[i] in b
    {
      assert a[i] in multiset(a);
      assert a[i] in multiset(b);
    }
  }

  lemma ElemsPushed(items: seq<Item<HeapTimer>>, t: HeapTimer)
    ensures Elems(items + [Wrap(t)]) == Elems(items) + {t}
  {
    var pushed := items + [Wrap(t)];
    assert forall i :: 0 <= i < |items| ==> pushed[i] == items[i];
    assert pushed[|items|].elem == t;
  }

  /** Adding a timer; one that comes without a callback is as good as deleted. */
  ghost function Added(v: LazyHeap<HeapTimer>, t: HeapTimer, armed: bool): LazyHeap<HeapTimer> {
    var w := Step(v, Op.Add(t, t.expire));
    if armed then w else Step(w, Op.Del(t))
  }

  lemma AddedHolds(items: seq<Item<HeapTimer>>, more: seq<Item<HeapTimer>>, v: LazyHeap<HeapTimer>,
      t: HeapTimer, armed: bool)
    requires Holds(items, v) && Elems(more) == Elems(items) + {t}
    ensures Holds(more, Added(v, t, armed))
  {
  }

  lemma PushHolds(items: seq<Item<HeapTimer>>, v: LazyHeap<HeapTimer>, t: HeapTimer, armed: bool)
    requires Holds(items, v) && t !in Elems(items)
    ensures Holds(SiftUp(items + [Wrap(t)], |items|), Added(v, t, armed))
    ensures Elems(SiftUp(items + [Wrap(t)], |items|)) == Elems(items) + {t}
  {
    ElemsPushed(items, t);
    ElemsPermuted(items + [Wrap(t)], SiftUp(items + [Wrap(t)], |items|));
    AddedHolds(items, SiftUp(items + [Wrap(t)], |items|), v, t, armed);
  }

  // ---------- what a tick does to the view ----------

  /** The timers of `d` that still have their callback, in order. */
  ghost function ArmedElems(d: seq<Item<HeapTimer>>, cleared: set<HeapTimer>): seq<HeapTimer> {
    if d == [] then [] else (if d[0].elem !in cleared then [d[0].elem] else []) + ArmedElems(d[1..], cleared)
  }

  lemma {:induction false} ArmedExactly(d: seq<Item<HeapTimer>>, cleared: set<HeapTimer>)
    ensures var q := ArmedElems(d, cleared);
      && (forall i :: 0 <= i < |q| ==> q[i] in Elems(d) && q[i] !in cleared)
      && (forall x :: x in Elems(d) && x !in cleared ==> x in q)
  {
    if d != [] {
      ArmedExactly(d[1..], cleared);
      assert Elems(d) == {d[0].elem} + Elems(d[1..]) by {
        assert forall i :: 0 < i < |d| ==> d[i] == d[1..][i - 1];
      }
    }
  }

  lemma PrependAscends(x: HeapTimer, q: seq<HeapTimer>)
    requires Distinct(q) && Ascends(q) && forall i :: 0 <= i < |q| ==> q[i] != x && x.expire <= q[i].expire
    ensures Distinct([x] + q) && Ascends([x] + q)
  {
  }

  lemma LaterElems(d: seq<Item<HeapTimer>>, x: HeapTimer)
    requires Wrapped(d) && Distinct(d) && d != [] && x in Elems(d[1..])
    requires forall i :: 0 < i < |d| ==> d[0].key <= d[i].key
    ensures x != d[0].elem && d[0].elem.expire <= x.expire
  {
    var j :| 0 <= j < |d[1..]| && d[1..][j].elem == x;
    assert d[j + 1] == d[1..][j] && d[j + 1].key == x.expire && d[0].key == d[0].elem.expire;
  }

  lemma {:induction false} ArmedAscend(d: seq<Item<HeapTimer>>, cleared: set<HeapTimer>)
    requires Wrapped(d) && Distinct(d)
    requires forall i, j :: 0 <= i < j < |d| ==> d[i].key <= d[j].key
    ensures Distinct(ArmedElems(d, cleared)) && Ascends(ArmedElems(d, cleared))
  {
    if d != [] {
      var rest := ArmedElems(d[1..], cleared);
      ArmedAscend(d[1..], cleared);
      ArmedExactly(d[1..], cleared);
      forall i | 0 <= i < |rest|
        ensures rest[i] != d[0].elem && d[0].elem.expire <= rest[i].expire
      {
        LaterElems(d, rest[i]);
      }
      PrependAscends(d[0].elem, rest);
    }
  }

  ghost predicate Ascends(q: seq<HeapTimer>) {
    forall i, j :: 0 <= i < j < |q| ==> q[i].expire <= q[j].expire
  }

  lemma SplitHas(items: seq<Item<HeapTimer>>, d: seq<Item<HeapTimer>>, r: seq<Item<HeapTimer>>, i: nat)
    requires multiset(d) + multiset(r) == multiset(items) && i < |items|
    ensures items[i] in d || items[i] in r
  {
    assert items[i] in multiset(items);
    assert items[i] in multiset(d) || items[i] in multiset(r);
  }

  lemma DrainedElems(items: seq<Item<HeapTimer>>, now: int)
    requires Ordered(Keys(items)) && Wrapped(items)
    ensures Elems(Drained(items, now)) == set t | t in Elems(items) && t.expire <= now
    ensures Wrapped(Drained(items, now))
  {
    var d, r := Drained(items, now), Remains(items, now);
    DrainSplits(items, now);
    ElemsWithin(d, items);
    ElemsBelow(d, now);
    forall i | 0 <= i < |items| && items[i].elem.expire <= now
      ensures items[i].elem in Elems(d)
    {
      assert items[i].key <= now;
      SplitHas(items, d, r, i);
    }
  }

  lemma RemainingElems(items: seq<Item<HeapTimer>>, now: int)
    requires Ordered(Keys(items)) && Wrapped(items)
    ensures Elems(Remains(items, now)) == set t | t in Elems(items) && t.expire > now
  {
    var d, r := Drained(items, now), Remains(items, now);
    DrainSplits(items, now);
    ElemsWithin(r, items);
    ElemsAbove(r, now);
    forall i | 0 <= i < |items| && items[i].elem.expire > now
      ensures items[i].elem in Elems(r)
    {
      assert items[i].key > now;
      SplitHas(items, d, r, i);
    }
  }

  lemma ElemsBelow(d: seq<Item<HeapTimer>>, now: int)
    requires Wrapped(d) && forall x :: x in d ==> x.key <= now
    ensures forall t :: t in Elems(d) ==> t.expire <= now
  {
    forall i | 0 <= i < |d| ensures d[i].elem.expire <= now {
      assert d[i] in d && d[i].key == d[i].elem.expire;
    }
  }

  lemma ElemsAbove(r: seq<Item<HeapTimer>>, now: int)
    requires Wrapped(r) && forall x :: x in r ==> x.key > now
    ensures forall t :: t in Elems(r) ==> t.expire > now
  {
    forall i | 0 <= i < |r| ensures r[i].elem.expire > now {
      assert r[i] in r && r[i].key == r[i].elem.expire;
    }
  }

  /** Dropping one entry altogether. */
  ghost function Forget(v: LazyHeap<HeapTimer>, t: HeapTimer): LazyHeap<HeapTimer> {
    LazyHeap(v.stored - {t}, v.cleared - {t})
  }

  lemma PopElems(items: seq<Item<HeapTimer>>)
    requires items != [] && Wrapped(items) && Distinct(items)
    ensures multiset(Pop(items)) <= multiset(items)
    ensures Elems(Pop(items)) == Elems(items) - {items[0].elem}
  {
    var r := Pop(items);
    PopTakesRoot(items);
    CountsOne(items, items[0]);
    ElemsWithin(r, items);
    forall i | 0 <= i < |r|
      ensures r[i].elem != items[0].elem
    {
      assert r[i] in multiset(r);
      assert r[i] != items[0];
      assert r[i].key == r[i].elem.expire && items[0].key == items[0].elem.expire;
    }
    forall i | 0 < i < |items|
      ensures items[i].elem in Elems(r)
    {
      assert items[i] in multiset(items);
      assert items[i] in multiset(r);
    }
  }

  lemma PopHolds(items: seq<Item<HeapTimer>>, v: LazyHeap<HeapTimer>)
    requires items != [] && Holds(items, v) && Wrapped(items) && Distinct(items)
    ensures Holds(Pop(items), Forget(v, items[0].elem))
  {
    PopElems(items);
  }

  /** Once nothing expired is left, the entries that remain are those of the tick. */
  lemma Settled(items: seq<Item<HeapTimer>>, now: int, v: LazyHeap<HeapTimer>, w: LazyHeap<HeapTimer>)
    requires Ordered(Keys(items)) && Wrapped(items) && Holds(items, v)
    requires Holds(Remains(items, now), w) && w.cleared == v.cleared * w.stored.Keys
    ensures w == Step(v, Op.Tick(now))
  {
    DrainHolds(items, v, now);
  }

  lemma DrainHolds(items: seq<Item<HeapTimer>>, v: LazyHeap<HeapTimer>, now: int)
    requires Ordered(Keys(items)) && Wrapped(items) && Holds(items, v)
    ensures Holds(Remains(items, now), Step(v, Op.Tick(now)))
  {
    RemainingElems(items, now);
  }

  lemma DrainFires(items: seq<Item<HeapTimer>>, v: LazyHeap<HeapTimer>, now: int)
    requires Ordered(Keys(items)) && Wrapped(items) && Distinct(items) && Holds(items, v)
    ensures Fires(v, Op.Tick(now), ArmedElems(Drained(items, now), v.cleared))
  {
    var d := Drained(items, now);
    DrainedElems(items, now);
    ArmedExactly(d, v.cleared);
    DrainSplits(items, now);
    DistinctPermuted(items, d);
    DrainAscends(items, now, if items == [] then 0 else items[0].key);
    ArmedAscend(d, v.cleared);
  }

  ghost function Wraps(ts: seq<HeapTimer>): (r: seq<Item<HeapTimer>>)
    ensures |r| == |ts|
    ensures forall i :: 0 <= i < |ts| ==> r[i] == Wrap(ts[i])
  {
    seq(|ts|, i requires 0 <= i < |ts| => Wrap(ts[i]))
  }

  class TimeHeap {
    var heap: array<HeapTimer?>
    var capacity: nat
    var curSize: nat
    ghost var items: seq<Item<HeapTimer>>  // the heap, root first
    ghost var view: LazyHeap<HeapTimer>  // the entries and which have lost their callback

    /** The array holds `items`; order is not required. */
    ghost predicate Shape()
      reads this, heap
    {
      && heap.Length == capacity > 0
      && curSize == |items| <= capacity
      && (forall i :: 0 <= i < curSize ==> heap[i] == items[i].elem)
      && Wrapped(items)
    }

    ghost predicate Valid()
      reads this, heap, Elems(items)
    {
      && Shape() && Ordered(Keys(items)) && Distinct(items)
      && Holds(items, view)
      && (forall t :: t in Elems(items) ==> (t.armed <==> t !in view.cleared))
    }

    constructor (cap: nat)
      requires cap > 0
      ensures Valid() && items == [] && view == LazyHeap(map[], {}) && fresh(heap) && capacity == cap
    {
      heap := new HeapTimer?[cap](i => null);
      capacity, curSize := cap, 0;
      items := [];
      view := LazyHeap(map[], {});
    }

    /** The array holds `items` except in cell `pos`, whose item `t` is kept aside. */
    ghost predicate Holed(pos: nat, t: HeapTimer)
      reads this, heap
    {
      && heap.Length == capacity > 0
      && curSize == |items| <= capacity && pos < curSize
      && (forall i :: 0 <= i < curSize && i != pos ==> heap[i] == items[i].elem)
      && items[pos].elem == t
      && Wrapped(items)
    }

    /** The second constructor; null stands for the exception it throws when the timers do not fit. */
    static method Build(timers: array<HeapTimer>, size: nat, capacity: nat) returns (h: TimeHeap?)
      requires size <= timers.Length && capacity > 0 && Distinct(timers[..size])
      ensures h == null <==> capacity < size
      ensures h != null ==> fresh(h) && fresh(h.heap) && h.Valid() && h.capacity == capacity
      ensures h != null ==> multiset(h.items) == multiset(Wraps(timers[..size]))
    {
      if capacity < size {
        return null;
      }
      var b := new TimeHeap(capacity);
      b.Load(timers, size);
      if size != 0 {
        b.Order();
      }
      ghost var all := Wraps(timers[..size]);
      assert Distinct(all) by {
        assert forall i :: 0 <= i < size ==> all[i].elem == timers[..size][i];
      }
      DistinctPermuted(all, b.items);
      b.view := LazyHeap(map t | t in Elems(b.items) :: t.expire, set t | t in Elems(b.items) && !t.armed);
      h := b;
    }

    /** Copy the first `size` timers into an empty heap, in any order. */
    method Load(timers: array<HeapTimer>, size: nat)
      requires Shape() && items == [] && size <= timers.Length && size <= capacity
      modifies this`curSize, this`items, heap
      ensures Shape() && items == Wraps(timers[..size])
    {
      for i := 0 to size
        invariant heap.Length == capacity
        invariant forall k :: 0 <= k < i ==> heap[k] == timers[k]
      {
        heap[i] := timers[i];
      }
      curSize := size;
      items := Wraps(timers[..size]);
    }

    /** Bottom-up: sift down at every inner position, last to first. */
    method Order()
      requires Shape() && items != []
      modifies heap, this`items
      ensures Shape() && Ordered(Keys(items)) && multiset(items) == multiset(old(items))
    {
      ghost var all, top := items, (curSize - 1) / 2 + 1;
      HeapifyOrders(all, top);
      for i := (curSize - 1) / 2 + 1 downto 0
        invariant Shape() && curSize == |all|
        invariant Heapify(all, top) == Heapify(items, i)
      {
        ghost var before := items;
        PercolateDown(i);
        assert Heapify(before, i + 1) == Heapify(items, i);
      }
    }

    method PercolateDown(start: nat)
      requires Shape()
      modifies heap, this`items
      ensures Shape() && items == SiftDown(old(items), start)
    {
      if start >= curSize {
        return;
      }
      var pos := start;
      var tmp := heap[pos];
      while 2 * pos + 1 < curSize
        invariant Holed(pos, tmp) && SiftDown(items, pos) == SiftDown(old(items), start)
        decreases curSize - pos
      {
        var child := LesserChild(pos, tmp);
        if heap[child].expire < tmp.expire {
          FillFrom(pos, child, tmp);
          pos := child;
        } else {
          break;
        }
      }
      heap[pos] := tmp;
    }

    method LesserChild(pos: nat, tmp: HeapTimer) returns (child: nat)
      requires Holed(pos, tmp) && 2 * pos + 1 < curSize
      ensures child == Child(items, pos)
    {
      child := 2 * pos + 1;
      if child < curSize - 1 && heap[child].expire > heap[child + 1].expire {
        child := child + 1;
      }
    }

    method FillFrom(pos: nat, other: nat, tmp: HeapTimer)
      requires Holed(pos, tmp) && other < curSize && other != pos
      modifies heap, this`items
      ensures Holed(other, tmp) && items == Swap(old(items), pos, other)
    {
      heap[pos] := heap[other];
      items := Swap(items, pos, other);
    }

    /** Insert a timer that is not in the heap; null is ignored. */
    method AddTimer(timer: HeapTimer?)
      requires Valid() && (timer != null ==> timer !in Elems(items))
      modifies this, heap
      ensures Valid() && (fresh(heap) || heap == old(heap))
      ensures timer == null ==> items == old(items)
      ensures timer != null ==> items == SiftUp(old(items) + [Wrap(timer)], |old(items)|)
      ensures timer == null ==> view == old(view)
      ensures timer != null ==> view == Added(old(view), timer, timer.armed)
      ensures capacity == if timer != null && old(curSize) == old(capacity) then 2 * old(capacity) else old(capacity)
    {
      if timer == null {
        return;
      }
      if curSize >= capacity {
        Resize();
      }
      Insert(timer);
    }

    method Insert(timer: HeapTimer)
      requires Valid() && timer !in Elems(items) && curSize < capacity
      modifies heap, this`curSize, this`items, this`view
      ensures Valid() && items == SiftUp(old(items) + [Wrap(timer)], |old(items)|)
      ensures view == Added(old(view), timer, timer.armed)
    {
      PushOrders(items, Wrap(timer));
      DistinctPermuted(items + [Wrap(timer)], SiftUp(items + [Wrap(timer)], |items|));
      PushHolds(items, view, timer, timer.armed);
      view := Added(view, timer, timer.armed);
      PercolateUp(timer);
    }

    /** Open a hole behind the last item and move it up to where `timer` belongs. */
    method PercolateUp(timer: HeapTimer)
      requires Shape() && curSize < capacity
      modifies heap, this`curSize, this`items
      ensures Shape() && items == SiftUp(old(items) + [Wrap(timer)], |old(items)|)
    {
      ghost var pushed := items + [Wrap(timer)];
      var hole: nat := curSize;
      curSize := curSize + 1;
      items := pushed;
      while hole > 0
        invariant Holed(hole, timer) && SiftUp(items, hole) == SiftUp(pushed, |pushed| - 1)
      {
        var parent := (hole - 1) / 2;
        if heap[parent].expire > timer.expire {
          FillFrom(hole, parent, timer);
          hole := parent;
        } else {
          break;
        }
      }
      heap[hole] := timer;
    }

    method Resize()
      requires Shape()
      modifies this`capacity, this`heap
      ensures Shape() && capacity == 2 * old(capacity) && fresh(heap)
    {
      capacity := 2 * capacity;
      var newArray := new HeapTimer?[capacity];
      for i := 0 to capacity
        invariant heap == old(heap) && capacity == 2 * old(capacity) == newArray.Length
        invariant forall k :: 0 <= k < i ==> newArray[k] == if k < curSize then heap[k] else null
      {
        newArray[i] := if i < curSize then heap[i] else null;
      }
      heap := newArray;
    }

    /** Lazy deletion: the timer stays where it is and loses its callback. */
    method DelTimer(timer: HeapTimer?)
      requires Valid() && (timer != null ==> timer in Elems(items))
      modifies this`view, if timer == null then {} else {timer}
      ensures Valid() && items == old(items)
      ensures view == if timer == null then old(view) else Step(old(view), Op.Del(timer))
    {
      if timer == null {
        return;
      }
      timer.armed := false;
      view := Step(view, Op.Del(timer));
    }

    /** A timer that expires first, or null when there is none. */
    method Top() returns (timer: HeapTimer?)
      requires Valid()
      ensures timer == null <==> items == []
      ensures timer != null ==> timer in Elems(items) && forall t :: t in Elems(items) ==> timer.expire <= t.expire
    {
      if curSize == 0 {
        return null;
      }
      timer := heap[0];
      forall i | 0 <= i < |items|
        ensures timer.expire <= items[i].elem.expire
      {
        RootIsLeast(Keys(items), i);
        assert items[0].key == timer.expire && items[i].key == items[i].elem.expire;
      }
    }

    method PopTimer()
      requires Valid()
      modifies heap, this`curSize, this`items, this`view
      ensures Valid() && items == if old(items) == [] then [] else Pop(old(items))
      ensures view == if old(items) == [] then old(view) else Forget(old(view), old(items)[0].elem)
    {
      if curSize == 0 {
        return;
      }
      PopOrders(items);
      PopElems(items);
      PopHolds(items, view);
      DistinctPermuted(items, Pop(items));
      view := Forget(view, items[0].elem);
      PopRoot();
    }

    method PopRoot()
      requires Shape() && items != []
      modifies heap, this`curSize, this`items
      ensures Shape() && items == Pop(old(items))
    {
      curSize := curSize - 1;
      heap[0] := heap[curSize];
      items := items[0 := items[curSize]][..curSize];
      PercolateDown(0);
    }

    /** Pop every expired timer, invoking the callbacks that are still there; `fired` records them. */
    method Tick(now: int) returns (fired: seq<HeapTimer>)
      requires Valid()
      modifies heap, this`curSize, this`items, this`view
      ensures Valid() && items == Remains(old(items), now)
      ensures view == Step(old(view), Op.Tick(now))
      ensures Fires(old(view), Op.Tick(now), fired)
    {
      ghost var all, v := items, view;
      fired := Drain(now);
      DrainFires(all, v, now);
      Settled(all, now, v, view);
    }

    method Drain(now: int) returns (fired: seq<HeapTimer>)
      requires Valid()
      modifies heap, this`curSize, this`items, this`view
      ensures Valid() && items == Remains(old(items), now)
      ensures view.cleared == old(view).cleared * view.stored.Keys
      ensures fired == ArmedElems(Drained(old(items), now), old(view).cleared)
    {
      fired := [];
      ghost var all, c := items, view.cleared;
      var tmp := heap[0];
      while curSize != 0
        invariant Valid() && (curSize != 0 ==> tmp == heap[0])
        invariant view.cleared == c * view.stored.Keys
        invariant fired + ArmedElems(Drained(items, now), c) == ArmedElems(Drained(all, now), c)
        invariant Remains(items, now) == Remains(all, now)
        decreases curSize
      {
        assert items[0].elem == tmp && items[0].key == tmp.expire;
        if tmp.expire > now {
          break;
        }
        var fires := FireRoot(tmp, now, c);
        Associate(fired, fires, ArmedElems(Drained(items, now), c));
        fired := fired + fires;
        tmp := heap[0];
      }
      assert Drained(items, now) == [] && Remains(items, now) == items;
    }

    /** Run the root's callback if it is still there, and pop it. */
    method FireRoot(tmp: HeapTimer, now: int, ghost c: set<HeapTimer>) returns (fires: seq<HeapTimer>)
      requires Valid() && items != [] && items[0].elem == tmp && tmp.expire <= now
      requires view.cleared == c * view.stored.Keys
      modifies heap, this`curSize, this`items, this`view
      ensures Valid() && items == Pop(old(items))
      ensures view.cleared == c * view.stored.Keys
      ensures fires + ArmedElems(Drained(items, now), c) == ArmedElems(Drained(old(items), now), c)
    {
      assert items[0].key == tmp.expire;
      assert tmp in Elems(items);
      fires := if tmp.armed then [tmp] else [];
      PopTimer();
    }
  }
}
