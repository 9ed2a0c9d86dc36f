/**
 The array heap as a value: sifting, popping and draining on sequences ordered by a key.
 The parent of index i is (i-1)/2.
 */
module Heaps {

  function Parent(i: nat): (p: nat)
    requires i > 0
    ensures p < i
  {
    (i - 1) / 2
  }

  /** Every node at or below level `lo` whose parent is at least `lo` is not less than that parent. */
  ghost predicate OrderedFrom(s: seq<int>, lo: nat) {
    forall i {:trigger Parent(i)} :: 0 < i < |s| && Parent(i) >= lo ==> s[Parent(i)] <= s[i]
  }

  ghost predicate Ordered(s: seq<int>) {
    OrderedFrom(s, 0)
  }

  // Elements carry a key; keys alone decide the shape of the heap.
  datatype Item<T> = Item(elem: T, key: int)

  function Keys<T>(s: seq<Item<T>>): (k: seq<int>)
    ensures |k| == |s|
    ensures forall i :: 0 <= i < |s| ==> k[i] == s[i].key
  {
    seq(|s|, i requires 0 <= i < |s| => s[i].key)
  }

  function Swap<T>(s: seq<T>, i: nat, j: nat): (r: seq<T>)
    requires i < |s| && j < |s|
    ensures |r| == |s|
    ensures forall k :: 0 <= k < |s| ==> r[k] == if k == i then s[j] else if k == j then s[i] else s[k]
    ensures multiset(r) == multiset(s)
  {
    s[i := s[j]][j := s[i]]
  }

  /** Move the item at `hole` up while its parent is greater. */
  function SiftUp<T>(s: seq<Item<T>>, hole: nat): (r: seq<Item<T>>)
    requires hole < |s|
    ensures |r| == |s| && multiset(r) == multiset(s)
    decreases hole
  {
    if hole > 0 && s[Parent(hole)].key > s[hole].key
    then SiftUp(Swap(s, hole, Parent(hole)), Parent(hole))
    else s
  }

  /** The lesser child of `pos`, the left one on a tie. */
  function Child<T>(s: seq<Item<T>>, pos: nat): (c: nat)
    requires 2 * pos + 1 < |s|
    ensures pos < c < |s| && Parent(c) == pos
    ensures forall i {:trigger Parent(i)} :: 0 < i < |s| && Parent(i) == pos ==> s[c].key <= s[i].key
  {
    var left := 2 * pos + 1;
    assert forall i {:trigger Parent(i)} :: 0 < i < |s| && Parent(i) == pos ==> i == left || i == left + 1;
    if left < |s| - 1 && s[left].key > s[left + 1].key then left + 1 else left
  }

  /** Move the item at `pos` down while a child is less. */
  function SiftDown<T>(s: seq<Item<T>>, pos: nat): (r: seq<Item<T>>)
    ensures |r| == |s| && multiset(r) == multiset(s)
    decreases |s| - pos
  {
    if 2 * pos + 1 < |s| && s[Child(s, pos)].key < s[pos].key
    then SiftDown(Swap(s, pos, Child(s, pos)), Child(s, pos))
    else s
  }

  /** Last to the root, then down. */
  function Pop<T>(s: seq<Item<T>>): (r: seq<Item<T>>)
    requires s != []
    ensures |r| == |s| - 1
  {
    var n := |s| - 1;
    SiftDown(s[0 := s[n]][..n], 0)
  }

  // ---------- heap order ----------

  /** Ordered everywhere except possibly between `hole` and its parent, and across `hole`. */
  ghost predicate OrderedButUp<T>(s: seq<Item<T>>, hole: nat) {
    && (forall i {:trigger Parent(i)} :: 0 < i < |s| && i != hole ==> s[Parent(i)].key <= s[i].key)
    && (forall i {:trigger Parent(i)} :: 0 < i < |s| && Parent(i) == hole && hole > 0 ==>
      s[Parent(hole)].key <= s[i].key)
  }

  lemma {:induction false} SiftUpOrders<T>(s: seq<Item<T>>, hole: nat)
    requires hole < |s| && OrderedButUp(s, hole)
    ensures Ordered(Keys(SiftUp(s, hole)))
    decreases hole
  {
    if hole > 0 && s[Parent(hole)].key > s[hole].key {
      SiftUpOrders(Swap(s, hole, Parent(hole)), Parent(hole));
    }
  }

  /** Ordered from `lo` down except possibly between `pos` and its children, and across `pos`. */
  ghost predicate OrderedButDown<T>(s: seq<Item<T>>, lo: nat, pos: nat) {
    && (forall i {:trigger Parent(i)} :: 0 < i < |s| && Parent(i) >= lo && Parent(i) != pos ==>
      s[Parent(i)].key <= s[i].key)
    && (forall i {:trigger Parent(i)} :: 0 < i < |s| && Parent(i) == pos && pos > 0 && Parent(pos) >= lo ==>
      s[Parent(pos)].key <= s[i].key)
  }

  lemma {:induction false} SiftDownOrders<T>(s: seq<Item<T>>, lo: nat, pos: nat)
    requires lo <= pos && OrderedButDown(s, lo, pos)
    ensures OrderedFrom(Keys(SiftDown(s, pos)), lo)
    decreases |s| - pos
  {
    if 2 * pos + 1 < |s| && s[Child(s, pos)].key < s[pos].key {
      SiftDownOrders(Swap(s, pos, Child(s, pos)), lo, Child(s, pos));
    }
  }

  lemma {:induction false} RootIsLeast(s: seq<int>, i: nat)
    requires Ordered(s) && i < |s|
    ensures s[0] <= s[i]
    decreases i
  {
    if i > 0 { RootIsLeast(s, Parent(i)); }
  }

  lemma OrderedAt(s: seq<int>, i: nat)
    requires Ordered(s) && 0 < i < |s|
    ensures s[Parent(i)] <= s[i]
  {
  }

  lemma AppendedButUp<T>(s: seq<Item<T>>, x: Item<T>)
    requires Ordered(Keys(s))
    ensures OrderedButUp(s + [x], |s|)
  {
    var a := s + [x];
    forall i {:trigger Parent(i)} | 0 < i < |a| && i != |s|
      ensures a[Parent(i)].key <= a[i].key
    {
      OrderedAt(Keys(s), i);
    }
  }

  lemma PushOrders<T>(s: seq<Item<T>>, x: Item<T>)
    requires Ordered(Keys(s))
    ensures Ordered(Keys(SiftUp(s + [x], |s|)))
  {
    AppendedButUp(s, x);
    SiftUpOrders(s + [x], |s|);
  }

  lemma PopOrders<T>(s: seq<Item<T>>)
    requires s != [] && Ordered(Keys(s))
    ensures Ordered(Keys(Pop(s)))
  {
    var n := |s| - 1;
    var r := s[0 := s[n]][..n];
    SiftDownOrders(r, 0, 0);
  }

  lemma PopTakesRoot<T>(s: seq<Item<T>>)
    requires s != []
    ensures multiset(s) == multiset(Pop(s)) + multiset{s[0]}
  {
    var n := |s| - 1;
    assert s == s[..n] + [s[n]];
    if n > 0 {
      assert s[0 := s[n]][..n] == [s[n]] + s[1..n];
      assert s[..n] == [s[0]] + s[1..n];
    }
  }

  // ---------- bottom-up construction ----------

  /** Sift down at n-1, n-2, ..., 0. */
  function Heapify<T>(s: seq<Item<T>>, n: nat): (r: seq<Item<T>>)
    ensures |r| == |s| && multiset(r) == multiset(s)
    decreases n
  {
    if n == 0 then s else Heapify(SiftDown(s, n - 1), n - 1)
  }

  lemma {:induction false} HeapifyOrders<T>(s: seq<Item<T>>, n: nat)
    requires OrderedFrom(Keys(s), n)
    ensures Ordered(Keys(Heapify(s, n)))
    decreases n
  {
    if n > 0 {
      SiftDownOrders(s, n - 1, n - 1);
      HeapifyOrders(SiftDown(s, n - 1), n - 1);
    }
  }

  // ---------- draining what has expired ----------

  /** The items a tick takes off the root, in that order. */
  function Drained<T>(s: seq<Item<T>>, now: int): seq<Item<T>>
    decreases |s|
  {
    if s == [] || s[0].key > now then [] else [s[0]] + Drained(Pop(s), now)
  }

  function Remains<T>(s: seq<Item<T>>, now: int): seq<Item<T>>
    decreases |s|
  {
    if s == [] || s[0].key > now then s else Remains(Pop(s), now)
  }

  /** A tick on a heap takes off exactly the items with key <= now, in non-decreasing
      key order, and leaves a heap of the others. */
  lemma {:induction false} DrainSplits<T>(s: seq<Item<T>>, now: int)
    requires Ordered(Keys(s))
    ensures multiset(Drained(s, now)) + multiset(Remains(s, now)) == multiset(s)
    ensures Ordered(Keys(Remains(s, now)))
    ensures forall x :: x in Remains(s, now) ==> x.key > now
    ensures forall x :: x in Drained(s, now) ==> x.key <= now
    decreases |s|
  {
    if s == [] {
    } else if s[0].key > now {
      forall i | 0 <= i < |s|
        ensures s[i].key > now
      {
        RootIsLeast(Keys(s), i);
      }
    } else {
      PopOrders(s);
      PopTakesRoot(s);
      DrainSplits(Pop(s), now);
    }
  }

  lemma {:induction false} DrainAscends<T>(s: seq<Item<T>>, now: int, floor: int)
    requires Ordered(Keys(s))
    requires s != [] ==> floor <= s[0].key
    ensures forall i :: 0 <= i < |Drained(s, now)| ==> floor <= Drained(s, now)[i].key
    ensures forall i, j :: 0 <= i < j < |Drained(s, now)| ==> Drained(s, now)[i].key <= Drained(s, now)[j].key
    decreases |s|
  {
    if s != [] && s[0].key <= now {
      PopOrders(s);
      PopRootNotLess(s);
      DrainAscends(Pop(s), now, s[0].key);
    }
  }

  lemma PopRootNotLess<T>(s: seq<Item<T>>)
    requires s != [] && Ordered(Keys(s))
    ensures Pop(s) != [] ==> s[0].key <= Pop(s)[0].key
  {
    if Pop(s) != [] {
      PopTakesRoot(s);
      var x := Pop(s)[0];
      assert x in multiset(Pop(s));
      assert x in multiset(s);
      var i :| 0 <= i < |s| && s[i] == x;
      RootIsLeast(Keys(s), i);
    }
  }
}
