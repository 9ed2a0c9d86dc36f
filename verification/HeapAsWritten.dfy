/**
 The two sift loops exactly as published, and the exact conditions under which they
 do what a heap needs.  Outside these conditions `TimeHeap` departs from the text.
 */
module HeapAsWritten {
  import opened Options
  import opened Heaps

  // ---------- add_timer: the parent is computed from cur_size ----------

  /** The loop of `add_timer` on the keys `s`, whose last cell is the new one; None when `fuel`
      iterations do not end it.  The parent does not depend on `hole`. */
  function UpAsWritten(s: seq<int>, t: int, hole: nat, fuel: nat): (r: Option<seq<int>>)
    requires hole < |s|
    decreases fuel
  {
    var parent := (|s| - 1) / 2;
    if hole == 0 || s[parent] <= t then Some(s[hole := t])
    else if fuel == 0 then None
    else UpAsWritten(s[hole := s[parent]], t, parent, fuel - 1)
  }

  /** `add_timer` on a heap with keys `s`; what the new cell held before does not matter. */
  function AddAsWritten(s: seq<int>, t: int, fuel: nat): Option<seq<int>> {
    UpAsWritten(s + [t], t, |s|, fuel)
  }

  lemma {:induction false} UpNeverEnds(s: seq<int>, t: int, fuel: nat)
    requires |s| > 2 && s[(|s| - 1) / 2] > t
    ensures UpAsWritten(s, t, (|s| - 1) / 2, fuel) == None
    decreases fuel
  {
    if fuel > 0 {
      var p := (|s| - 1) / 2;
      assert s[p := s[p]] == s;
      UpNeverEnds(s, t, fuel - 1);
    }
  }

  /** As published, `add_timer` ends and leaves a heap if and only if there are fewer than two
      timers before, or the new one is below neither of two middle entries. */
  lemma AddAsWrittenWorks(s: seq<int>, t: int)
    requires Ordered(s)
    ensures (exists fuel :: AddAsWritten(s, t, fuel).Some? && Ordered(AddAsWritten(s, t, fuel).value))
      <==> (|s| < 2 || (s[|s| / 2] <= t && s[(|s| - 1) / 2] <= t))
  {
    var n, a := |s|, s + [t];
    if n < 2 {
      AddToFew(s, t);
    } else if s[n / 2] > t {
      forall fuel: nat
        ensures AddAsWritten(s, t, fuel) == None
      {
        if fuel > 0 { UpNeverEnds(a[n := a[n / 2]], t, fuel - 1); }
      }
    } else {
      assert forall fuel: nat :: AddAsWritten(s, t, fuel) == Some(a[n := t]);
      assert a[n := t] == a;
      LastInOrder(s, t);
      if s[(n - 1) / 2] <= t { assert AddAsWritten(s, t, 0).Some?; }
    }
  }

  lemma LastInOrder(s: seq<int>, t: int)
    requires |s| > 0 && Ordered(s)
    ensures Ordered(s + [t]) <==> s[(|s| - 1) / 2] <= t
  {
    assert Parent(|s|) == (|s| - 1) / 2;
  }

  lemma AddToFew(s: seq<int>, t: int)
    requires |s| < 2
    ensures AddAsWritten(s, t, 1).Some? && Ordered(AddAsWritten(s, t, 1).value)
  {
    if |s| == 1 && s[0] > t {
      var a := s + [t];
      assert UpAsWritten(a, t, 1, 1) == UpAsWritten(a[1 := a[0]], t, 0, 0);
    }
  }

  /** Two timers and a third that expires first: the loop never ends.  Four timers and a fifth
      where only the wrong parent is early enough: the result is not a heap. */
  lemma AddAsWrittenFails()
    ensures Ordered([1, 2]) && forall fuel :: AddAsWritten([1, 2], 0, fuel) == None
    ensures Ordered([1, 5, 2, 6]) && AddAsWritten([1, 5, 2, 6], 3, 0) == Some([1, 5, 2, 6, 3]) &&
      !Ordered([1, 5, 2, 6, 3])
  {
    forall fuel: nat
      ensures AddAsWritten([1, 2], 0, fuel) == None
    {
      assert [1, 2] + [0] == [1, 2, 0] && [1, 2, 0][2 := 2] == [1, 2, 2];
      if fuel > 0 { UpNeverEnds([1, 2, 2], 0, fuel - 1); }
    }
    assert [1, 5, 2, 6] + [3] == [1, 5, 2, 6, 3];
    assert [1, 5, 2, 6, 3][4 := 3] == [1, 5, 2, 6, 3];
    assert Parent(4) == 1;
  }

  // ---------- precolate_down: the moved child is compared with itself ----------

  /** The loop of `precolate_down`; None when it reads behind the last timer. */
  function DownAsWritten<T>(s: seq<Item<T>>, pos: nat, child: nat, tmp: Item<T>): Option<seq<Item<T>>>
    requires pos < |s|
    decreases |s| - pos
  {
    if child >= |s| then Some(s[pos := tmp])
    else if 2 * pos + 1 >= |s| then None
    else if s[Child(s, pos)].key < s[pos].key
    then DownAsWritten(s[pos := s[Child(s, pos)]], Child(s, pos), Child(s, pos), tmp)
    else Some(s[pos := tmp])
  }

  /** As published, sifting down from `pos` over ordered subtrees stays in range and orders
      them if and only if nothing has to move, or one step is enough and does not end in a leaf. */
  lemma DownAsWrittenWorks<T>(s: seq<Item<T>>, pos: nat)
    requires pos < |s| && OrderedButDown(s, pos, pos)
    ensures var r := DownAsWritten(s, pos, 2 * pos + 1, s[pos]);
      (r.Some? && OrderedFrom(Keys(r.value), pos))
      <==> (2 * pos + 1 >= |s| || s[pos].key <= s[Child(s, pos)].key || StepSuffices(s, pos))
  {
    if 2 * pos + 1 < |s| && s[Child(s, pos)].key < s[pos].key {
      var c := Child(s, pos);
      var a := s[pos := s[c]];
      if 2 * c + 1 < |s| {
        assert Parent(Child(a, c)) == c;
        assert DownAsWritten(a, c, c, s[pos]) == Some(a[c := s[pos]]);
        OneStep(s, pos);
      }
    } else {
      assert s[pos := s[pos]] == s;
    }
  }

  /** Three timers of which the first is out of place: the loop looks behind the last one. */
  lemma DownAsWrittenFails(a: Item<int>, b: Item<int>, c: Item<int>)
    requires a.key == 3 && b.key == 1 && c.key == 2
    ensures OrderedButDown([a, b, c], 0, 0) && DownAsWritten([a, b, c], 0, 1, a) == None
  {
    var s := [a, b, c];
    assert Child(s, 0) == 1 && s[1].key < s[0].key;
    assert DownAsWritten(s, 0, 1, a) == DownAsWritten(s[0 := b], 1, 1, a);
  }

  predicate StepSuffices<T>(s: seq<Item<T>>, pos: nat)
    requires 2 * pos + 1 < |s|
  {
    var c := Child(s, pos);
    2 * c + 1 < |s| && s[pos].key <= s[Child(s, c)].key
  }

  lemma OneStep<T>(s: seq<Item<T>>, pos: nat)
    requires 2 * pos + 1 < |s| && OrderedButDown(s, pos, pos) && s[Child(s, pos)].key < s[pos].key
    requires 2 * Child(s, pos) + 1 < |s|
    ensures var c := Child(s, pos);
      OrderedFrom(Keys(s[pos := s[c]][c := s[pos]]), pos) <==> s[pos].key <= s[Child(s, c)].key
  {
    var c := Child(s, pos);
    var g := Child(s, c);
    var r := s[pos := s[c]][c := s[pos]];
    assert Parent(g) == c && r[g] == s[g];
  }
}
