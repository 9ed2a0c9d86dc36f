/** Editing a sequence at one position. */
module Sequences {

  function Without<T>(s: seq<T>, k: nat): (r: seq<T>)
    requires k < |s|
    ensures |r| == |s| - 1
    ensures forall i :: 0 <= i < |r| ==> r[i] == if i < k then s[i] else s[i + 1]
  {
    seq(|s| - 1, i requires 0 <= i < |s| - 1 => if i < k then s[i] else s[i + 1])
  }

  function With<T>(s: seq<T>, k: nat, x: T): (r: seq<T>)
    requires k <= |s|
    ensures |r| == |s| + 1
    ensures forall i :: 0 <= i < |r| ==> r[i] == if i < k then s[i] else if i == k then x else s[i - 1]
  {
    seq(|s| + 1, i requires 0 <= i < |s| + 1 => if i < k then s[i] else if i == k then x else s[i - 1])
  }

  lemma WithoutSlices<T>(s: seq<T>, k: nat)
    requires k < |s|
    ensures Without(s, k) == s[..k] + s[k + 1..]
  {
  }

  lemma WithoutFirst<T>(s: seq<T>)
    requires s != []
    ensures Without(s, 0) == s[1..]
  {
  }

  lemma Associate<T>(a: seq<T>, b: seq<T>, c: seq<T>)
    ensures (a + b) + c == a + (b + c)
  {
  }

  ghost predicate Distinct<T>(s: seq<T>) {
    forall i, j :: 0 <= i < j < |s| ==> s[i] != s[j]
  }

  lemma {:induction false} CountsOne<T>(s: seq<T>, x: T)
    requires Distinct(s)
    ensures multiset(s)[x] == if x in s then 1 else 0
  {
    if s != [] {
      assert s == [s[0]] + s[1..];
      CountsOne(s[1..], x);
    }
  }

  lemma SameElements<T>(a: seq<T>, b: seq<T>)
    requires Distinct(a) && Distinct(b)
    requires forall x :: x in a <==> x in b
    ensures multiset(a) == multiset(b)
  {
    forall x | x in multiset(a) + multiset(b)
      ensures multiset(a)[x] == multiset(b)[x]
    {
      CountsOne(a, x);
      CountsOne(b, x);
    }
  }

  lemma DistinctPermuted<T>(a: seq<T>, b: seq<T>)
    requires Distinct(a) && multiset(b) <= multiset(a)
    ensures Distinct(b)
  {
    forall i, j | 0 <= i < j < |b|
      ensures b[i] != b[j]
    {
      assert b == b[..j] + [b[j]] + b[j + 1..];
      assert b[..j][i] == b[i];
      CountsOne(a, b[j]);
    }
  }
}
