/** Rearranging sequences by index sequences. */
module Permutations {
  import opened Sequences

  function Range(m: nat): (s: seq<nat>)
    ensures |s| == m
  {
    seq(m, i requires 0 <= i < m => i)
  }

  function Select<T>(s: seq<T>, idx: seq<nat>): (t: seq<T>)
    requires forall i :: 0 <= i < |idx| ==> idx[i] < |s|
    ensures |t| == |idx|
  {
    seq(|idx|, i requires 0 <= i < |idx| => s[idx[i]])
  }

  predicate NoRepeats<T(==)>(s: seq<T>) {
    forall i, j :: 0 <= i < j < |s| ==> s[i] != s[j]
  }

  lemma {:induction false} CountInNoRepeats<T>(s: seq<T>, x: T)
    requires NoRepeats(s)
    ensures multiset(s)[x] == if x in s then 1 else 0
  {
    if s != [] {
      var front, last := s[..|s| - 1], s[|s| - 1];
      assert s == front + [last];
      CountInNoRepeats(front, x);
    }
  }

  /** Two sequences without repeats that hold the same elements are rearrangements of each other. */
  lemma SameElements<T>(s: seq<T>, t: seq<T>)
    requires NoRepeats(s) && NoRepeats(t) && forall x :: x in s <==> x in t
    ensures multiset(s) == multiset(t)
  {
    forall x: T | x in multiset(s) || x in multiset(t)
      ensures multiset(s)[x] == multiset(t)[x]
    {
      CountInNoRepeats(s, x);
      CountInNoRepeats(t, x);
    }
  }

  lemma CancelOne<T>(a: multiset<T>, b: multiset<T>, x: T)
    requires a + multiset{x} == b + multiset{x}
    ensures a == b
  {
    assert a == (a + multiset{x}) - multiset{x};
    assert b == (b + multiset{x}) - multiset{x};
  }

  lemma SelectWithout<T>(s: seq<T>, idx: seq<nat>, j: nat)
    requires forall i :: 0 <= i < |idx| ==> idx[i] < |s|
    requires j < |idx|
    ensures multiset(Select(s, idx)) == multiset(Select(s, RemoveAt(idx, j))) + multiset{s[idx[j]]}
  {
    RemoveAtTakes(Select(s, idx), j);
    assert RemoveAt(Select(s, idx), j) == Select(s, RemoveAt(idx, j));
  }

  /** Rearranged indices select rearranged elements. */
  lemma {:induction false} SelectPermutation<T>(s: seq<T>, idx: seq<nat>, jdx: seq<nat>)
    requires multiset(idx) == multiset(jdx)
    requires forall i :: 0 <= i < |idx| ==> idx[i] < |s|
    ensures forall j :: 0 <= j < |jdx| ==> jdx[j] < |s|
    ensures multiset(Select(s, idx)) == multiset(Select(s, jdx))
    decreases |idx|
  {
    forall j | 0 <= j < |jdx|
      ensures jdx[j] < |s|
    {
      assert jdx[j] in multiset(idx);
    }
    if idx == [] {
      assert |multiset(jdx)| == 0;
    } else {
      var x := idx[0];
      assert x in multiset(jdx);
      var j :| 0 <= j < |jdx| && jdx[j] == x;
      RemoveAtTakes(idx, 0);
      RemoveAtTakes(jdx, j);
      CancelOne(multiset(RemoveAt(idx, 0)), multiset(RemoveAt(jdx, j)), x);
      SelectPermutation(s, RemoveAt(idx, 0), RemoveAt(jdx, j));
      SelectWithout(s, idx, 0);
      SelectWithout(s, jdx, j);
    }
  }
}
