/** Sequence vocabulary shared by the partitioner and the executor:
    concatenating a sequence of slices, picking slices in a given order,
    permutations of unit indices, and mapping a function over a slice. */
module Sequences {

  /** The concatenation `ss[0] + ss[1] + ... + ss[|ss|-1]`, built from the
      left, the way `append(result, rs...)` grows a slice. */
  function Concat<T>(ss: seq<seq<T>>): seq<T>
  {
    if |ss| == 0 then [] else Concat(ss[..|ss| - 1]) + ss[|ss| - 1]
  }

  /** Concatenation distributes over joining two sequences of slices. */
  lemma {:induction false} ConcatAppend<T>(a: seq<seq<T>>, b: seq<seq<T>>)
    ensures Concat(a + b) == Concat(a) + Concat(b)
    decreases |b|
  {
    if |b| == 0 {
      assert a + b == a;
    } else {
      var b' := b[..|b| - 1];
      assert (a + b)[..|a + b| - 1] == a + b';
      ConcatAppend(a, b');
    }
  }

  /** Appending one more slice appends its items. */
  lemma ConcatSnoc<T>(ss: seq<seq<T>>, s: seq<T>)
    ensures Concat(ss + [s]) == Concat(ss) + s
  {
    assert (ss + [s])[..|ss|] == ss;
  }

  /** All positions of `order` name one of `n` units. */
  predicate InRange(order: seq<nat>, n: nat)
  {
    forall k :: 0 <= k < |order| ==> order[k] < n
  }

  /** The unit indices `0, 1, ..., n-1` in input order. */
  function Indices(n: nat): (r: seq<nat>)
    ensures |r| == n
    ensures forall i :: 0 <= i < n ==> r[i] == i
  {
    seq(n, i => i)
  }

  /** `order` lists every one of `n` units exactly once: a completion order
      of `n` concurrently running units. */
  predicate IsPermutation(order: seq<nat>, n: nat)
  {
    multiset(order) == multiset(Indices(n))
  }

  /** A permutation of `n` units has length `n`, names only units below `n`
      and names every one of them. */
  lemma PermutationCovers(order: seq<nat>, n: nat)
    requires IsPermutation(order, n)
    ensures |order| == n
    ensures InRange(order, n)
    ensures forall i :: 0 <= i < n ==> i in order
  {
    assert |order| == |multiset(order)| == |multiset(Indices(n))| == n;
    forall k | 0 <= k < |order|
      ensures order[k] < n
    {
      assert order[k] in multiset(order);
      assert order[k] in multiset(Indices(n));
      assert order[k] in Indices(n);
    }
    forall i | 0 <= i < n
      ensures i in order
    {
      assert Indices(n)[i] == i;
      assert i in multiset(Indices(n));
      assert i in multiset(order);
    }
  }

  /** The slices `ss[order[0]], ss[order[1]], ...` in the given order. */
  function Reorder<T>(ss: seq<seq<T>>, order: seq<nat>): (r: seq<seq<T>>)
    requires InRange(order, |ss|)
    ensures |r| == |order|
    ensures forall k :: 0 <= k < |order| ==> r[k] == ss[order[k]]
  {
    seq(|order|, k requires 0 <= k < |order| => ss[order[k]])
  }

  /** Listing the slices in input order gives the slices back. */
  lemma ReorderIdentity<T>(ss: seq<seq<T>>)
    ensures InRange(Indices(|ss|), |ss|)
    ensures Reorder(ss, Indices(|ss|)) == ss
  {
  }

  /** Picking along `u + v` is picking along `u`, then along `v`, and so
      is the concatenation of what was picked. */
  lemma ConcatReorderAppend<T>(ss: seq<seq<T>>, u: seq<nat>, v: seq<nat>)
    requires InRange(u, |ss|) && InRange(v, |ss|)
    ensures InRange(u + v, |ss|)
    ensures Concat(Reorder(ss, u + v)) == Concat(Reorder(ss, u)) + Concat(Reorder(ss, v))
  {
    assert Reorder(ss, u + v) == Reorder(ss, u) + Reorder(ss, v);
    ConcatAppend(Reorder(ss, u), Reorder(ss, v));
  }

  /** Picking a single index yields that one slice. */
  lemma ConcatReorderSingle<T>(ss: seq<seq<T>>, x: nat)
    requires x < |ss|
    ensures InRange([x], |ss|)
    ensures Concat(Reorder(ss, [x])) == ss[x]
  {
    assert Reorder(ss, [x]) == [ss[x]];
    assert [ss[x]][..0] == [];
  }

  /** Removing the last element of `a` and an occurrence of the same
      element from `b` keeps the two multisets equal. */
  lemma RemoveMatching(a: seq<nat>, b: seq<nat>, j: nat)
    requires multiset(a) == multiset(b)
    requires |a| > 0 && j < |b| && b[j] == a[|a| - 1]
    ensures multiset(a[..|a| - 1]) == multiset(b[..j] + b[j + 1..])
  {
    var a', x := a[..|a| - 1], a[|a| - 1];
    var b1, b2 := b[..j], b[j + 1..];
    assert a == a' + [x];
    assert b == b1 + [x] + b2;
    calc {
      multiset(b1 + b2) + multiset{x};
      multiset(b1) + multiset(b2) + multiset([x]);
      multiset(b1 + [x] + b2);
      multiset(a' + [x]);
      multiset(a') + multiset{x};
    }
    assert multiset(a') == (multiset(a') + multiset{x}) - multiset{x};
    assert multiset(b1 + b2) == (multiset(b1 + b2) + multiset{x}) - multiset{x};
  }

  /** Cutting an index sequence around position `j` keeps every part in
      range. */
  lemma SplitAt(order: seq<nat>, j: nat, n: nat)
    requires InRange(order, n) && j < |order|
    ensures order == order[..j] + [order[j]] + order[j + 1..]
    ensures InRange(order[..j], n) && order[j] < n && InRange(order[j + 1..], n)
  {
  }

  /** Picking along `u + [x] + v` puts the slice of `x` between the slices
      picked along `u` and those picked along `v`. */
  lemma ConcatReorderMiddle<T>(ss: seq<seq<T>>, u: seq<nat>, x: nat, v: seq<nat>)
    requires InRange(u, |ss|) && x < |ss| && InRange(v, |ss|)
    ensures InRange(u + [x] + v, |ss|) && InRange(u + v, |ss|)
    ensures Concat(Reorder(ss, u + [x] + v)) == Concat(Reorder(ss, u)) + ss[x] + Concat(Reorder(ss, v))
    ensures Concat(Reorder(ss, u + v)) == Concat(Reorder(ss, u)) + Concat(Reorder(ss, v))
  {
    ConcatReorderSingle(ss, x);
    ConcatReorderAppend(ss, u + [x], v);
    ConcatReorderAppend(ss, u, [x]);
    ConcatReorderAppend(ss, u, v);
  }

  /** Inserting the same items into two sequences with the same multiset
      keeps their multisets equal. */
  lemma MultisetInsert<T>(a: seq<T>, b1: seq<T>, b2: seq<T>, x: seq<T>)
    requires multiset(a) == multiset(b1 + b2)
    ensures multiset(a + x) == multiset(b1 + x + b2)
  {
    calc {
      multiset(a + x);
      multiset(a) + multiset(x);
      multiset(b1) + multiset(b2) + multiset(x);
      multiset(b1 + x + b2);
    }
  }

  /** Picking the slices along two index sequences that hold the same
      indices the same number of times yields concatenations with the same
      elements, counted with multiplicity. */
  lemma {:induction false} ReorderSameMultiset<T>(ss: seq<seq<T>>, a: seq<nat>, b: seq<nat>)
    requires InRange(a, |ss|) && InRange(b, |ss|)
    requires multiset(a) == multiset(b)
    ensures multiset(Concat(Reorder(ss, a))) == multiset(Concat(Reorder(ss, b)))
    decreases |a|
  {
    if |a| == 0 {
      assert |b| == |multiset(b)| == 0;
    } else {
      var a', x := a[..|a| - 1], a[|a| - 1];
      SplitAt(a, |a| - 1, |ss|);
      assert x in multiset(b);
      var j :| 0 <= j < |b| && b[j] == x;
      var b1, b2 := b[..j], b[j + 1..];
      SplitAt(b, j, |ss|);
      RemoveMatching(a, b, j);
      ReorderSameMultiset(ss, a', b1 + b2);
      // Along `a`, the slice of `x` comes last ...
      ConcatReorderMiddle(ss, a', x, []);
      assert a' + [x] + [] == a && a' + [] == a';
      // ... along `b`, it sits between the slices of `b1` and those of `b2`.
      ConcatReorderMiddle(ss, b1, x, b2);
      MultisetInsert(Concat(Reorder(ss, a')), Concat(Reorder(ss, b1)), Concat(Reorder(ss, b2)), ss[x]);
    }
  }

  /** Concatenating the slices in any completion order gives the same
      elements, with multiplicity, as concatenating them in input order. */
  lemma PermutedConcatMultiset<T>(ss: seq<seq<T>>, order: seq<nat>)
    requires IsPermutation(order, |ss|)
    ensures InRange(order, |ss|)
    ensures multiset(Concat(Reorder(ss, order))) == multiset(Concat(ss))
  {
    PermutationCovers(order, |ss|);
    ReorderIdentity(ss);
    ReorderSameMultiset(ss, order, Indices(|ss|));
  }

  /** `f` applied to every item of `s`, in order. */
  function MapSeq<A, B>(f: A -> B, s: seq<A>): (r: seq<B>)
    ensures |r| == |s|
    ensures forall i :: 0 <= i < |s| ==> r[i] == f(s[i])
  {
    seq(|s|, i requires 0 <= i < |s| => f(s[i]))
  }

  /** Mapping every slice and then concatenating is mapping the
      concatenation. */
  lemma {:induction false} ConcatMapSeq<A, B>(f: A -> B, ss: seq<seq<A>>)
    ensures Concat(seq(|ss|, k requires 0 <= k < |ss| => MapSeq(f, ss[k]))) == MapSeq(f, Concat(ss))
    decreases |ss|
  {
    var ms := seq(|ss|, k requires 0 <= k < |ss| => MapSeq(f, ss[k]));
    if |ss| > 0 {
      var ss' := ss[..|ss| - 1];
      var ms' := seq(|ss'|, k requires 0 <= k < |ss'| => MapSeq(f, ss'[k]));
      assert ms[..|ms| - 1] == ms';
      ConcatMapSeq(f, ss');
      assert MapSeq(f, Concat(ss)) == MapSeq(f, Concat(ss')) + MapSeq(f, ss[|ss| - 1]);
    }
  }
}
