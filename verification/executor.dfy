/** `ScattergatherWithFuncs` (scatter_gather.go): run every future, append
    the results of the successful ones to one shared slice, and report the
    first error if any future failed.

    The goroutines, the error group and the mutex are replaced by an explicit
    completion order: a permutation `order` of the future indices saying in
    which order the goroutines finished. A single order serves both the
    appends made under the mutex and the error group's "first error wins",
    because a failing goroutine never appends and a succeeding one never sets
    the error. Every property below holds for every completion order. */
module Executor {
  import opened Outcomes
  import opened Sequences

  /** A zero-argument unit of work, `func() ([]T, error)`. */
  type Future<T, E> = () -> Outcome<T, E>

  /** The state the goroutines share: the result slice guarded by the
      mutex, and the first error the error group recorded. */
  datatype Shared<T, E> = Shared(result: seq<T>, firstErr: Option<E>)

  /** What a unit adds to the shared result slice: its results when it
      succeeded, nothing when it failed. */
  function Contribution<T, E>(o: Outcome<T, E>): seq<T>
  {
    if o.Ok? then o.values else []
  }

  /** The contribution of every unit, in input order. */
  function Contributions<T, E>(outcomes: seq<Outcome<T, E>>): (r: seq<seq<T>>)
    ensures |r| == |outcomes|
    ensures forall i :: 0 <= i < |outcomes| ==> r[i] == Contribution(outcomes[i])
  {
    seq(|outcomes|, i requires 0 <= i < |outcomes| => Contribution(outcomes[i]))
  }

  /** The goroutine of one future, run to completion on the shared state:
      an error is recorded only if none was recorded before; a non-empty
      result is appended; an empty one is skipped. */
  function Complete<T, E>(s: Shared<T, E>, o: Outcome<T, E>): (r: Shared<T, E>)
    // Skipping an empty result is the same as appending it.
    ensures r.result == s.result + Contribution(o)
    // The error recorded first is never replaced.
    ensures s.firstErr.Some? ==> r.firstErr == s.firstErr
    ensures s.firstErr.None? ==> r.firstErr == (if o.Err? then Some(o.error) else None)
  {
    match o
    case Err(e) =>
      if s.firstErr.None? then s.(firstErr := Some(e)) else s
    case Ok(rs) =>
      if |rs| > 0 then s.(result := s.result + rs) else s
  }

  /** The unit at position `j` of the completion order is the first one in
      that order to fail, and it failed with `e`. */
  ghost predicate FirstFailureAt<T, E>(outcomes: seq<Outcome<T, E>>, order: seq<nat>, j: int, e: E)
    requires InRange(order, |outcomes|)
  {
    && 0 <= j < |order|
    && outcomes[order[j]] == Err(e)
    && forall i :: 0 <= i < j ==> outcomes[order[i]].Ok?
  }

  /** The shared state once the units named in `order` have completed, in
      that order, starting from an empty slice and no error. */
  function RunInOrder<T, E>(outcomes: seq<Outcome<T, E>>, order: seq<nat>): (s: Shared<T, E>)
    requires InRange(order, |outcomes|)
    // Every unit that succeeded appended its results verbatim, in completion order,
    // including those that completed after a failure.
    ensures s.result == Concat(Reorder(Contributions(outcomes), order))
    // An error is recorded exactly when some completed unit failed ...
    ensures s.firstErr.None? <==> forall k :: 0 <= k < |order| ==> outcomes[order[k]].Ok?
    // ... and it is the error of the first one to fail.
    ensures s.firstErr.Some? ==> exists j :: FirstFailureAt(outcomes, order, j, s.firstErr.value)
    decreases |order|
  {
    if |order| == 0 then Shared([], None)
    else
      var prefix := order[..|order| - 1];
      var last := order[|order| - 1];
      var s' := RunInOrder(outcomes, prefix);
      assert order == prefix + [last];
      ConcatReorderPrefix(Contributions(outcomes), order);
      if s'.firstErr.Some? then
        FirstFailureExtends(outcomes, prefix, last, s'.firstErr.value);
        Complete(s', outcomes[last])
      else
        assert outcomes[last].Err? ==> FirstFailureAt(outcomes, order, |order| - 1, outcomes[last].error);
        Complete(s', outcomes[last])
  }

  /** Picking along a nonempty order is picking along all of it but the
      last index, then that index. */
  lemma ConcatReorderPrefix<T>(ss: seq<seq<T>>, order: seq<nat>)
    requires InRange(order, |ss|) && |order| > 0
    ensures InRange(order[..|order| - 1], |ss|)
    ensures Concat(Reorder(ss, order)) == Concat(Reorder(ss, order[..|order| - 1])) + ss[order[|order| - 1]]
  {
    assert Reorder(ss, order)[..|order| - 1] == Reorder(ss, order[..|order| - 1]);
  }

  /** The first failure among the units completed so far stays the first
      failure when one more unit completes. */
  lemma FirstFailureExtends<T, E>(outcomes: seq<Outcome<T, E>>, prefix: seq<nat>, last: nat, e: E)
    requires InRange(prefix, |outcomes|) && last < |outcomes|
    requires exists j :: FirstFailureAt(outcomes, prefix, j, e)
    ensures InRange(prefix + [last], |outcomes|)
    ensures exists j :: FirstFailureAt(outcomes, prefix + [last], j, e)
  {
    var j :| FirstFailureAt(outcomes, prefix, j, e);
    assert FirstFailureAt(outcomes, prefix + [last], j, e);
  }

  /** The outcome of every future, in input order. */
  function Invoke<T, E>(futures: seq<Future<T, E>>): (r: seq<Outcome<T, E>>)
    ensures |r| == |futures|
    ensures forall i :: 0 <= i < |futures| ==> r[i] == futures[i]()
  {
    seq(|futures|, i requires 0 <= i < |futures| => futures[i]())
  }

  /** Once every unit of a completion order has completed, no error is
      recorded exactly when every unit succeeded, and a recorded error is
      the error of one of the units. */
  lemma RunAllUnits<T, E>(outcomes: seq<Outcome<T, E>>, order: seq<nat>)
    requires IsPermutation(order, |outcomes|)
    ensures InRange(order, |outcomes|)
    ensures RunInOrder(outcomes, order).firstErr.None? <==> forall i :: 0 <= i < |outcomes| ==> outcomes[i].Ok?
    ensures RunInOrder(outcomes, order).firstErr.Some? ==>
      exists i :: 0 <= i < |outcomes| && outcomes[i] == Err(RunInOrder(outcomes, order).firstErr.value)
  {
    PermutationCovers(order, |outcomes|);
    var s := RunInOrder(outcomes, order);
    if s.firstErr.None? {
      forall i | 0 <= i < |outcomes|
        ensures outcomes[i].Ok?
      {
        assert i in order;
        var k :| 0 <= k < |order| && order[k] == i;
      }
    } else {
      var j :| FirstFailureAt(outcomes, order, j, s.firstErr.value);
      assert outcomes[order[j]] == Err(s.firstErr.value);
    }
  }

  /** `ScattergatherWithFuncs(futures)` when the goroutines complete in
      `order`: waits for all of them, then returns the error recorded first,
      or else the gathered results. */
  function ScattergatherWithFuncs<T, E>(futures: seq<Future<T, E>>, order: seq<nat>): (r: Outcome<T, E>)
    requires IsPermutation(order, |futures|)
    // Success exactly when every future succeeded.
    ensures r.Ok? <==> forall i :: 0 <= i < |futures| ==> futures[i]().Ok?
    // On success: the futures' result slices laid end to end in completion
    // order, each one's own order kept ...
    ensures r.Ok? ==> (InRange(order, |futures|) && r.values == Concat(Reorder(Contributions(Invoke(futures)), order)))
    // ... which, as a multiset, is the union of all the futures' results.
    ensures r.Ok? ==> multiset(r.values) == multiset(Concat(Contributions(Invoke(futures))))
    // On failure: the error of a future that failed, namely the first one
    // to fail in completion order.
    ensures r.Err? ==> exists i :: 0 <= i < |futures| && futures[i]() == Err(r.error)
    ensures r.Err? ==> (InRange(order, |futures|) && exists j :: FirstFailureAt(Invoke(futures), order, j, r.error))
  {
    var outcomes := Invoke(futures);
    RunAllUnits(outcomes, order);
    PermutedConcatMultiset(Contributions(outcomes), order);
    var s := RunInOrder(outcomes, order);
    if s.firstErr.Some? then Err(s.firstErr.value) else Ok(s.result)
  }

  /** Whether the call succeeds does not depend on the completion order,
      and when it succeeds, the gathered results of any two orders agree as
      multisets. (Which error is reported may differ: it is the first
      failure in the order at hand.) */
  lemma OrderIndependent<T, E>(futures: seq<Future<T, E>>, order1: seq<nat>, order2: seq<nat>)
    requires IsPermutation(order1, |futures|) && IsPermutation(order2, |futures|)
    ensures ScattergatherWithFuncs(futures, order1).Ok? == ScattergatherWithFuncs(futures, order2).Ok?
    ensures ScattergatherWithFuncs(futures, order1).Ok? ==>
      multiset(ScattergatherWithFuncs(futures, order1).values) == multiset(ScattergatherWithFuncs(futures, order2).values)
  {
  }

  /** When every future succeeds with an empty slice, nothing is ever
      appended: the call succeeds with an empty result. */
  lemma EmptyResultsContributeNothing<T, E>(futures: seq<Future<T, E>>, order: seq<nat>)
    requires IsPermutation(order, |futures|)
    requires forall i :: 0 <= i < |futures| ==> futures[i]() == Ok([])
    ensures ScattergatherWithFuncs(futures, order) == Ok([])
  {
    var r := ScattergatherWithFuncs(futures, order);
    assert multiset(Concat(Contributions(Invoke(futures)))) == multiset{} by {
      AllEmptyConcat(Contributions(Invoke(futures)));
    }
    assert |r.values| == |multiset(r.values)| == 0;
  }

  /** Concatenating only empty slices gives the empty sequence. */
  lemma {:induction false} AllEmptyConcat<T>(ss: seq<seq<T>>)
    requires forall k :: 0 <= k < |ss| ==> ss[k] == []
    ensures Concat(ss) == []
    decreases |ss|
  {
    if |ss| > 0 {
      AllEmptyConcat(ss[..|ss| - 1]);
    }
  }

  /** With no futures the call returns at once, with no results and no
      error. */
  lemma NoFutures<T, E>(futures: seq<Future<T, E>>, order: seq<nat>)
    requires |futures| == 0 && IsPermutation(order, 0)
    ensures ScattergatherWithFuncs(futures, order) == Ok([])
  {
    PermutationCovers(order, 0);
  }
}
