/** `ScattergatherWithInputParams` (scatter_gather.go): reject a
    non-positive batch size, cut the parameters into consecutive batches of
    `batchSize` items (the last one possibly shorter), wrap each batch with
    the batch function into a future, and hand the futures to the executor. */
module Partitioner {
  import opened Outcomes
  import opened Sequences
  import opened Executor

  /** Integer stand-in for `int(math.Min(float64(i+batchSize), float64(len(params))))`
      at scatter_gather.go:62. The two agree whenever `len(params) <= 2^53`. */
  function Min(a: int, b: int): int
  {
    if a <= b then a else b
  }

  /** The loop variable `i` of the partition loop after `k` rounds of
      `i += b`; it equals `k * b` (OffsetIsProduct). */
  function Offset(k: nat, b: nat): nat
  {
    if k == 0 then 0 else Offset(k - 1, b) + b
  }

  lemma {:induction false} OffsetIsProduct(k: nat, b: nat)
    ensures Offset(k, b) == k * b
  {
    if k > 0 {
      OffsetIsProduct(k - 1, b);
      assert (k - 1) * b + b == k * b;
    }
  }

  /** Later rounds of the loop start no earlier, and at least `b` later. */
  lemma {:induction false} OffsetMonotone(j: nat, k: nat, b: nat)
    requires j <= k
    ensures Offset(j, b) <= Offset(k, b)
    ensures j < k ==> Offset(j, b) + b <= Offset(k, b)
    decreases k
  {
    if j < k {
      OffsetMonotone(j, k - 1, b);
    }
  }

  /** ceil(n / b), computed with Euclidean division: the number of rounds
      of the partition loop over `n` items, i.e. the least count whose
      offset reaches `n`. */
  function CeilDiv(n: nat, b: nat): (r: nat)
    requires b > 0
    ensures Offset(r, b) >= n
    ensures r == 0 || Offset(r - 1, b) < n
  {
    CeilingOffsets(n, b);
    (n + b - 1) / b
  }

  /** The rounding of `(n + b - 1) / b`, in terms of the loop variable. */
  lemma CeilingOffsets(n: nat, b: nat)
    requires b > 0
    ensures Offset((n + b - 1) / b, b) >= n
    ensures (n + b - 1) / b == 0 || Offset((n + b - 1) / b - 1, b) < n
  {
    var q := (n + b - 1) / b;
    CeilingBounds(n, b);
    OffsetIsProduct(q, b);
    if q > 0 {
      OffsetIsProduct(q - 1, b);
    }
  }

  /** `q * b` is the least multiple of `b` at or above `n`. */
  lemma CeilingBounds(n: nat, b: nat)
    requires b > 0
    ensures (n + b - 1) / b * b >= n
    ensures (n + b - 1) / b == 0 || ((n + b - 1) / b - 1) * b < n
  {
    var q, rem := (n + b - 1) / b, (n + b - 1) % b;
    assert n + b - 1 == q * b + rem;
    if q > 0 {
      assert (q - 1) * b == q * b - b;
    }
  }

  /** `CeilDiv(n, b)` is the only count `c` whose offset reaches `n`
      while its last round still starts inside the `n` items. */
  lemma CeilDivUnique(n: nat, b: nat, c: nat)
    requires b > 0
    requires Offset(c, b) >= n && (c == 0 || Offset(c - 1, b) < n)
    ensures c == CeilDiv(n, b)
  {
    var m := CeilDiv(n, b);
    if c < m {
      OffsetMonotone(c, m - 1, b);
    } else if c > m {
      OffsetMonotone(m, c - 1, b);
    }
  }

  /** Every batch starts inside the parameters. */
  lemma BatchStartInside(n: nat, b: nat, k: nat)
    requires b > 0 && k < CeilDiv(n, b)
    ensures Offset(k, b) < n
  {
    OffsetMonotone(k, CeilDiv(n, b) - 1, b);
  }

  /** Batch `k`: `params[i : min(i + b, len(params))]` where `i` is the
      loop variable of round `k`. */
  function BatchAt<K>(params: seq<K>, b: nat, k: nat): (batch: seq<K>)
    requires b > 0 && k < CeilDiv(|params|, b)
    ensures 0 < |batch| <= b
  {
    BatchStartInside(|params|, b, k);
    params[Offset(k, b) .. Min(Offset(k, b) + b, |params|)]
  }

  /** The partition of `params` into batches of `b` items, in order: one
      batch per round of the partition loop. */
  function Batches<K>(params: seq<K>, b: nat): (r: seq<seq<K>>)
    requires b > 0
    ensures |r| == CeilDiv(|params|, b)
  {
    var m := CeilDiv(|params|, b);
    seq(m, k requires 0 <= k < m => BatchAt(params, b, k))
  }

  /** Every batch is non-empty and no longer than `b`, and every batch but
      the last is exactly `b` long. */
  lemma BatchesShape<K>(params: seq<K>, b: nat)
    requires b > 0
    ensures forall k :: 0 <= k < |Batches(params, b)| ==> 0 < |Batches(params, b)[k]| <= b
    ensures forall k :: 0 <= k < |Batches(params, b)| - 1 ==> |Batches(params, b)[k]| == b
  {
    var r := Batches(params, b);
    forall k | 0 <= k < |r| - 1
      ensures |r[k]| == b
    {
      BatchStartInside(|params|, b, k + 1);
    }
  }

  /** Batch `k` of the partition, spelled out. */
  lemma BatchIs<K>(params: seq<K>, b: nat, k: nat)
    requires b > 0 && k < CeilDiv(|params|, b)
    ensures Offset(k, b) < |params|
    ensures Batches(params, b)[k] == params[Offset(k, b) .. Min(Offset(k, b) + b, |params|)]
  {
    assert Batches(params, b)[k] == BatchAt(params, b, k);
    BatchStartInside(|params|, b, k);
  }

  /** The loop `for i := 0; i < len(params); i += batchSize` that builds the
      batches one by one. */
  method Partition<K>(params: seq<K>, batchSize: nat) returns (batches: seq<seq<K>>)
    requires batchSize > 0
    // One batch per round of the loop, ceil(len(params) / batchSize) rounds,
    // and exactly the partition.
    ensures |batches| == CeilDiv(|params|, batchSize)
    ensures batches == Batches(params, batchSize)
  {
    ghost var m := CeilDiv(|params|, batchSize);
    batches := [];
    var i := 0;
    while i < |params|
      invariant |batches| <= m
      invariant i == Offset(|batches|, batchSize)
      invariant batches == Batches(params, batchSize)[..|batches|]
    {
      if |batches| >= m {
        OffsetMonotone(m, |batches|, batchSize);
      }
      BatchIs(params, batchSize, |batches|);
      var batch := params[i .. Min(i + batchSize, |params|)];
      batches := batches + [batch];
      i := i + batchSize;
    }
    if |batches| < m {
      OffsetMonotone(|batches|, m - 1, batchSize);
    }
  }

  /** The partition loses, duplicates and reorders nothing: its batches
      laid end to end are the parameters. */
  lemma ConcatBatches<K>(params: seq<K>, b: nat)
    requires b > 0
    ensures Concat(Batches(params, b)) == params
  {
    var bs := Batches(params, b);
    ConcatBatchesPrefix(params, b, |bs|);
    assert bs[..|bs|] == bs;
  }

  /** The first `m` batches laid end to end are the parameters up to the
      loop variable of round `m`. */
  lemma {:induction false} ConcatBatchesPrefix<K>(params: seq<K>, b: nat, m: nat)
    requires b > 0 && m <= CeilDiv(|params|, b)
    ensures Concat(Batches(params, b)[..m]) == params[..Min(Offset(m, b), |params|)]
    decreases m
  {
    if m > 0 {
      ConcatBatchesPrefix(params, b, m - 1);
      ConcatBatchesStep(params, b, m);
    }
  }

  /** One round of `ConcatBatchesPrefix`: batch `m - 1` continues the
      parameters exactly where the batches before it stop. */
  lemma ConcatBatchesStep<K>(params: seq<K>, b: nat, m: nat)
    requires b > 0 && 0 < m <= CeilDiv(|params|, b)
    requires Concat(Batches(params, b)[..m - 1]) == params[..Min(Offset(m - 1, b), |params|)]
    ensures Concat(Batches(params, b)[..m]) == params[..Min(Offset(m, b), |params|)]
  {
    var bs := Batches(params, b);
    TakeSnoc(bs, m);
    ConcatSnoc(bs[..m - 1], bs[m - 1]);
    BatchIs(params, b, m - 1);
    var lo := Offset(m - 1, b);
    assert Offset(m, b) == lo + b;
    PrefixJoin(params, lo, Min(lo + b, |params|));
  }

  /** The first `m` items are the first `m - 1` items and item `m - 1`. */
  lemma TakeSnoc<T>(s: seq<T>, m: nat)
    requires 0 < m <= |s|
    ensures s[..m] == s[..m - 1] + [s[m - 1]]
  {
  }

  /** A prefix followed by the slice that continues it is the longer
      prefix. */
  lemma PrefixJoin<T>(s: seq<T>, lo: nat, hi: nat)
    requires lo <= hi <= |s|
    ensures s[..lo] + s[lo..hi] == s[..hi]
  {
  }

  /** The partition is the only way to cut the parameters into consecutive
      non-empty pieces of at most `b` items with all but the last exactly `b`
      long: the shape properties determine the batches completely. */
  lemma {:induction false} BatchesUnique<K>(params: seq<K>, b: nat, pieces: seq<seq<K>>)
    requires b > 0
    requires Concat(pieces) == params
    requires forall k :: 0 <= k < |pieces| ==> 0 < |pieces[k]| <= b
    requires forall k :: 0 <= k < |pieces| - 1 ==> |pieces[k]| == b
    ensures pieces == Batches(params, b)
    decreases |pieces|
  {
    if |pieces| == 0 {
      assert |params| == 0;
    } else {
      var m := |pieces|;
      var front, last := pieces[..m - 1], pieces[m - 1];
      SplitLastPiece(pieces, b);
      var n' := Offset(m - 1, b);
      // The front pieces are the partition of the parameters before round m-1 ...
      BatchesUnique(params[..n'], b, front);
      // ... and the last piece is the last batch of the whole partition.
      BatchesSnoc(params, b);
    }
  }

  /** Pieces shaped like a partition: the full pieces in front reach the
      loop variable of the last round, which the last piece then exceeds. */
  lemma SplitLastPiece<K>(pieces: seq<seq<K>>, b: nat)
    requires b > 0 && |pieces| > 0
    requires forall k :: 0 <= k < |pieces| ==> 0 < |pieces[k]| <= b
    requires forall k :: 0 <= k < |pieces| - 1 ==> |pieces[k]| == b
    ensures Concat(pieces) == Concat(pieces[..|pieces| - 1]) + pieces[|pieces| - 1]
    ensures |Concat(pieces[..|pieces| - 1])| == Offset(|pieces| - 1, b)
    ensures |pieces| == CeilDiv(|Concat(pieces)|, b)
  {
    var m := |pieces|;
    assert pieces == pieces[..m - 1] + [pieces[m - 1]];
    ConcatSnoc(pieces[..m - 1], pieces[m - 1]);
    ConcatLengthFull(pieces[..m - 1], b);
    CeilDivUnique(|Concat(pieces)|, b, m);
  }

  /** Pieces of exactly `b` items each concatenate to the loop variable of
      round `|pieces|`. */
  lemma {:induction false} ConcatLengthFull<K>(pieces: seq<seq<K>>, b: nat)
    requires forall k :: 0 <= k < |pieces| ==> |pieces[k]| == b
    ensures |Concat(pieces)| == Offset(|pieces|, b)
    decreases |pieces|
  {
    if |pieces| > 0 {
      ConcatLengthFull(pieces[..|pieces| - 1], b);
    }
  }

  /** The partition of non-empty parameters is the partition of everything
      before the last round, followed by the rest as one last batch. */
  lemma BatchesSnoc<K>(params: seq<K>, b: nat)
    requires b > 0 && |params| > 0
    ensures CeilDiv(|params|, b) > 0
    ensures Offset(CeilDiv(|params|, b) - 1, b) < |params|
    ensures Batches(params, b)
      == Batches(params[..Offset(CeilDiv(|params|, b) - 1, b)], b)
         + [params[Offset(CeilDiv(|params|, b) - 1, b)..]]
  {
    var m := CeilDiv(|params|, b);
    var bs := Batches(params, b);
    BatchesOfPrefix(params, b, m - 1);
    BatchIs(params, b, m - 1);
    var lo := Offset(m - 1, b);
    assert Offset(m, b) == lo + b;
    assert bs[m - 1] == params[lo..];
    assert bs == bs[..m - 1] + [bs[m - 1]];
  }

  /** The first `m` batches of `params` are the whole partition of the
      parameters before round `m`, when those are all full. */
  lemma BatchesOfPrefix<K>(params: seq<K>, b: nat, m: nat)
    requires b > 0 && Offset(m, b) <= |params|
    ensures m <= CeilDiv(|params|, b)
    ensures Batches(params, b)[..m] == Batches(params[..Offset(m, b)], b)
  {
    FullRoundsCount(|params|, b, m);
    forall k | 0 <= k < m
      ensures Batches(params, b)[k] == Batches(params[..Offset(m, b)], b)[k]
    {
      OffsetMonotone(k + 1, m, b);
      SameFullBatch(params, b, k, Offset(m, b));
    }
  }

  /** `m` full rounds fit in `n` items: the partition of `n` items has at
      least `m` batches, and that of the first `m` rounds exactly `m`. */
  lemma FullRoundsCount(n: nat, b: nat, m: nat)
    requires b > 0 && Offset(m, b) <= n
    ensures m <= CeilDiv(n, b)
    ensures m == CeilDiv(Offset(m, b), b)
  {
    RoundsWithin(n, b, m);
    RoundsCount(b, m);
  }

  lemma RoundsWithin(n: nat, b: nat, m: nat)
    requires b > 0 && Offset(m, b) <= n
    ensures m <= CeilDiv(n, b)
  {
    var c := CeilDiv(n, b);
    if m > c {
      OffsetMonotone(c, m - 1, b);
    }
  }

  lemma RoundsCount(b: nat, m: nat)
    requires b > 0
    ensures CeilDiv(Offset(m, b), b) == m
  {
    if m > 0 {
      OffsetMonotone(m - 1, m, b);
    }
    CeilDivUnique(Offset(m, b), b, m);
  }

  /** A full batch that ends within the first `n` parameters is the same
      batch in the partition of those `n` parameters. */
  lemma SameFullBatch<K>(params: seq<K>, b: nat, k: nat, n: nat)
    requires b > 0 && Offset(k, b) + b <= n <= |params|
    requires k < CeilDiv(|params|, b) && k < CeilDiv(n, b)
    ensures Batches(params, b)[k] == Batches(params[..n], b)[k]
  {
    BatchIs(params, b, k);
    BatchIs(params[..n], b, k);
  }

  /** Future `k` calls the batch function on batch `k` and returns its
      outcome unchanged; every future holds its own batch. */
  function Futures<K, V, E>(batches: seq<seq<K>>, fn: seq<K> -> Outcome<V, E>): (futures: seq<Future<V, E>>)
    ensures |futures| == |batches|
    ensures forall k :: 0 <= k < |batches| ==> futures[k]() == fn(batches[k])
  {
    seq(|batches|, k requires 0 <= k < |batches| => () => fn(batches[k]))
  }

  /** `ScattergatherWithInputParams(params, batchSize, fn)` when the
      goroutines complete in `order`. */
  function ScattergatherWithInputParams<K, V, E>(
    params: seq<K>, batchSize: int, fn: seq<K> -> Outcome<V, E>, order: seq<nat>
  ): (r: Outcome<V, ScatterError<E>>)
    requires batchSize > 0 ==> IsPermutation(order, CeilDiv(|params|, batchSize))
    // A non-positive batch size is rejected before anything else happens.
    ensures batchSize <= 0 ==> r == Err(InvalidBatchSize)
    // Otherwise the call succeeds exactly when fn succeeds on every batch ...
    ensures batchSize > 0 ==>
      (r.Ok? <==> forall k :: 0 <= k < CeilDiv(|params|, batchSize) ==> fn(Batches(params, batchSize)[k]).Ok?)
    // ... and then yields fn's results appended batch by batch in completion
    // order, which is the union of fn's results over all batches ...
    ensures batchSize > 0 && r.Ok? ==>
      (InRange(order, CeilDiv(|params|, batchSize))
       && r.values == Concat(Reorder(Contributions(Invoke(Futures(Batches(params, batchSize), fn))), order)))
    ensures batchSize > 0 && r.Ok? ==>
      multiset(r.values) == multiset(Concat(Contributions(Invoke(Futures(Batches(params, batchSize), fn)))))
    // ... and otherwise the error fn returned on one of the batches.
    ensures batchSize > 0 && r.Err? ==>
      exists k :: 0 <= k < CeilDiv(|params|, batchSize)
        && fn(Batches(params, batchSize)[k]).Err? && r.error == UnitError(fn(Batches(params, batchSize)[k]).error)
  {
    if batchSize <= 0 then Err(InvalidBatchSize)
    else
      var futures := Futures(Batches(params, batchSize), fn);
      var gathered := ScattergatherWithFuncs(futures, order);
      assert gathered.Err? ==> exists k :: 0 <= k < |futures| && futures[k]() == Err(gathered.error);
      Lift(gathered)
  }

  /** `fn` succeeds on every batch and maps each of its parameters to one
      result with `f`. */
  ghost predicate MapsPerItem<K, V, E>(batches: seq<seq<K>>, fn: seq<K> -> Outcome<V, E>, f: K -> V)
  {
    forall k :: 0 <= k < |batches| ==> fn(batches[k]) == Ok(MapSeq(f, batches[k]))
  }

  /** The contribution of every batch, when `fn` maps each parameter of it
      to one result with `f`. */
  lemma PerItemContributions<K, V, E>(batches: seq<seq<K>>, fn: seq<K> -> Outcome<V, E>, f: K -> V)
    requires MapsPerItem(batches, fn, f)
    ensures Contributions(Invoke(Futures(batches, fn)))
         == seq(|batches|, k requires 0 <= k < |batches| => MapSeq(f, batches[k]))
  {
  }

  /** When `fn` succeeds on every batch and maps each parameter to one result
      with `f` (as the batch functions of the package's tests do), the call
      succeeds with exactly the results of mapping `f` over the parameters,
      counted with multiplicity, whatever the completion order. */
  lemma PerItemMapGathersAll<K, V, E>(
    params: seq<K>, batchSize: int, fn: seq<K> -> Outcome<V, E>, f: K -> V, order: seq<nat>
  )
    requires batchSize > 0 && IsPermutation(order, CeilDiv(|params|, batchSize))
    requires MapsPerItem(Batches(params, batchSize), fn, f)
    ensures ScattergatherWithInputParams(params, batchSize, fn, order).Ok?
    ensures multiset(ScattergatherWithInputParams(params, batchSize, fn, order).values) == multiset(MapSeq(f, params))
  {
    var bs := Batches(params, batchSize);
    PerItemContributions(bs, fn, f);
    ConcatMapSeq(f, bs);
    ConcatBatches(params, batchSize);
  }

  /** Under the same batch function, when the batches complete in input
      order the results are exactly the mapped parameters, in order. */
  lemma PerItemMapInInputOrder<K, V, E>(
    params: seq<K>, batchSize: int, fn: seq<K> -> Outcome<V, E>, f: K -> V, order: seq<nat>
  )
    requires batchSize > 0 && order == Indices(CeilDiv(|params|, batchSize))
    requires MapsPerItem(Batches(params, batchSize), fn, f)
    ensures IsPermutation(order, CeilDiv(|params|, batchSize))
    ensures ScattergatherWithInputParams(params, batchSize, fn, order) == Ok(MapSeq(f, params))
  {
    var bs := Batches(params, batchSize);
    PerItemContributions(bs, fn, f);
    ConcatMapSeq(f, bs);
    ConcatBatches(params, batchSize);
    ReorderIdentity(Contributions(Invoke(Futures(bs, fn))));
  }

  /** With no parameters and a valid batch size, no future is built and the
      call returns no results and no error, whatever `fn` would do. */
  lemma NoParams<K, V, E>(params: seq<K>, batchSize: int, fn: seq<K> -> Outcome<V, E>, order: seq<nat>)
    requires |params| == 0 && batchSize > 0 && IsPermutation(order, CeilDiv(0, batchSize))
    ensures |Batches(params, batchSize)| == 0
    ensures ScattergatherWithInputParams(params, batchSize, fn, order) == Ok([])
  {
  }
}
