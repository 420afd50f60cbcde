# scatter-gather, modelled in Dafny

A model of the Go package `scattergather` (tuyentv96/scatter-gather). It has two
entry points.

- `ScattergatherWithFuncs(futures)` runs every future in its own goroutine under
  an error group. Each successful, non-empty result slice is appended to one
  mutex-guarded slice. The call returns the error the group recorded first, or
  else the gathered slice.
- `ScattergatherWithInputParams(params, batchSize, fn)` rejects a non-positive
  batch size with `ErrInvalidBatchSize`. Otherwise it cuts `params` into
  consecutive batches of `batchSize` items, the last one possibly shorter. It
  wraps each batch with `fn` in a future and hands the futures to
  `ScattergatherWithFuncs`.

Concurrency is replaced by an explicit completion order. `order` is a
permutation of the future indices saying in which order the goroutines finished.
One order accounts for both the appends made under the mutex and the error
group's "first error wins", because a failing goroutine never appends and a
succeeding one never records an error. Every contract of the executor and
the partitioner holds for every completion order.
`Partitioner.PerItemMapInInputOrder` and `Scenarios.GatherPairsInInputOrder`
are the exceptions: they fix the input order and state the exact result
sequence for it.

Modules, one per file:

- `Outcomes` (outcomes.dfy): the `([]T, error)` pair as `Outcome`, the optional
  first error, and the partitioner's errors `ScatterError`. The sentinel is
  `InvalidBatchSize`, and `Message` gives its text,
  `InvalidBatchSizeMessage`.
- `Sequences` (sequences.dfy): concatenation of slices, picking slices along an
  index order, permutations, and mapping a function over a slice.
- `Executor` (executor.dfy): `ScattergatherWithFuncs` as a left fold of the
  shared state (`Shared`: the result slice and the first error) over the
  completion order.
- `Partitioner` (partitioner.dfy): the partition loop, both as the loop
  (`Partition`) and as a closed-form reference (`Batches`), together with the
  whole of `ScattergatherWithInputParams`.
- `Scenarios` (scenarios.dfy): the package's own test scenarios. They are
  stated for every completion order, except `GatherPairsInInputOrder`, which
  fixes the input order.

## Model

| member | source | states |
|---|---|---|
| Outcomes.Lift | scatter_gather.go:68 | The partitioner passes the executor's outcome on unchanged: success with the same results, or the same unit error. |
| Outcomes.Message | scatter_gather.go:12 | The sentinel's text is "batch size must be great than zero". A unit error keeps the batch function's own text. |
| Executor.Complete | scatter_gather.go:24-37 | One goroutine run on the shared state. The result slice grows by exactly the unit's results, so skipping an empty slice is the same as appending it. An error is recorded only when none was recorded before, and a recorded error is never replaced. |
| Executor.RunInOrder | scatter_gather.go:22-38 | After the units of an order complete, the shared slice is every successful unit's results in completion order, each unit's own order kept, including units that finish after a failure. An error is recorded iff some completed unit failed, and it is the error of the first unit to fail in that order. |
| Executor.RunAllUnits | scatter_gather.go:41-43 | Once all units have completed, no error is recorded iff every unit succeeded. A recorded error is the error of one of the units. |
| Executor.ScattergatherWithFuncs | scatter_gather.go:17-46 | Success iff every future succeeds. On success, the results are the futures' slices laid end to end in completion order, and as a multiset they are the union of all futures' results. On failure, the error is that of a failing future, namely the first to fail in completion order. |
| Executor.OrderIndependent | scatter_gather.go:17-46 | Whether the call succeeds does not depend on the completion order. Successful results from any two orders agree as multisets. |
| Executor.EmptyResultsContributeNothing | scatter_gather.go:30-34 | When every future returns an empty slice, nothing is appended and the call returns an empty result with no error. |
| Executor.NoFutures | scatter_gather.go:20-45 | With no futures, the call returns an empty result and no error. |
| Sequences.PermutedConcatMultiset | scatter_gather.go:30-33 | Appending the unit results in any completion order yields the same items, with multiplicity, as appending them in input order. |
| Partitioner.OffsetIsProduct | scatter_gather.go:61 | After k rounds of `i += b`, the loop variable is k times b. |
| Partitioner.CeilDiv | scatter_gather.go:61 | The number of loop rounds over n items is ceil(n/b): the least count of rounds whose loop variable reaches n. |
| Partitioner.CeilDivUnique | scatter_gather.go:61 | Exactly one round count reaches n while its last round still starts inside the items, and it is ceil(n/b). |
| Partitioner.BatchAt | scatter_gather.go:62 | Batch k is the slice from its loop variable to min(i+b, len). It is non-empty and no longer than b. |
| Partitioner.Batches | scatter_gather.go:61-62 | The partition has ceil(len/b) batches. |
| Partitioner.BatchIs | scatter_gather.go:62 | Batch k starts inside the parameters and is exactly `params[k*b : min(k*b+b, len)]`. |
| Partitioner.BatchesShape | scatter_gather.go:61-62 | Every batch is non-empty and at most b long. Every batch but the last is exactly b long. |
| Partitioner.ConcatBatches | scatter_gather.go:61-62 | The batches laid end to end are the parameters: no gap, no overlap, no reordering. |
| Partitioner.BatchesUnique | scatter_gather.go:61-62 | The partition is the only cut of the parameters into consecutive non-empty pieces of at most b items with all but the last exactly b long. |
| Partitioner.Partition | scatter_gather.go:61-66 | The loop `for i := 0; i < len; i += b` builds exactly ceil(len/b) batches, and they are exactly the partition. |
| Partitioner.Futures | scatter_gather.go:62-65 | Future k calls fn on its own batch k and returns fn's outcome unchanged. |
| Partitioner.ScattergatherWithInputParams | scatter_gather.go:52-69 | A non-positive batch size gives `ErrInvalidBatchSize`. Otherwise the call succeeds iff fn succeeds on every batch. On success, fn's results are appended batch by batch in completion order, and as a multiset they are the union over all batches. On failure, the error is fn's error on one of the batches. |
| Partitioner.PerItemMapGathersAll | scatter_gather.go:52-69 | If fn maps each parameter of every batch to one result, the call succeeds, and its results are the mapped parameters as a multiset, whatever the completion order. |
| Partitioner.PerItemMapInInputOrder | scatter_gather.go:52-69 | If fn maps each parameter of every batch to one result and the batches complete in input order, the call returns exactly the mapped parameters, in order. |
| Partitioner.NoParams | scatter_gather.go:61-68 | With no parameters and a valid batch size, no batch is built and the call returns an empty result with no error. |
| Scenarios.PrefixedAnimals | scatter_gather_test.go:23-36 | Prefixing "bird", "cat", "dog" and "fish" with "my " gives the expected four results. |
| Scenarios.OneBatchWhenLarger | scatter_gather_test.go:20-22 | Batch size 5 over four names gives one batch holding all four. |
| Scenarios.OneBatchWhenEqual | scatter_gather_test.go:40-42 | Batch size 4 over four names gives one batch holding all four. |
| Scenarios.TwoPairs | scatter_gather_test.go:60-62 | Batch size 2 over four names gives the batches ["bird","cat"] and ["dog","fish"]. |
| Scenarios.GatherPrefixed | scatter_gather_test.go:19-100 | With batch sizes 5, 4 and 2, the call succeeds, and for every completion order the results equal the expected ones after sorting, that is, as multisets. |
| Scenarios.GatherPairsInInputOrder | scatter_gather_test.go:59-77 | With batch size 2, when the two batches complete in input order, the results are exactly "my bird", "my cat", "my dog", "my fish", in that order. |
| Scenarios.NegativeBatchSize | scatter_gather_test.go:79-86 | Batch size -1 returns the sentinel error, whatever fn is. The error's text is "batch size must be great than zero". |
| Scenarios.AlwaysFailing | scatter_gather_test.go:105-115 | A batch function that always fails makes the call fail with exactly that error, whatever the completion order. |

## Left out

- Goroutines, `errgroup.Group` and `sync.Mutex` are not modelled; the
  completion-order parameter stands in for them. Data-race freedom and
  scheduling are outside the model.
- The `float64` round trip through `math.Min` at scatter_gather.go:62 is modelled
  as integer `Min`. The two agree whenever `len(params) <= 2^53`, which only
  slices of zero-size elements can exceed. `float64(len(params))` is then
  exact. When `i + batchSize` is too large to be exact, it rounds to at least
  2^53, and `math.Min` picks the exact length.
- The loop variable `i` is an unbounded integer. Go's `int` overflow of
  `i += batchSize` near the largest `int` is not modelled.
- Go slices alias the parameter array, and the model's batches are values.
  Whether a batch function may mutate its batch is not modelled.
- Go distinguishes a `nil` result slice from an empty one; the model does not.
  Both are the empty sequence, and a failed call carries no results at all.
- `fn` and the futures are pure functions. Side effects, panics, and the number
  of times a future is invoked are not modelled, so "fn is never called when the
  batch size is invalid" appears only as the result being independent of fn.
- A unit error reaching the partitioner's caller is wrapped as
  `UnitError(e)`, whereas Go returns the very same error value. The two
  differ observably. A batch function may itself return `ErrInvalidBatchSize`,
  for example from a nested call with a bad batch size. A Go caller then
  cannot tell that error from the up-front rejection. The model keeps the two
  apart, so in the model `Err(InvalidBatchSize)` implies `batchSize <= 0`.
- The partition loop is modelled as building the list of batches rather than
  the list of closures. `Futures` then wraps each batch, as the loop body does.
- When several units fail, which error is reported depends on the completion
  order. It is the first failure in the given order; which orders the Go
  scheduler can produce is not modelled.
