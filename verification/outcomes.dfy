/** The value shapes the scatter-gather library passes around: the
    `([]T, error)` pair every future and both entry points return, the
    optional "first error" the error group records, and the error values the
    batch partitioner can report. */
module Outcomes {

  /** An optional value; `None` plays the role of Go's `nil` error. */
  datatype Option<+T> = None | Some(value: T)

  /** The outcome of a future or of a whole scatter-gather call: either a
      slice of results and a nil error, or a non-nil error. Any result slice
      returned next to a non-nil error is ignored, so it is not modelled. */
  datatype Outcome<+T, +E> = Ok(values: seq<T>) | Err(error: E)

  /** The errors of the batch partitioner. `InvalidBatchSize` is the
      package-level sentinel `ErrInvalidBatchSize`; `UnitError` tags an error
      that some batch function returned and that is passed on unchanged. */
  datatype ScatterError<+E> = InvalidBatchSize | UnitError(cause: E)

  /** The text the sentinel error carries. */
  const InvalidBatchSizeMessage: string := "batch size must be great than zero"

  /** The text of a partitioner error (`err.Error()` in Go). The sentinel
      has its own fixed text. A unit error is the batch function's error
      itself, so its text is whatever `causeText` gives for it. */
  function Message<E>(e: ScatterError<E>, causeText: E -> string): (r: string)
    ensures e.InvalidBatchSize? ==> r == InvalidBatchSizeMessage
    ensures e.UnitError? ==> r == causeText(e.cause)
  {
    match e
    case InvalidBatchSize => InvalidBatchSizeMessage
    case UnitError(cause) => causeText(cause)
  }

  /** Passes an executor outcome on to the caller of the partitioner:
      results untouched, a unit error tagged as such. */
  function Lift<T, E>(o: Outcome<T, E>): (r: Outcome<T, ScatterError<E>>)
    ensures r.Ok? <==> o.Ok?
    ensures r.Ok? ==> r.values == o.values
    ensures r.Err? ==> r.error == UnitError(o.error)
  {
    match o
    case Ok(vs) => Ok(vs)
    case Err(e) => Err(UnitError(e))
  }
}
