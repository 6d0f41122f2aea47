/** Optional values and results with an error, as Swift's `T?` and `throws` are modelled here. */
module Wrappers {

  datatype Option<+T> = None | Some(value: T)

  datatype Result<+T, +E> = Success(value: T) | Failure(error: E)
}

/** The errors the core throws. */
module Failures {

  /** `Reading` is `RowSet.Error.reading`; `Binding` and `IsFinalized` are
      `Statement.Error.binding` and `Statement.Error.isFinalized`. */
  datatype Error = Reading | Binding | IsFinalized
}
