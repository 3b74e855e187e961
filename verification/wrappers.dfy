/** The failure-carrying result type used where the source returns a value
    together with an `error`: exactly one of the two is meaningful. */
module Wrappers {

  /** `Success(v)` stands for `(v, nil)`; `Failure(e)` for `(nil, e)`. */
  datatype Result<+T, +E> = Success(value: T) | Failure(error: E)
}
