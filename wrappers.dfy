/** Option and Result values used for the optional settings and for the error returns of the pipeline. */
module Wrappers {

  datatype Option<+T> = None | Some(value: T)

  datatype Result<+R, +E> = Success(value: R) | Failure(error: E)
}

/** The ways a run of the pipeline can fail. */
module Errors {

  /** Which of the two dimension settings a configuration error concerns. */
  datatype Axis = Height | Width

  datatype Error =
    /** `NewHeight`/`NewWidth` held neither an int nor a float64: the source panics. */
    | Panicked(axis: Axis)
    /** An error returned by a collaborator (resizer, detector, triangulator), passed through unchanged. */
    | External(message: string)
}
