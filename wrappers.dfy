/** Failure-carrying results: the model's stand-in for the exceptions
    (NGRAPH_CHECK, unsupported_op, std::out_of_range) that the C++ code throws. */
module Wrappers {

  /** A computation that either yields a value or reports an error. */
  datatype Result<+T, +E> = Ok(value: T) | Err(error: E)

  /** A computation that yields nothing but may report an error. */
  datatype Outcome<+E> = Pass | Fail(error: E)
}
