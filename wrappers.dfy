/** Option and Result, the failure-carrying values used throughout the model. */
module Wrappers {

  datatype Option<+T> = None | Some(value: T)

  datatype Result<+R, +E> = Success(value: R) | Failure(error: E)

  /** The ways `generate_embryo_list` panics instead of returning a list. */
  datatype Abort =
    | UnparsableRequest   // the request body is not a JSON object of strings (`expect("Can't parse JSON")`)
    | UnparsableTimeout   // `timeout` is present but is not a `u64` (`expect("Can't parse as u64")`)
    | NoBindingsArray     // the reply has no `results.bindings` array (`unwrap` on `as_array`)
    | NoUrlValue          // a binding has no string `url.value` (`unwrap` on `as_str`)
    | NoAbstractValue     // a binding has no string `abstract.value` (`unwrap` on `as_str`)
}
