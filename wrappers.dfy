/** The optional value and the thrown-error result used throughout the model. */
module Wrappers {

  /** `T | null` in the source: `None` stands for `null` (or an absent storage key). */
  datatype Option<+T> = None | Some(value: T)

  /**
   * The outcome of an operation that may throw: `Ok` carries the value the
   * promise resolves to, `Err` the `message` of the `Error` it rejects with.
   */
  datatype Result<+T> = Ok(value: T) | Err(message: string)
}
