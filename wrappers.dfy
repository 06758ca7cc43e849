/** Small value wrappers used across the model. */
module Wrappers {

  /** An optional value: JavaScript's `undefined` versus a present value. */
  datatype Option<+T> = None | Some(value: T) {
    function GetOr(default: T): T {
      match this
      case Some(v) => v
      case None => default
    }
  }

  /** The outcome of an operation that may throw: a value or the thrown message. */
  datatype Result<+R> = Ok(value: R) | Err(message: string)

  /** One property of a partial update (`Partial<T>` in the store APIs):
      either left as it is, or overwritten with the supplied value. */
  datatype Patch<+T> = Keep | Set(value: T) {
    function ApplyTo(current: T): T {
      match this
      case Keep => current
      case Set(v) => v
    }
  }
}
