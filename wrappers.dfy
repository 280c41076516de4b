/** Option, Result and Outcome values standing for Rust's `Option`, `anyhow::Result`
    and `Result<()>`. Errors carry the message the source reports. */
module Wrappers {

  datatype Option<+T> = None | Some(value: T) {

    /** `unwrap_or(default)` / `unwrap_or_default()` with the default made explicit. */
    function UnwrapOr(default: T): T {
      match this
      case Some(v) => v
      case None => default
    }
  }

  datatype Result<+T> = Ok(value: T) | Err(error: string) {

    /** `unwrap_or(default)` / `unwrap_or_default()` with the default made explicit. */
    function UnwrapOr(default: T): T {
      match this
      case Ok(v) => v
      case Err(_) => default
    }

    predicate IsFailure() {
      Err?
    }

    function PropagateFailure<U>(): Result<U>
      requires Err?
    {
      Err(error)
    }

    function Extract(): T
      requires Ok?
    {
      value
    }
  }

  datatype Outcome = Pass | Fail(error: string)
}
