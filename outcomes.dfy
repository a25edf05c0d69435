/** Optional values and success-or-error results, used in place of nullable
    references and of the exceptions and flash messages of the web layer. */
module Outcomes {

  datatype Option<+T> = None | Some(value: T)

  datatype Result<+T, +E> = Ok(value: T) | Err(error: E)
}
