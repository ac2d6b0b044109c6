/** Option and Result values for the model: `None` stands for JavaScript's
    `undefined`/`NaN`, `Err` for an exception thrown out of an operation. */
module Wrappers {

  datatype Option<+T> = None | Some(value: T)

  datatype Result<+T, +E> = Ok(value: T) | Err(error: E)
}
