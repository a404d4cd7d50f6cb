/** Plain wrapper datatypes shared by the model: an optional value and a
    result that is either a value or an error description. */
module Wrappers {

  datatype Option<+T> = None | Some(value: T)

  datatype Result<+T, +E> = Ok(value: T) | Err(error: E)
}
