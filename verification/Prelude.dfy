/** Result types shared by the models: a Go (value, error) pair or a nullable value. */
module Prelude {

  datatype Option<+T> = None | Some(value: T)

  datatype Result<+R, +E> = Ok(value: R) | Err(error: E)
}
