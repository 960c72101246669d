// What a JavaScript call gives back: a value, or an exception.
module Outcomes {
  datatype Result<+T> = Ok(value: T) | Throws

  datatype Option<+T> = None | Some(value: T)
}
