/** The optional value and the handler reply shared by the server modules. */
module Wrappers {
  datatype Option<T> = None | Some(value: T)

  /** A handler's answer: a 200 body, or the status code of an error response. */
  datatype Reply<T> = Ok(value: T) | Fail(status: int)
}
