/** The exceptions the service code throws, and the wrappers used to carry
    either a value or one of them. */
module Exceptions {

  datatype Option<+T> = None | Some(value: T)

  datatype Result<+T, +E> = Ok(value: T) | Err(error: E)

  /** One constructor per exception class thrown by the core: the four
      NestJS HTTP exceptions and the plain JavaScript `Error`. */
  datatype Error =
    | NotFound(message: string)
    | BadRequest(message: string)
    | Unauthorized(message: string)
    | InternalServerError(message: string)
    | GenericError(message: string)
}
