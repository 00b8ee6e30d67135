/** The library's error codes and the optional values that stand for nullable pointers. */
module Errors {
  datatype Error =
    | NONE
    | GENERIC
    | NOT_SUPPORTED
    | NOT_PERMITTED
    | INVALID_DATA
    | INVALID_SIZE
    | INVALID_ARG
    | BAD_STATE

  datatype Option<+T> = None | Some(value: T)
}
