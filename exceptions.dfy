/** The exceptions the core throws and the boundary handles, as one closed set of kinds. */
module Exceptions {
  import opened Wrappers

  /** A rejected request field: its name and its (possibly null) default message. */
  datatype FieldError = FieldError(field: string, defaultMessage: Option<string>)

  datatype Exception =
    /** No controller is mapped to the request path. */
    | NoHandlerFound
    /** No static resource exists at the request path. */
    | NoResourceFound
    /** Bean validation rejected a request body; the field errors in binding order. */
    | MethodArgumentNotValid(fieldErrors: seq<FieldError>)
    /** IllegalArgumentException (or a subclass), with its possibly null message. */
    | IllegalArgument(message: Option<string>)
    /** Any other exception. */
    | Other(message: Option<string>)
}
