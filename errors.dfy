/** The error kinds of the core crate. */
module Errors {

  datatype AppError =
    | Database          // a SQLite failure the core does not map to anything more specific
    | NotFound
    | AlreadyExists
    | Unauthorized
    | BadRequest(message: string)
    | AuthAlreadyConfigured
}
