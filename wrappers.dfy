/** Shared result shapes and the error kinds of the application.

    Go functions in the modelled code return `(value, error)`. The pure
    functions of the model return a `Ret`, which keeps both halves, because
    the Go code returns a meaningful value (the empty enum, `false`) next to
    the error. Methods return the two halves as two out-parameters. */
module Wrappers {

  datatype Option<+T> = None | Some(value: T) {
    function GetOr(default: T): T {
      match this
      case Some(v) => v
      case None => default
    }
  }

  /** The kinds of error the modelled code produces. Messages are not modelled. */
  datatype Error =
    // enum codecs
    | InvalidValue(kind: string, input: string)
    | InvalidScanType(kind: string)
    | InvalidJson(kind: string)
    // persistence
    | DriverError
    | RecordNotFound
    | DuplicateKey
    | UndefinedColumn(column: string)
    | EmptySlice
    | InvalidUuidText
    // Redis and e-mail
    | RedisError
    | SmtpError
    | OtpStoreFailed
    | OtpSendFailed
    | OtpVerifyFailed
    | OtpInvalid
    | OtpDeliveryFailed
    // accounts
    | AccountExists
    | AccountNotFound
    | AccountNotVerified
    | AccountLocked
    | WrongPassword
    | TokenFailed
    | UpdateFailed
    | CreateFailed
    | LookupFailed
    // uploads
    | FileMissing
    | FileTooLarge
    | ExtensionNotAllowed
    | DirectoryNotCreated
    | FileNotSaved
    // passwords
    | HashFailed
    // levels
    | ProgramIdUnparsable
    | ProgramNotFound

  /** Go's `(value, error)` pair. */
  datatype Ret<+T> = Ret(value: T, err: Option<Error>) {
    predicate IsOk() { err.None? }
  }

  function Ok<T>(v: T): Ret<T> {
    Ret(v, None)
  }

  function Fail<T>(zero: T, e: Error): Ret<T> {
    Ret(zero, Some(e))
  }
}
