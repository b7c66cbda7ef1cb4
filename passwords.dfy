/** `HashPassword` and `ComparePasswordHash`. bcrypt itself is a parameter:
    `bcrypt(p)` is the hash `bcrypt.GenerateFromPassword` returns for `p`,
    or `None` when it refuses the password (golang.org/x/crypto rejects
    passwords longer than 72 bytes). */
module Passwords {
  import opened Wrappers

  /** `HashPassword` as written: a bcrypt failure is returned as the empty
      hash with a nil error. */
  function HashPasswordAsWritten(bcrypt: string -> Option<string>, password: string): (r: Ret<string>)
    ensures r.IsOk()
    ensures bcrypt(password).Some? ==> r.value == bcrypt(password).value
    ensures bcrypt(password).None? ==> r.value == ""
  {
    Ok(bcrypt(password).GetOr(""))
  }

  /** `HashPassword` returning bcrypt's error, as its callers expect: each
      of them checks the error before storing the hash. */
  function HashPassword(bcrypt: string -> Option<string>, password: string): (r: Ret<string>)
    ensures r.IsOk() <==> bcrypt(password).Some?
    ensures r.IsOk() ==> r.value == bcrypt(password).value
    ensures !r.IsOk() ==> r == Fail("", HashFailed)
  {
    match bcrypt(password)
    case Some(h) => Ok(h)
    case None => Fail("", HashFailed)
  }

  /** The hash a service's call to `HashPassword` yields. With `asWritten`,
      the helper as shipped, it never fails, and a password bcrypt refuses
      gets the empty hash, which the service then stores; otherwise it is
      the corrected helper, whose failure stops the service. */
  function ServiceHash(bcrypt: string -> Option<string>, asWritten: bool, password: string): (r: Ret<string>)
    ensures r.IsOk() <==> asWritten || bcrypt(password).Some?
    ensures r.IsOk() ==> r.value == bcrypt(password).GetOr("")
    ensures !r.IsOk() ==> r == Fail("", HashFailed)
  {
    if asWritten then HashPasswordAsWritten(bcrypt, password) else HashPassword(bcrypt, password)
  }

  /** The two agree whenever bcrypt succeeds; when it fails, the code as
      written reports success with an empty hash. */
  lemma HashFailureSwallowed(bcrypt: string -> Option<string>, password: string)
    ensures bcrypt(password).Some? ==> HashPasswordAsWritten(bcrypt, password) == HashPassword(bcrypt, password)
    ensures bcrypt(password).None? ==>
      HashPasswordAsWritten(bcrypt, password) == Ok("") && HashPassword(bcrypt, password) == Fail("", HashFailed)
  {
  }
}
