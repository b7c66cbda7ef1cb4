/** `AuthServiceImpl`: registration with an e-mailed one-time code, code
    verification, login, and the three password flows. Token signing is a
    parameter of `Login`; `RefreshToken` is not part of this model. */
module AuthService {
  import opened Wrappers
  import opened Models
  import opened Tables
  import opened Redis
  import opened SendOtpService
  import opened Passwords
  import opened AccountRepository

  datatype Tokens = Tokens(access: string, refresh: string)
  datatype Session = Session(account: AccountRow, tokens: Tokens)

  /** The decision `Login` makes once the e-mail lookup has returned, check
      by check in the order of the Go code. `checkLock` says whether the
      locked-account check is made. */
  function LoginOutcome(found: Ret<Option<AccountRow>>, password: string, compare: (string, string) -> bool,
                        generate: AccountRow -> Option<Tokens>, checkLock: bool): Ret<Option<Session>> {
    if !found.IsOk() then Fail(None, LookupFailed)
    else if found.value.None? then Fail(None, AccountNotFound)
    else
      var a := found.value.value;
      if !a.isVerified then Fail(None, AccountNotVerified)
      else if checkLock && !a.accountStatus then Fail(None, AccountLocked)
      else if !compare(a.password, password) then Fail(None, WrongPassword)
      else if generate(a).None? then Fail(None, TokenFailed)
      else Ok(Some(Session(a, generate(a).value)))
  }

  /** Tokens are issued exactly to a found, verified, (when checked)
      unlocked account whose hash matches the password, and they are the
      tokens signed for that account. */
  lemma LoginSucceedsIff(found: Ret<Option<AccountRow>>, password: string, compare: (string, string) -> bool,
                         generate: AccountRow -> Option<Tokens>, checkLock: bool)
    ensures var r := LoginOutcome(found, password, compare, generate, checkLock);
      r.IsOk() <==>
        found.IsOk() && found.value.Some? && found.value.value.isVerified &&
        (checkLock ==> found.value.value.accountStatus) &&
        compare(found.value.value.password, password) && generate(found.value.value).Some?
    ensures var r := LoginOutcome(found, password, compare, generate, checkLock);
      r.IsOk() ==> r.value == Some(Session(found.value.value, generate(found.value.value).value))
    ensures var r := LoginOutcome(found, password, compare, generate, checkLock);
      !r.IsOk() ==> r.value.None?
  {
  }

  /** The order of the checks: an unverified account is reported as such
      whatever its lock and password; a verified locked account is reported
      locked whatever the password. */
  lemma LoginCheckOrder(a: AccountRow, password: string, compare: (string, string) -> bool, generate: AccountRow -> Option<Tokens>)
    ensures !a.isVerified ==> LoginOutcome(Ok(Some(a)), password, compare, generate, true).err == Some(AccountNotVerified)
    ensures a.isVerified && !a.accountStatus ==> LoginOutcome(Ok(Some(a)), password, compare, generate, true).err == Some(AccountLocked)
    ensures a.isVerified && a.accountStatus && !compare(a.password, password) ==>
      LoginOutcome(Ok(Some(a)), password, compare, generate, true).err == Some(WrongPassword)
  {
  }

  /** With the hash-failure finding's as-written `HashPassword`, an account
      whose password bcrypt refused is stored with the empty hash; since
      bcrypt accepts no password against a hash that short, such an account
      can never log in. */
  lemma EmptyHashLocksOut(a: AccountRow, password: string, compare: (string, string) -> bool, generate: AccountRow -> Option<Tokens>)
    requires a.password == "" && a.isVerified && a.accountStatus
    requires forall p :: !compare("", p)
    ensures LoginOutcome(Ok(Some(a)), password, compare, generate, true) == Fail(None, WrongPassword)
  {
    assert !compare(a.password, password);
  }

  class AuthService {
    const accounts: AccountRepository
    const otp: SendOTPService
    const bcrypt: string -> Option<string>
    /** Whether `utils.HashPassword` is the helper as shipped, which turns
        a refused password into the empty hash, or the corrected one. */
    const asWritten: bool
    const compare: (string, string) -> bool

    constructor (accounts: AccountRepository, otp: SendOTPService, bcrypt: string -> Option<string>, asWritten: bool, compare: (string, string) -> bool)
      ensures this.accounts == accounts && this.otp == otp && this.bcrypt == bcrypt && this.asWritten == asWritten && this.compare == compare
    {
      this.accounts, this.otp, this.bcrypt, this.asWritten, this.compare := accounts, otp, bcrypt, asWritten, compare;
    }

    /** `RegisterAccount`: refuses a known address, hashes the password
        into the struct, creates the account, then stores and mails a code
        drawn as `draw`. Each step's failure stops the flow. */
    method RegisterAccount(account: Account, newId: Uuid, now: Time, draw: int,
                           lookupFails: bool, createFails: bool, storeFails: bool, sendFails: bool)
      returns (err: Option<Error>)
      requires newId != Nil && 0 <= draw < CodeSpace
      modifies account, accounts.db`accounts, otp.redisStore, otp.mailer
      ensures var known := Find(old(accounts.db.accounts), AccountEmail, old(account.email));
        lookupFails || known.Some? || !ServiceHash(bcrypt, asWritten, old(account.password)).IsOk() ==>
          account.Row() == old(account.Row()) && accounts.db.accounts == old(accounts.db.accounts) &&
          otp.redisStore.kv == old(otp.redisStore.kv) && otp.mailer.outbox == old(otp.mailer.outbox) &&
          err == Some(if lookupFails then DriverError else if known.Some? then AccountExists else HashFailed)
      ensures var known := Find(old(accounts.db.accounts), AccountEmail, old(account.email));
        !lookupFails && known.None? && ServiceHash(bcrypt, asWritten, old(account.password)).IsOk() ==>
          account.Row() == AccountStored(AccountCreated(old(account.Row()).(password := ServiceHash(bcrypt, asWritten, old(account.password)).value), newId), now) &&
          accounts.db.accounts == InsertAccount(old(accounts.db.accounts), account.Row(), createFails).value
      ensures var known := Find(old(accounts.db.accounts), AccountEmail, old(account.email));
        var created := InsertAccount(old(accounts.db.accounts), account.Row(), createFails);
        !lookupFails && known.None? && ServiceHash(bcrypt, asWritten, old(account.password)).IsOk() && !created.IsOk() ==>
          err == Some(CreateFailed) && otp.redisStore.kv == old(otp.redisStore.kv) && otp.mailer.outbox == old(otp.mailer.outbox)
      ensures var known := Find(old(accounts.db.accounts), AccountEmail, old(account.email));
        var created := InsertAccount(old(accounts.db.accounts), account.Row(), createFails);
        var code := GenerateOTP(draw);
        !lookupFails && known.None? && ServiceHash(bcrypt, asWritten, old(account.password)).IsOk() && created.IsOk() ==>
          otp.redisStore.kv == (if storeFails then old(otp.redisStore.kv) else old(otp.redisStore.kv)[OtpKey(account.email) := code]) &&
          otp.mailer.outbox == (if storeFails || sendFails then old(otp.mailer.outbox) else old(otp.mailer.outbox) + [Mail(account.email, code)]) &&
          err == (if storeFails then Some(OtpStoreFailed) else if sendFails then Some(OtpSendFailed) else None)
      ensures asWritten && bcrypt(old(account.password)).None? && err.None? ==>
        account.Row().password == "" && accounts.db.accounts == old(accounts.db.accounts) + [account.Row()] &&
        otp.mailer.outbox == old(otp.mailer.outbox) + [Mail(account.email, GenerateOTP(draw))]
    {
      var existing, lookupErr := accounts.GetByEmail(account.email, lookupFails);
      if lookupErr.Some? {
        return lookupErr;
      }
      if existing.Some? {
        return Some(AccountExists);
      }
      var hashed := ServiceHash(bcrypt, asWritten, account.password);
      if !hashed.IsOk() {
        return Some(HashFailed);
      }
      account.password := hashed.value;
      var createErr := accounts.Create(account, newId, now, createFails);
      if createErr.Some? {
        return Some(CreateFailed);
      }
      err := otp.SendOTPAndStore(account.email, draw, storeFails, sendFails);
    }

    /** `VerifyOTP`: checks the code; when it matches and the caller says
        the account is not yet verified, marks every account with that
        address verified. The code stays in Redis. */
    method VerifyOTP(toEmail: string, code: string, isVerified: bool, redisFails: bool, updateFails: bool)
      returns (result: bool, err: Option<Error>)
      modifies accounts.db`accounts
      ensures var matched := !redisFails && Matches(otp.redisStore.kv, toEmail, code);
        err == (if !matched then VerifyError(otp.redisStore.kv, toEmail, code, redisFails)
                else if !isVerified && updateFails then Some(UpdateFailed) else None)
      ensures result <==> err.None?
      ensures var matched := !redisFails && Matches(otp.redisStore.kv, toEmail, code);
        accounts.db.accounts ==
          if matched && !isVerified
          then UpdateAccounts(old(accounts.db.accounts), accounts.parse, ByEmail(toEmail), SetVerified(true), updateFails).value
          else old(accounts.db.accounts)
    {
      var ok, verifyErr := otp.VerifyOTPInRedis(toEmail, code, redisFails);
      if verifyErr.Some? {
        return ok, verifyErr;
      }
      if !isVerified {
        var updateErr := accounts.Update(ByEmail(toEmail), SetVerified(true), updateFails);
        if updateErr.Some? {
          return false, Some(UpdateFailed);
        }
      }
      return ok, None;
    }

    /** `Login`, with the locked-account check. */
    method Login(email: string, password: string, lookupFails: bool, generate: AccountRow -> Option<Tokens>)
      returns (account: Option<AccountRow>, accessToken: string, refreshToken: string, err: Option<Error>)
      ensures var r := LoginOutcome(LookupKey(accounts.db.accounts, AccountEmail, email, lookupFails), password, compare, generate, true);
        err == r.err &&
        (r.IsOk() ==> account == Some(r.value.value.account) && accessToken == r.value.value.tokens.access &&
                      refreshToken == r.value.value.tokens.refresh) &&
        (!r.IsOk() ==> account.None? && accessToken == "" && refreshToken == "")
    {
      var found, lookupErr := accounts.GetByEmail(email, lookupFails);
      if lookupErr.Some? {
        return None, "", "", Some(LookupFailed);
      }
      if found.None? {
        return None, "", "", Some(AccountNotFound);
      }
      var a := found.value;
      if !a.isVerified {
        return None, "", "", Some(AccountNotVerified);
      }
      if !a.accountStatus {
        return None, "", "", Some(AccountLocked);
      }
      if !compare(a.password, password) {
        return None, "", "", Some(WrongPassword);
      }
      var tokens := generate(a);
      if tokens.None? {
        return None, "", "", Some(TokenFailed);
      }
      return found, tokens.value.access, tokens.value.refresh, None;
    }

    /** `ForgotPassowrd`: mails a new code to a known address. */
    method ForgotPassowrd(email: string, draw: int, lookupFails: bool, storeFails: bool, sendFails: bool)
      returns (ok: bool, err: Option<Error>)
      requires 0 <= draw < CodeSpace
      modifies otp.redisStore, otp.mailer
      ensures var known := Find(accounts.db.accounts, AccountEmail, email);
        var code := GenerateOTP(draw);
        var sent := !lookupFails && known.Some?;
        otp.redisStore.kv == (if sent && !storeFails then old(otp.redisStore.kv)[OtpKey(email) := code] else old(otp.redisStore.kv)) &&
        otp.mailer.outbox == (if sent && !storeFails && !sendFails then old(otp.mailer.outbox) + [Mail(email, code)] else old(otp.mailer.outbox)) &&
        err == (if lookupFails then Some(LookupFailed) else if known.None? then Some(AccountNotFound)
                else if storeFails || sendFails then Some(OtpDeliveryFailed) else None)
      ensures ok <==> err.None?
    {
      var found, lookupErr := accounts.GetByEmail(email, lookupFails);
      if lookupErr.Some? {
        return false, Some(LookupFailed);
      }
      if found.None? {
        return false, Some(AccountNotFound);
      }
      var sendErr := otp.SendOTPAndStore(email, draw, storeFails, sendFails);
      if sendErr.Some? {
        return false, Some(OtpDeliveryFailed);
      }
      return true, None;
    }

    /** `ResetPassword`: stores the hash of the new password on every
        account with the address. */
    method ResetPassword(email: string, password: string, lookupFails: bool, updateFails: bool) returns (err: Option<Error>)
      modifies accounts.db`accounts
      ensures var known := Find(old(accounts.db.accounts), AccountEmail, email);
        var reached := !lookupFails && known.Some? && ServiceHash(bcrypt, asWritten, password).IsOk();
        accounts.db.accounts ==
          (if reached
           then UpdateAccounts(old(accounts.db.accounts), accounts.parse, ByEmail(email), SetPasswordHash(ServiceHash(bcrypt, asWritten, password).value), updateFails).value
           else old(accounts.db.accounts)) &&
        err == (if lookupFails then Some(LookupFailed) else if known.None? then Some(AccountNotFound)
                else if !ServiceHash(bcrypt, asWritten, password).IsOk() then Some(HashFailed) else if updateFails then Some(UpdateFailed) else None)
      ensures err.None? ==> forall r :: r in accounts.db.accounts && r.email == email ==> r.password == ServiceHash(bcrypt, asWritten, password).value
      ensures asWritten && bcrypt(password).None? && err.None? ==>
        forall r :: r in accounts.db.accounts && r.email == email ==> r.password == ""
    {
      var found, lookupErr := accounts.GetByEmail(email, lookupFails);
      if lookupErr.Some? {
        return Some(LookupFailed);
      }
      if found.None? {
        return Some(AccountNotFound);
      }
      var hashed := ServiceHash(bcrypt, asWritten, password);
      if !hashed.IsOk() {
        return Some(HashFailed);
      }
      ghost var before := accounts.db.accounts;
      var updateErr := accounts.Update(ByEmail(email), SetPasswordHash(hashed.value), updateFails);
      if updateErr.Some? {
        return Some(UpdateFailed);
      }
      UpdateAccountsSpec(before, accounts.parse, ByEmail(email), SetPasswordHash(hashed.value), updateFails);
      err := None;
    }

    /** `ChangePassword`. `common.RequestChangePassword` declares only
        `NewPassword`; the old password the Go code compares is a parameter
        here. */
    method ChangePassword(id: string, oldPassword: string, newPassword: string, lookupFails: bool, updateFails: bool)
      returns (err: Option<Error>)
      modifies accounts.db`accounts
      ensures var found := LookupById(old(accounts.db.accounts), accounts.parse, id, lookupFails);
        var reached := found.IsOk() && found.value.Some? && compare(found.value.value.password, oldPassword) && ServiceHash(bcrypt, asWritten, newPassword).IsOk();
        accounts.db.accounts ==
          (if reached
           then UpdateAccounts(old(accounts.db.accounts), accounts.parse, ById(id), SetPasswordHash(ServiceHash(bcrypt, asWritten, newPassword).value), updateFails).value
           else old(accounts.db.accounts)) &&
        err == (if !found.IsOk() then Some(LookupFailed) else if found.value.None? then Some(AccountNotFound)
                else if !compare(found.value.value.password, oldPassword) then Some(WrongPassword)
                else if !ServiceHash(bcrypt, asWritten, newPassword).IsOk() then Some(HashFailed) else if updateFails then Some(UpdateFailed) else None)
      ensures err.None? ==> forall r :: r in accounts.db.accounts && accounts.parse(id) == Some(r.id) ==> r.password == ServiceHash(bcrypt, asWritten, newPassword).value
      ensures asWritten && bcrypt(newPassword).None? && err.None? ==>
        forall r :: r in accounts.db.accounts && accounts.parse(id) == Some(r.id) ==> r.password == ""
    {
      var found, lookupErr := accounts.GetAccountById(id, lookupFails);
      if lookupErr.Some? {
        return Some(LookupFailed);
      }
      if found.None? {
        return Some(AccountNotFound);
      }
      if !compare(found.value.password, oldPassword) {
        return Some(WrongPassword);
      }
      var hashed := ServiceHash(bcrypt, asWritten, newPassword);
      if !hashed.IsOk() {
        return Some(HashFailed);
      }
      ghost var before := accounts.db.accounts;
      var updateErr := accounts.Update(ById(id), SetPasswordHash(hashed.value), updateFails);
      if updateErr.Some? {
        return Some(UpdateFailed);
      }
      UpdateAccountsSpec(before, accounts.parse, ById(id), SetPasswordHash(hashed.value), updateFails);
      err := None;
    }
  }
}
