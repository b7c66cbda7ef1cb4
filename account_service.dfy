/** `AccountServiceImpl`: the older account service. Registration, code
    verification and the forgotten-password flow are those of
    `AuthServiceImpl`; its `Login` makes no locked-account check. It is
    written against `internal/repositories`, whose account repository is
    taken to behave as the one in `AccountRepository`. */
module AccountService {
  import opened Wrappers
  import opened Models
  import opened Tables
  import opened Redis
  import opened SendOtpService
  import opened Passwords
  import opened AccountRepository
  import opened AuthService

  /** The two logins decide alike except on a verified, locked account:
      `AuthServiceImpl` refuses it as locked, while this service goes on to
      the password and the tokens as for an unlocked account. */
  lemma LoginIgnoresLock(found: Ret<Option<AccountRow>>, password: string, compare: (string, string) -> bool,
                         generate: AccountRow -> Option<Tokens>)
    ensures var locked := found.IsOk() && found.value.Some? && found.value.value.isVerified && !found.value.value.accountStatus;
      !locked ==> LoginOutcome(found, password, compare, generate, false) == LoginOutcome(found, password, compare, generate, true)
    ensures var locked := found.IsOk() && found.value.Some? && found.value.value.isVerified && !found.value.value.accountStatus;
      locked ==>
        LoginOutcome(found, password, compare, generate, true) == Fail(None, AccountLocked) &&
        (LoginOutcome(found, password, compare, generate, false).IsOk() <==>
           compare(found.value.value.password, password) && generate(found.value.value).Some?)
  {
  }

  class AccountService {
    const accounts: AccountRepository
    const otp: SendOTPService
    const bcrypt: string -> Option<string>
    /** Whether `utils.HashPassword` is the helper as shipped, which turns
        a refused password into the empty hash, or the corrected one. */
    const asWritten: bool
    const compare: (string, string) -> bool

    constructor (accounts: AccountRepository, otp: SendOTPService, bcrypt: string -> Option<string>, asWritten: bool, compare: (string, string) -> bool)
      ensures this.accounts == accounts && this.otp == otp && this.bcrypt == bcrypt && this.asWritten == asWritten && this.compare == compare
    {
      this.accounts, this.otp, this.bcrypt, this.asWritten, this.compare := accounts, otp, bcrypt, asWritten, compare;
    }

    /** `RegisterAccount`: refuses a known address, hashes the password
        into the struct, creates the account, then stores and mails a code
        drawn as `draw`. Each step's failure stops the flow. */
    method RegisterAccount(account: Account, newId: Uuid, now: Time, draw: int,
                           lookupFails: bool, createFails: bool, storeFails: bool, sendFails: bool)
      returns (err: Option<Error>)
      requires newId != Nil && 0 <= draw < CodeSpace
      modifies account, accounts.db`accounts, otp.redisStore, otp.mailer
      ensures var known := Find(old(accounts.db.accounts), AccountEmail, old(account.email));
        lookupFails || known.Some? || !ServiceHash(bcrypt, asWritten, old(account.password)).IsOk() ==>
          account.Row() == old(account.Row()) && accounts.db.accounts == old(accounts.db.accounts) &&
          otp.redisStore.kv == old(otp.redisStore.kv) && otp.mailer.outbox == old(otp.mailer.outbox) &&
          err == Some(if lookupFails then DriverError else if known.Some? then AccountExists else HashFailed)
      ensures var known := Find(old(accounts.db.accounts), AccountEmail, old(account.email));
        !lookupFails && known.None? && ServiceHash(bcrypt, asWritten, old(account.password)).IsOk() ==>
          account.Row() == AccountStored(AccountCreated(old(account.Row()).(password := ServiceHash(bcrypt, asWritten, old(account.password)).value), newId), now) &&
          accounts.db.accounts == InsertAccount(old(accounts.db.accounts), account.Row(), createFails).value
      ensures var known := Find(old(accounts.db.accounts), AccountEmail, old(account.email));
        var created := InsertAccount(old(accounts.db.accounts), account.Row(), createFails);
        !lookupFails && known.None? && ServiceHash(bcrypt, asWritten, old(account.password)).IsOk() && !created.IsOk() ==>
          err == Some(CreateFailed) && otp.redisStore.kv == old(otp.redisStore.kv) && otp.mailer.outbox == old(otp.mailer.outbox)
      ensures var known := Find(old(accounts.db.accounts), AccountEmail, old(account.email));
        var created := InsertAccount(old(accounts.db.accounts), account.Row(), createFails);
        var code := GenerateOTP(draw);
        !lookupFails && known.None? && ServiceHash(bcrypt, asWritten, old(account.password)).IsOk() && created.IsOk() ==>
          otp.redisStore.kv == (if storeFails then old(otp.redisStore.kv) else old(otp.redisStore.kv)[OtpKey(account.email) := code]) &&
          otp.mailer.outbox == (if storeFails || sendFails then old(otp.mailer.outbox) else old(otp.mailer.outbox) + [Mail(account.email, code)]) &&
          err == (if storeFails then Some(OtpStoreFailed) else if sendFails then Some(OtpSendFailed) else None)
      ensures asWritten && bcrypt(old(account.password)).None? && err.None? ==>
        account.Row().password == "" && accounts.db.accounts == old(accounts.db.accounts) + [account.Row()] &&
        otp.mailer.outbox == old(otp.mailer.outbox) + [Mail(account.email, GenerateOTP(draw))]
    {
      var existing, lookupErr := accounts.GetByEmail(account.email, lookupFails);
      if lookupErr.Some? {
        return lookupErr;
      }
      if existing.Some? {
        return Some(AccountExists);
      }
      var hashed := ServiceHash(bcrypt, asWritten, account.password);
      if !hashed.IsOk() {
        return Some(HashFailed);
      }
      account.password := hashed.value;
      var createErr := accounts.Create(account, newId, now, createFails);
      if createErr.Some? {
        return Some(CreateFailed);
      }
      err := otp.SendOTPAndStore(account.email, draw, storeFails, sendFails);
    }

    /** `VerifyOTP`: checks the code; when it matches and the caller says
        the account is not yet verified, marks every account with that
        address verified. The code stays in Redis. */
    method VerifyOTP(toEmail: string, code: string, isVerified: bool, redisFails: bool, updateFails: bool)
      returns (result: bool, err: Option<Error>)
      modifies accounts.db`accounts
      ensures var matched := !redisFails && Matches(otp.redisStore.kv, toEmail, code);
        err == (if !matched then VerifyError(otp.redisStore.kv, toEmail, code, redisFails)
                else if !isVerified && updateFails then Some(UpdateFailed) else None)
      ensures result <==> err.None?
      ensures var matched := !redisFails && Matches(otp.redisStore.kv, toEmail, code);
        accounts.db.accounts ==
          if matched && !isVerified
          then UpdateAccounts(old(accounts.db.accounts), accounts.parse, ByEmail(toEmail), SetVerified(true), updateFails).value
          else old(accounts.db.accounts)
    {
      var ok, verifyErr := otp.VerifyOTPInRedis(toEmail, code, redisFails);
      if verifyErr.Some? {
        return ok, verifyErr;
      }
      if !isVerified {
        var updateErr := accounts.Update(ByEmail(toEmail), SetVerified(true), updateFails);
        if updateErr.Some? {
          return false, Some(UpdateFailed);
        }
      }
      return ok, None;
    }

    /** `Login`, without the locked-account check: a locked account with
        the right password is let in. */
    method Login(email: string, password: string, lookupFails: bool, generate: AccountRow -> Option<Tokens>)
      returns (account: Option<AccountRow>, accessToken: string, refreshToken: string, err: Option<Error>)
      ensures var r := LoginOutcome(LookupKey(accounts.db.accounts, AccountEmail, email, lookupFails), password, compare, generate, false);
        err == r.err &&
        (r.IsOk() ==> account == Some(r.value.value.account) && accessToken == r.value.value.tokens.access &&
                      refreshToken == r.value.value.tokens.refresh) &&
        (!r.IsOk() ==> account.None? && accessToken == "" && refreshToken == "")
    {
      var found, lookupErr := accounts.GetByEmail(email, lookupFails);
      if lookupErr.Some? {
        return None, "", "", Some(LookupFailed);
      }
      if found.None? {
        return None, "", "", Some(AccountNotFound);
      }
      var a := found.value;
      if !a.isVerified {
        return None, "", "", Some(AccountNotVerified);
      }
      if !compare(a.password, password) {
        return None, "", "", Some(WrongPassword);
      }
      var tokens := generate(a);
      if tokens.None? {
        return None, "", "", Some(TokenFailed);
      }
      return found, tokens.value.access, tokens.value.refresh, None;
    }

    /** `ForgotPassowrd`: mails a new code to a known address. */
    method ForgotPassowrd(email: string, draw: int, lookupFails: bool, storeFails: bool, sendFails: bool)
      returns (ok: bool, err: Option<Error>)
      requires 0 <= draw < CodeSpace
      modifies otp.redisStore, otp.mailer
      ensures var known := Find(accounts.db.accounts, AccountEmail, email);
        var code := GenerateOTP(draw);
        var sent := !lookupFails && known.Some?;
        otp.redisStore.kv == (if sent && !storeFails then old(otp.redisStore.kv)[OtpKey(email) := code] else old(otp.redisStore.kv)) &&
        otp.mailer.outbox == (if sent && !storeFails && !sendFails then old(otp.mailer.outbox) + [Mail(email, code)] else old(otp.mailer.outbox)) &&
        err == (if lookupFails then Some(LookupFailed) else if known.None? then Some(AccountNotFound)
                else if storeFails || sendFails then Some(OtpDeliveryFailed) else None)
      ensures ok <==> err.None?
    {
      var found, lookupErr := accounts.GetByEmail(email, lookupFails);
      if lookupErr.Some? {
        return false, Some(LookupFailed);
      }
      if found.None? {
        return false, Some(AccountNotFound);
      }
      var sendErr := otp.SendOTPAndStore(email, draw, storeFails, sendFails);
      if sendErr.Some? {
        return false, Some(OtpDeliveryFailed);
      }
      return true, None;
    }
  }
}
