/** `UserServiceImpl`: the administrator's account operations — creating a
    verified account with a role, resetting a password, listing, looking
    up, locking and unlocking. */
module UserService {
  import opened Wrappers
  import opened Models
  import opened Tables
  import opened Paging
  import opened Passwords
  import opened AccountRepository

  /** PostgreSQL reads back the text `uuid.UUID.String()` writes. */
  ghost predicate ReadsBack(parse: string -> Option<Uuid>, show: Uuid -> string) {
    forall u: Uuid :: parse(show(u)) == Some(u)
  }

  /** The row `CreateAccount` builds before the insert: verified, active,
      with the hashed password and the requested role. */
  function NewAccountRow(email: string, hash: string, role: string): AccountRow {
    AccountRow(Nil, email, hash, role, None, true, true)
  }

  /** The created account is verified and active, carries the hash of the
      password and the requested role, or `user` when none is requested. */
  lemma CreatedAccountFields(email: string, hash: string, role: string, newId: Uuid, now: Time)
    requires newId != Nil
    ensures var r := AccountStored(AccountCreated(NewAccountRow(email, hash, role), newId), now);
      r.id == newId && r.email == email && r.password == hash && r.isVerified && r.accountStatus &&
      r.role == (if role == "" then DefaultRole else role) && r.createdAt == Some(now)
  {
  }

  /** With unique ids and e-mails, a row has the id of the account an
      e-mail finds exactly when it has that e-mail. */
  lemma SameSelection(rows: seq<AccountRow>, email: string)
    requires UniqueKeys(rows, AccountId) && UniqueKeys(rows, AccountEmail)
    requires Find(rows, AccountEmail, email).Some?
    ensures var x := Find(rows, AccountEmail, email).value;
      forall i :: 0 <= i < |rows| ==> (AccountId(rows[i]) == x.id <==> AccountEmail(rows[i]) == email)
  {
    var x := Find(rows, AccountEmail, email).value;
    var j :| 0 <= j < |rows| && rows[j] == x;
    assert AccountId(rows[j]) == x.id && AccountEmail(rows[j]) == email;
  }

  /** On tables whose ids and e-mails are unique, updating the account an
      e-mail finds through the text of its id updates exactly the rows the
      e-mail selects. */
  lemma UpdateByShownIdIsByEmail(rows: seq<AccountRow>, parse: string -> Option<Uuid>, show: Uuid -> string,
                                 email: string, a: Assignment, fails: bool)
    requires ReadsBack(parse, show)
    requires UniqueKeys(rows, AccountId) && UniqueKeys(rows, AccountEmail)
    requires Find(rows, AccountEmail, email).Some?
    ensures var x := Find(rows, AccountEmail, email).value;
      UpdateAccounts(rows, parse, ById(show(x.id)), a, fails) == UpdateAccounts(rows, parse, ByEmail(email), a, fails)
  {
    var x := Find(rows, AccountEmail, email).value;
    assert parse(show(x.id)) == Some(x.id);
    if !fails {
      var byId := UpdateWhere(rows, AccountId, x.id, Assign, a);
      var byEmail := UpdateWhere(rows, AccountEmail, email, Assign, a);
      assert UpdateAccounts(rows, parse, ById(show(x.id)), a, fails) == Ok(byId);
      assert UpdateAccounts(rows, parse, ByEmail(email), a, fails) == Ok(byEmail);
      SameSelection(rows, email);
      assert byId == byEmail;
    }
  }

  /** Of two status writes on the same account, the later one wins: so
      locking twice is locking once, and a lock followed by an unlock is an
      unlock, which leaves the account active. */
  lemma StatusLastWriteWins(rows: seq<AccountRow>, parse: string -> Option<Uuid>, id: string, first: bool, second: bool)
    requires parse(id).Some?
    ensures var once := UpdateAccounts(rows, parse, ById(id), SetAccountStatus(first), false).value;
      UpdateAccounts(once, parse, ById(id), SetAccountStatus(second), false) ==
        UpdateAccounts(rows, parse, ById(id), SetAccountStatus(second), false)
    ensures var r := UpdateAccounts(rows, parse, ById(id), SetAccountStatus(second), false);
      r.IsOk() && forall x :: x in r.value && parse(id) == Some(x.id) ==> x.accountStatus == second
  {
    var u := parse(id).value;
    var once := UpdateWhere(rows, AccountId, u, Assign, SetAccountStatus(first));
    var twice := UpdateWhere(once, AccountId, u, Assign, SetAccountStatus(second));
    var direct := UpdateWhere(rows, AccountId, u, Assign, SetAccountStatus(second));
    assert UpdateAccounts(rows, parse, ById(id), SetAccountStatus(first), false) == Ok(once);
    assert UpdateAccounts(once, parse, ById(id), SetAccountStatus(second), false) == Ok(twice);
    assert UpdateAccounts(rows, parse, ById(id), SetAccountStatus(second), false) == Ok(direct);
    forall i | 0 <= i < |rows| ensures twice[i] == direct[i] {
      AssignSpec(rows[i], SetAccountStatus(first), SetAccountStatus(second));
      assert AccountId(once[i]) == AccountId(rows[i]);
    }
    assert twice == direct;
    UpdateByIdWrites(rows, parse, id, SetAccountStatus(second));
  }

  class UserService {
    const accounts: AccountRepository
    const bcrypt: string -> Option<string>
    /** Whether `utils.HashPassword` is the helper as shipped, which turns
        a refused password into the empty hash, or the corrected one. */
    const asWritten: bool
    /** `uuid.UUID.String()`. */
    const show: Uuid -> string

    constructor (accounts: AccountRepository, bcrypt: string -> Option<string>, asWritten: bool, show: Uuid -> string)
      ensures this.accounts == accounts && this.bcrypt == bcrypt && this.asWritten == asWritten && this.show == show
    {
      this.accounts, this.bcrypt, this.asWritten, this.show := accounts, bcrypt, asWritten, show;
    }

    /** `CreateAccount`: refuses a known address, then creates a verified,
        active account with the hashed password and `role`, and returns it;
        nothing is returned on any failure. */
    method CreateAccount(email: string, password: string, role: string, newId: Uuid, now: Time,
                         lookupFails: bool, createFails: bool)
      returns (account: Account?, err: Option<Error>)
      requires newId != Nil
      modifies accounts.db`accounts
      ensures var known := Find(old(accounts.db.accounts), AccountEmail, email);
        lookupFails || known.Some? || !ServiceHash(bcrypt, asWritten, password).IsOk() ==>
          account == null && accounts.db.accounts == old(accounts.db.accounts) &&
          err == Some(if lookupFails then LookupFailed else if known.Some? then AccountExists else HashFailed)
      ensures var known := Find(old(accounts.db.accounts), AccountEmail, email);
        var row := AccountStored(AccountCreated(NewAccountRow(email, ServiceHash(bcrypt, asWritten, password).value, role), newId), now);
        var created := InsertAccount(old(accounts.db.accounts), row, createFails);
        !lookupFails && known.None? && ServiceHash(bcrypt, asWritten, password).IsOk() ==>
          accounts.db.accounts == created.value &&
          err == (if created.IsOk() then None else Some(CreateFailed)) &&
          (created.IsOk() ==> account != null && fresh(account) && account.Row() == row) &&
          (!created.IsOk() ==> account == null)
      ensures asWritten && bcrypt(password).None? && err.None? ==>
        account != null && account.Row().password == "" && accounts.db.accounts == old(accounts.db.accounts) + [account.Row()]
    {
      var existing, lookupErr := accounts.GetByEmail(email, lookupFails);
      if lookupErr.Some? {
        return null, Some(LookupFailed);
      }
      if existing.Some? {
        return null, Some(AccountExists);
      }
      var hashed := ServiceHash(bcrypt, asWritten, password);
      if !hashed.IsOk() {
        return null, Some(HashFailed);
      }
      account := new Account(NewAccountRow(email, hashed.value, role));
      var createErr := accounts.Create(account, newId, now, createFails);
      if createErr.Some? {
        return null, Some(CreateFailed);
      }
      err := None;
    }

    /** `ResetPassword`: finds the account by e-mail, then writes the new
        hash on the row its id, as text, selects. */
    method ResetPassword(email: string, password: string, lookupFails: bool, updateFails: bool) returns (err: Option<Error>)
      modifies accounts.db`accounts
      ensures var known := Find(old(accounts.db.accounts), AccountEmail, email);
        var reached := !lookupFails && known.Some? && ServiceHash(bcrypt, asWritten, password).IsOk();
        accounts.db.accounts ==
          (if reached
           then UpdateAccounts(old(accounts.db.accounts), accounts.parse, ById(show(known.value.id)),
                               SetPasswordHash(ServiceHash(bcrypt, asWritten, password).value), updateFails).value
           else old(accounts.db.accounts)) &&
        err == (if lookupFails then Some(LookupFailed) else if known.None? then Some(AccountNotFound)
                else if !ServiceHash(bcrypt, asWritten, password).IsOk() then Some(HashFailed)
                else if updateFails || accounts.parse(show(known.value.id)).None? then Some(UpdateFailed) else None)
      ensures var known := Find(old(accounts.db.accounts), AccountEmail, email);
        err.None? && ReadsBack(accounts.parse, show) ==>
          known.Some? && forall r :: r in accounts.db.accounts && r.id == known.value.id ==> r.password == ServiceHash(bcrypt, asWritten, password).value
      ensures var known := Find(old(accounts.db.accounts), AccountEmail, email);
        asWritten && bcrypt(password).None? && err.None? && ReadsBack(accounts.parse, show) ==>
          known.Some? && forall r :: r in accounts.db.accounts && r.id == known.value.id ==> r.password == ""
    {
      var found, lookupErr := accounts.GetByEmail(email, lookupFails);
      if lookupErr.Some? {
        return Some(LookupFailed);
      }
      if found.None? {
        return Some(AccountNotFound);
      }
      var hashed := ServiceHash(bcrypt, asWritten, password);
      if !hashed.IsOk() {
        return Some(HashFailed);
      }
      ghost var before := accounts.db.accounts;
      var cond := ById(show(found.value.id));
      var updateErr := accounts.Update(cond, SetPasswordHash(hashed.value), updateFails);
      if updateErr.Some? {
        return Some(UpdateFailed);
      }
      if ReadsBack(accounts.parse, show) {
        assert accounts.parse(show(found.value.id)) == Some(found.value.id);
        UpdateByIdWrites(before, accounts.parse, show(found.value.id), SetPasswordHash(hashed.value));
      }
      err := None;
    }

    /** `GetAllAccounts`: normalises the paging parameters, then returns the
        page of matching accounts newest first; nil on failure. */
    method GetAllAccounts(paging: Paging, cond: AccountRow -> bool, countFails: bool, findFails: bool)
      returns (list: seq<AccountRow>, err: Option<Error>)
      modifies paging
      ensures paging.page == ProcessedPage(old(paging.page)) && paging.limit == ProcessedLimit(old(paging.limit))
      ensures paging.total == if countFails then old(paging.total) else |Where(accounts.db.accounts, cond)|
      ensures countFails || findFails ==> list == [] && err == Some(LookupFailed)
      ensures !countFails && !findFails ==>
        err == None && list == ListDesc(accounts.db.accounts, cond, AccountCreatedAt, paging.page, paging.limit)
      ensures |list| <= paging.limit && SortedDesc(list, AccountCreatedAt)
      ensures forall x :: x in list ==> x in accounts.db.accounts && cond(x)
    {
      paging.ProcessPaging();
      var found, listErr := accounts.GetAccounts(paging, cond, countFails, findFails);
      if listErr.Some? {
        return [], Some(LookupFailed);
      }
      ListDescSpec(accounts.db.accounts, cond, AccountCreatedAt, paging.page, paging.limit);
      list, err := found, None;
    }

    /** `GetAccountById`: a missing account is an error here. */
    method GetAccountById(id: string, lookupFails: bool) returns (account: Option<AccountRow>, err: Option<Error>)
      ensures var found := LookupById(accounts.db.accounts, accounts.parse, id, lookupFails);
        err == (if !found.IsOk() then Some(LookupFailed) else if found.value.None? then Some(AccountNotFound) else None) &&
        account == (if err.None? then found.value else None)
      ensures account.Some? <==> err.None?
      ensures account.Some? ==> account.value in accounts.db.accounts && accounts.parse(id) == Some(account.value.id)
    {
      var found, lookupErr := accounts.GetAccountById(id, lookupFails);
      if lookupErr.Some? {
        return None, Some(LookupFailed);
      }
      if found.None? {
        return None, Some(AccountNotFound);
      }
      return found, None;
    }

    /** Shared by `LockAccount` and `UnlockAccount`: checks the account
        exists, then writes `account_status` on the rows the id selects. */
    method SetStatus(id: string, status: bool, lookupFails: bool, updateFails: bool) returns (err: Option<Error>)
      modifies accounts.db`accounts
      ensures var found := LookupById(old(accounts.db.accounts), accounts.parse, id, lookupFails);
        var reached := found.IsOk() && found.value.Some?;
        accounts.db.accounts ==
          (if reached then UpdateAccounts(old(accounts.db.accounts), accounts.parse, ById(id), SetAccountStatus(status), updateFails).value
           else old(accounts.db.accounts)) &&
        err == (if !found.IsOk() then Some(LookupFailed) else if found.value.None? then Some(AccountNotFound)
                else if updateFails then Some(UpdateFailed) else None)
    {
      var found, lookupErr := accounts.GetAccountById(id, lookupFails);
      if lookupErr.Some? {
        return Some(LookupFailed);
      }
      if found.None? {
        return Some(AccountNotFound);
      }
      var updateErr := accounts.Update(ById(id), SetAccountStatus(status), updateFails);
      if updateErr.Some? {
        return Some(UpdateFailed);
      }
      err := None;
    }

    /** `LockAccount`. */
    method LockAccount(id: string, lookupFails: bool, updateFails: bool) returns (err: Option<Error>)
      modifies accounts.db`accounts
      ensures var found := LookupById(old(accounts.db.accounts), accounts.parse, id, lookupFails);
        var reached := found.IsOk() && found.value.Some?;
        accounts.db.accounts ==
          (if reached then UpdateAccounts(old(accounts.db.accounts), accounts.parse, ById(id), SetAccountStatus(false), updateFails).value
           else old(accounts.db.accounts)) &&
        err == (if !found.IsOk() then Some(LookupFailed) else if found.value.None? then Some(AccountNotFound)
                else if updateFails then Some(UpdateFailed) else None)
      ensures err.None? ==> forall x :: x in accounts.db.accounts && accounts.parse(id) == Some(x.id) ==> !x.accountStatus
    {
      ghost var before := accounts.db.accounts;
      err := SetStatus(id, false, lookupFails, updateFails);
      if err.None? {
        UpdateByIdWrites(before, accounts.parse, id, SetAccountStatus(false));
      }
    }

    /** `UnlockAccount`. */
    method UnlockAccount(id: string, lookupFails: bool, updateFails: bool) returns (err: Option<Error>)
      modifies accounts.db`accounts
      ensures var found := LookupById(old(accounts.db.accounts), accounts.parse, id, lookupFails);
        var reached := found.IsOk() && found.value.Some?;
        accounts.db.accounts ==
          (if reached then UpdateAccounts(old(accounts.db.accounts), accounts.parse, ById(id), SetAccountStatus(true), updateFails).value
           else old(accounts.db.accounts)) &&
        err == (if !found.IsOk() then Some(LookupFailed) else if found.value.None? then Some(AccountNotFound)
                else if updateFails then Some(UpdateFailed) else None)
      ensures err.None? ==> forall x :: x in accounts.db.accounts && accounts.parse(id) == Some(x.id) ==> x.accountStatus
    {
      ghost var before := accounts.db.accounts;
      err := SetStatus(id, true, lookupFails, updateFails);
      if err.None? {
        UpdateByIdWrites(before, accounts.parse, id, SetAccountStatus(true));
      }
    }
  }
}
