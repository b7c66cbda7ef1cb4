/** The accounts table: insert, the column updates the services issue, the
    lookups by e-mail and by id, the paged listing, and deactivation. */
module AccountRepository {
  import opened Wrappers
  import opened Models
  import opened Tables
  import opened Store
  import opened Paging

  /** The `Where(cond)` maps the services pass: an e-mail, or an id given
      as text. */
  datatype Cond = ByEmail(email: string) | ById(id: string)

  /** The one-column `Updates(updateValue)` maps the services pass. */
  datatype Assignment =
    | SetVerified(isVerified: bool)
    | SetPasswordHash(hash: string)
    | SetAccountStatus(status: bool)

  /** The column an assignment writes, by index. */
  function Column(a: Assignment): nat {
    match a
    case SetVerified(_) => 0
    case SetPasswordHash(_) => 1
    case SetAccountStatus(_) => 2
  }

  function Assign(r: AccountRow, a: Assignment): AccountRow {
    match a
    case SetVerified(b) => r.(isVerified := b)
    case SetPasswordHash(h) => r.(password := h)
    case SetAccountStatus(b) => r.(accountStatus := b)
  }

  /** An assignment writes its one column and keeps the keys; a later
      assignment to the same column wins, and assignments to different
      columns commute. */
  lemma AssignSpec(r: AccountRow, a: Assignment, b: Assignment)
    ensures Assign(r, a).id == r.id && Assign(r, a).email == r.email
    ensures a.SetVerified? ==> Assign(r, a) == r.(isVerified := a.isVerified)
    ensures a.SetPasswordHash? ==> Assign(r, a) == r.(password := a.hash)
    ensures a.SetAccountStatus? ==> Assign(r, a) == r.(accountStatus := a.status)
    ensures Column(a) == Column(b) ==> Assign(Assign(r, a), b) == Assign(r, b)
    ensures Column(a) != Column(b) ==> Assign(Assign(r, a), b) == Assign(Assign(r, b), a)
  {
  }

  /** Whether a row satisfies the condition once PostgreSQL has read the id
      text with `parse`. */
  predicate Selected(parse: string -> Option<Uuid>, cond: Cond, r: AccountRow) {
    match cond
    case ByEmail(e) => r.email == e
    case ById(t) => parse(t) == Some(r.id)
  }

  /** `Where(cond).Updates(updateValue)`: a map update writes its column on
      every selected row, zero values included. Id text that is no UUID is
      rejected by PostgreSQL. */
  function UpdateAccounts(rows: seq<AccountRow>, parse: string -> Option<Uuid>, cond: Cond, a: Assignment, fails: bool): Ret<seq<AccountRow>> {
    if fails then Fail(rows, DriverError)
    else match cond
      case ByEmail(e) => Ok(UpdateWhere(rows, AccountEmail, e, Assign, a))
      case ById(t) =>
        if parse(t).None? then Fail(rows, InvalidUuidText)
        else Ok(UpdateWhere(rows, AccountId, parse(t).value, Assign, a))
  }

  /** An update succeeds unless the driver fails or the id text is no UUID;
      it then assigns exactly the selected rows, in place, and keeps ids
      and e-mails unique; a failed update changes nothing. */
  lemma UpdateAccountsSpec(rows: seq<AccountRow>, parse: string -> Option<Uuid>, cond: Cond, a: Assignment, fails: bool)
    ensures var r := UpdateAccounts(rows, parse, cond, a, fails);
      r.IsOk() <==> !fails && !(cond.ById? && parse(cond.id).None?)
    ensures var r := UpdateAccounts(rows, parse, cond, a, fails);
      !r.IsOk() ==> r.value == rows
    ensures var r := UpdateAccounts(rows, parse, cond, a, fails);
      |r.value| == |rows| &&
      forall i :: 0 <= i < |rows| ==> r.value[i] == if r.IsOk() && Selected(parse, cond, rows[i]) then Assign(rows[i], a) else rows[i]
    ensures var r := UpdateAccounts(rows, parse, cond, a, fails);
      UniqueKeys(rows, AccountId) ==> UniqueKeys(r.value, AccountId)
    ensures var r := UpdateAccounts(rows, parse, cond, a, fails);
      UniqueKeys(rows, AccountEmail) ==> UniqueKeys(r.value, AccountEmail)
  {
    var res := UpdateAccounts(rows, parse, cond, a, fails);
    if res.IsOk() {
      var r := res.value;
      forall i | 0 <= i < |rows|
        ensures r[i] == (if Selected(parse, cond, rows[i]) then Assign(rows[i], a) else rows[i])
        ensures r[i].id == rows[i].id && r[i].email == rows[i].email
      {
        match cond
        case ByEmail(e) =>
          assert r == UpdateWhere(rows, AccountEmail, e, Assign, a);
          assert Selected(parse, cond, rows[i]) <==> AccountEmail(rows[i]) == e;
        case ById(t) =>
          assert r == UpdateWhere(rows, AccountId, parse(t).value, Assign, a);
          assert Selected(parse, cond, rows[i]) <==> AccountId(rows[i]) == parse(t).value;
      }
    }
  }

  /** An update by a readable id succeeds without a driver failure, and
      every row the id then selects carries the assigned value. */
  lemma UpdateByIdWrites(rows: seq<AccountRow>, parse: string -> Option<Uuid>, id: string, a: Assignment)
    requires parse(id).Some?
    ensures var r := UpdateAccounts(rows, parse, ById(id), a, false);
      r.IsOk() && forall x :: x in r.value && parse(id) == Some(x.id) ==> Assign(x, a) == x
  {
    var u := parse(id).value;
    var r := UpdateWhere(rows, AccountId, u, Assign, a);
    assert UpdateAccounts(rows, parse, ById(id), a, false) == Ok(r);
    forall x | x in r && parse(id) == Some(x.id) ensures Assign(x, a) == x {
      var i :| 0 <= i < |r| && r[i] == x;
      AssignSpec(rows[i], a, a);
    }
  }

  /** `Create(account)`: a duplicate id or e-mail (the primary key and the
      unique column) is refused. */
  function InsertAccount(rows: seq<AccountRow>, row: AccountRow, fails: bool): Ret<seq<AccountRow>> {
    if fails then Fail(rows, DriverError)
    else if Find(rows, AccountId, row.id).Some? || Find(rows, AccountEmail, row.email).Some? then Fail(rows, DuplicateKey)
    else Ok(rows + [row])
  }

  /** An insert succeeds exactly when the driver does and both the id and
      the e-mail are new; it then appends the row, which its e-mail finds,
      and keeps both unique. */
  lemma InsertAccountSpec(rows: seq<AccountRow>, row: AccountRow, fails: bool)
    requires UniqueKeys(rows, AccountId) && UniqueKeys(rows, AccountEmail)
    ensures var r := InsertAccount(rows, row, fails);
      r.IsOk() <==> !fails && forall x :: x in rows ==> x.id != row.id && x.email != row.email
    ensures var r := InsertAccount(rows, row, fails);
      r.value == if r.IsOk() then rows + [row] else rows
    ensures var r := InsertAccount(rows, row, fails);
      UniqueKeys(r.value, AccountId) && UniqueKeys(r.value, AccountEmail)
    ensures var r := InsertAccount(rows, row, fails);
      r.IsOk() ==> Find(r.value, AccountEmail, row.email) == Some(row) && Find(r.value, AccountId, row.id) == Some(row)
  {
    if InsertAccount(rows, row, fails).IsOk() {
      AppendUnique(rows, AccountId, row);
      AppendUnique(rows, AccountEmail, row);
    }
  }

  /** `GetAccountById`: the id text is read by PostgreSQL; a missing account
      is nil and no error. */
  function LookupById(rows: seq<AccountRow>, parse: string -> Option<Uuid>, id: string, fails: bool): (r: Ret<Option<AccountRow>>)
    ensures r.IsOk() <==> !fails && parse(id).Some?
    ensures r.value.Some? ==> r.value.value in rows && parse(id) == Some(r.value.value.id)
    ensures r.IsOk() && r.value.None? ==> forall x :: x in rows ==> parse(id) != Some(x.id)
  {
    if fails then Fail(None, DriverError)
    else if parse(id).None? then Fail(None, InvalidUuidText)
    else Ok(Find(rows, AccountId, parse(id).value))
  }

  function AccountCreatedAt(r: AccountRow): Option<Time> { r.createdAt }

  /** `AccountRepoImpl`. `parse` is how PostgreSQL reads UUID text. */
  class AccountRepository {
    const db: Database
    const parse: string -> Option<Uuid>

    constructor (db: Database, parse: string -> Option<Uuid>)
      ensures this.db == db && this.parse == parse
    {
      this.db := db;
      this.parse := parse;
    }

    /** `Create`: `BeforeCreate`, then the column defaults and the creation
        time on the struct, then the insert. */
    method Create(account: Account, newId: Uuid, now: Time, fails: bool) returns (err: Option<Error>)
      requires newId != Nil
      modifies account, db`accounts
      ensures account.Row() == AccountStored(AccountCreated(old(account.Row()), newId), now)
      ensures var r := InsertAccount(old(db.accounts), account.Row(), fails);
        db.accounts == r.value && err == r.err
    {
      account.BeforeCreate(newId);
      account.ApplyDefaults(now);
      var r := InsertAccount(db.accounts, account.Row(), fails);
      db.accounts := r.value;
      err := r.err;
    }

    /** `Update`. */
    method Update(cond: Cond, value: Assignment, fails: bool) returns (err: Option<Error>)
      modifies db`accounts
      ensures var r := UpdateAccounts(old(db.accounts), parse, cond, value, fails);
        db.accounts == r.value && err == r.err
    {
      var r := UpdateAccounts(db.accounts, parse, cond, value, fails);
      db.accounts := r.value;
      err := r.err;
    }

    /** `GetByEmail`: nil and no error for an unknown address. */
    method GetByEmail(email: string, fails: bool) returns (account: Option<AccountRow>, err: Option<Error>)
      ensures fails ==> account.None? && err == Some(DriverError)
      ensures !fails ==> err.None? && account == Find(db.accounts, AccountEmail, email)
      ensures account.Some? ==> account.value in db.accounts && account.value.email == email
      ensures !fails && account.None? ==> forall r :: r in db.accounts ==> r.email != email
    {
      var r := LookupKey(db.accounts, AccountEmail, email, fails);
      account, err := r.value, r.err;
    }

    /** `GetAccountById`. */
    method GetAccountById(id: string, fails: bool) returns (account: Option<AccountRow>, err: Option<Error>)
      ensures account == LookupById(db.accounts, parse, id, fails).value
      ensures err == LookupById(db.accounts, parse, id, fails).err
      ensures err.Some? ==> account.None?
    {
      var r := LookupById(db.accounts, parse, id, fails);
      account, err := r.value, r.err;
    }

    /** `GetDB`. */
    method GetDB() returns (d: Database)
      ensures d == db
    {
      d := db;
    }

    /** `GetAccounts`: counts the rows matching `cond` into `paging.Total`,
        then returns one page of them, newest first. */
    method GetAccounts(paging: Paging, cond: AccountRow -> bool, countFails: bool, findFails: bool)
      returns (accounts: seq<AccountRow>, err: Option<Error>)
      modifies paging`total
      ensures countFails ==> accounts == [] && err == Some(DriverError) && paging.total == old(paging.total)
      ensures !countFails ==> paging.total == |Where(db.accounts, cond)|
      ensures !countFails && findFails ==> accounts == [] && err == Some(DriverError)
      ensures !countFails && !findFails ==>
        err == None && accounts == ListDesc(db.accounts, cond, AccountCreatedAt, paging.page, paging.limit)
    {
      if countFails {
        return [], Some(DriverError);
      }
      paging.total := |Where(db.accounts, cond)|;
      if findFails {
        return [], Some(DriverError);
      }
      accounts := ListDesc(db.accounts, cond, AccountCreatedAt, paging.page, paging.limit);
      err := None;
    }

    /** `DeactivateAccount`: runs on the transaction it is given, which must
        not be nil (the Go code dereferences it). */
    method DeactivateAccount(tx: Database, accountId: string, fails: bool) returns (err: Option<Error>)
      modifies tx`accounts
      ensures var r := UpdateAccounts(old(tx.accounts), parse, ById(accountId), SetAccountStatus(false), fails);
        tx.accounts == r.value && err == r.err
    {
      var r := UpdateAccounts(tx.accounts, parse, ById(accountId), SetAccountStatus(false), fails);
      tx.accounts := r.value;
      err := r.err;
    }
  }
}
