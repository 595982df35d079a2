/**
 * The read-only parts of the request handlers: the admin guard, the
 * owner-or-admin rule for one account, the two listings and the login check.
 */
module Access {
  import opened Wrappers
  import opened Models
  import opened Store

  // ------------------------------------------------------------ admin guard

  /**
   * The boolean attributes an admin guard could read from a logged-in user
   * object: its `admin` column and the three that flask_login's `UserMixin`
   * adds. Any other such name, `is_admin` among them, raises AttributeError,
   * modelled as None.
   */
  function Attribute(u: User, name: string): Option<bool> {
    if name == "admin" then Some(u.admin)
    else if name == "is_active" || name == "is_authenticated" then Some(true)
    else if name == "is_anonymous" then Some(false)
    else None
  }

  /** What a guard that reads one attribute of the current user does with a request. */
  datatype Guard = Admitted | Refused | Crashed

  function GuardOn(u: User, name: string): Guard {
    match Attribute(u, name)
    case Some(b) => if b then Admitted else Refused
    case None => Crashed
  }

  /** `admin_required` as written: it tests `current_user.is_admin`. */
  function AdminRequiredAsWritten(u: User): Guard {
    GuardOn(u, "is_admin")
  }

  /** No user object has `is_admin`, so the written guard fails every request, an admin's too. */
  lemma AdminRequiredAsWrittenCrashes(u: User)
    ensures AdminRequiredAsWritten(u) == Crashed
  {
  }

  /** `admin_required` reading the `admin` column, the evidently intended test. */
  function AdminRequired(u: User): (g: Guard)
    ensures g == Admitted <==> u.admin
    ensures g == Refused <==> !u.admin
  {
    GuardOn(u, "admin")
  }

  // -------------------------------------------------------- account access

  /** The rule of `get_account`, `update_account` and `delete_account`: owner or admin. */
  predicate CanAccess(me: nat, current: User, a: Account) {
    a.userId == me || current.admin
  }

  /** `get_account`: 404 for an unknown id, 403 unless owner or admin, else the account. */
  function GetAccount(s: BankState, me: nat, id: nat): (r: Result<Account, Error>)
    requires me in s.users
    ensures r.Success? <==> id in s.accounts && CanAccess(me, s.users[me], s.accounts[id])
    ensures r.Success? ==> r.value == s.accounts[id]
    ensures r == Failure(NotFound) <==> id !in s.accounts
    ensures r == Failure(Unauthorized) <==> id in s.accounts && !CanAccess(me, s.users[me], s.accounts[id])
  {
    if id !in s.accounts then Failure(NotFound)
    else if s.accounts[id].userId != me && !s.users[me].admin then Failure(Unauthorized)
    else Success(s.accounts[id])
  }

  // ---------------------------------------------------------------- listings

  /** `current_user.accounts`: the accounts whose `user_id` is the user's. */
  function OwnedAccounts(accounts: map<nat, Account>, me: nat): map<nat, Account> {
    map id | id in accounts && accounts[id].userId == me :: accounts[id]
  }

  /** The Active rows of a table of accounts. */
  function ActiveAccounts(accounts: map<nat, Account>): map<nat, Account> {
    map id | id in accounts && accounts[id].status == Active :: accounts[id]
  }

  /**
   * `get_accounts`: all accounts for an admin, the user's own otherwise,
   * keeping the Active ones. The result is exactly the Active accounts the
   * user may access under `CanAccess`.
   */
  function GetAccounts(s: BankState, me: nat): (r: map<nat, Account>)
    requires me in s.users
    ensures forall id :: id in r <==>
      id in s.accounts && s.accounts[id].status == Active && CanAccess(me, s.users[me], s.accounts[id])
    ensures forall id :: id in r ==> r[id] == s.accounts[id]
    ensures !s.users[me].admin ==> forall id :: id in r ==> r[id].userId == me
  {
    var accounts := if s.users[me].admin then s.accounts else OwnedAccounts(s.accounts, me);
    ActiveAccounts(accounts)
  }

  /** The Active rows of the users table. */
  function ActiveUsers(users: map<nat, User>): (r: map<nat, User>)
    ensures forall id :: id in r <==> id in users && users[id].status == Active
    ensures forall id :: id in r ==> r[id] == users[id]
  {
    map id | id in users && users[id].status == Active :: users[id]
  }

  /** `get_users`: behind the admin guard, the Active users. */
  function GetUsers(s: BankState, me: nat): (r: Result<map<nat, User>, Error>)
    requires me in s.users
    ensures r.Success? <==> s.users[me].admin
    ensures r.Failure? ==> r.error == Forbidden
    ensures r.Success? ==> forall id :: id in r.value <==> id in s.users && s.users[id].status == Active
  {
    if AdminRequired(s.users[me]) != Admitted then Failure(Forbidden)
    else Success(ActiveUsers(s.users))
  }

  // ------------------------------------------------------------------- login

  /**
   * `login`: the user with that email, if the password matches its hash and
   * the user is Active; `checkHash` stands for werkzeug's
   * `check_password_hash(hash, password)`.
   */
  function Login(s: BankState, email: string, password: string, checkHash: (string, string) -> bool): (r: Result<nat, Error>)
    requires UniqueUserKeys(s.users)
    ensures r.Success? ==>
      && r.value in s.users && s.users[r.value].email == email
      && checkHash(s.users[r.value].passwordHash, password) && s.users[r.value].status == Active
    ensures r.Failure? ==> r.error == InvalidCredentials && forall id :: id in s.users && s.users[id].email == email ==>
      !checkHash(s.users[id].passwordHash, password) || s.users[id].status != Active
  {
    match UserWithEmail(s.users, email)
    case None => Failure(InvalidCredentials)
    case Some(id) =>
      if checkHash(s.users[id].passwordHash, password) && s.users[id].status == Active then Success(id)
      else Failure(InvalidCredentials)
  }

  /** Whatever the password and the hash check, an Inactive user never logs in. */
  lemma InactiveUserNeverLogsIn(s: BankState, id: nat, password: string, checkHash: (string, string) -> bool)
    requires UniqueUserKeys(s.users) && id in s.users && s.users[id].status == Inactive
    ensures Login(s, s.users[id].email, password, checkHash) != Success(id)
  {
  }
}
