/**
 * The database as the handlers see it: the users and accounts tables keyed
 * by primary key, the transaction table as an append-only sequence, the
 * unique columns that the database enforces, the ledger's references to
 * accounts as an invariant every handler keeps, the lookups the handlers
 * issue and the inserts that add rows.
 */
module Store {
  import opened Wrappers
  import opened Models

  /** Why a request fails. */
  datatype Error =
    | InvalidAmount        // `float(amount)` raised
    | NotFound             // `get_or_404` found no row with that id
    | DestinationNotFound  // no account with the destination number
    | Unauthorized         // the account belongs to someone else
    | Forbidden            // `admin_required` refused a non-admin
    | InsufficientFunds
    | InvalidCredentials
    | DuplicateKey         // a unique column would hold a value twice
    | CommitFailed         // the database refused the commit

  datatype BankState = BankState(accounts: map<nat, Account>, users: map<nat, User>, ledger: seq<Transaction>)

  /** The unique `account_number` column. */
  predicate UniqueAccountNumbers(accounts: map<nat, Account>) {
    forall i, j :: i in accounts && j in accounts && accounts[i].accountNumber == accounts[j].accountNumber ==> i == j
  }

  /** The unique `username` and `email` columns. */
  predicate UniqueUserKeys(users: map<nat, User>) {
    && (forall i, j :: i in users && j in users && users[i].username == users[j].username ==> i == j)
    && (forall i, j :: i in users && j in users && users[i].email == users[j].email ==> i == j)
  }

  /** Each ledger entry names accounts that exist: not enforced by SQLite, kept by every handler. */
  predicate LedgerReferencesAccounts(s: BankState) {
    forall k :: 0 <= k < |s.ledger| ==>
      && s.ledger[k].accountId in s.accounts
      && (s.ledger[k].sentAccountId.Some? ==> s.ledger[k].sentAccountId.value in s.accounts)
  }

  predicate WellFormed(s: BankState) {
    UniqueAccountNumbers(s.accounts) && UniqueUserKeys(s.users) && LedgerReferencesAccounts(s)
  }

  /** `Account.query.filter_by(account_number=number).first()`. */
  function AccountWithNumber(accounts: map<nat, Account>, number: string): (r: Option<nat>)
    requires UniqueAccountNumbers(accounts)
    ensures r.Some? ==> r.value in accounts && accounts[r.value].accountNumber == number
    ensures r.None? ==> forall id :: id in accounts ==> accounts[id].accountNumber != number
  {
    if exists id :: id in accounts && accounts[id].accountNumber == number then
      var id :| id in accounts && accounts[id].accountNumber == number;
      Some(id)
    else
      None
  }

  /** `User.query.filter_by(email=email).first()`. */
  function UserWithEmail(users: map<nat, User>, email: string): (r: Option<nat>)
    requires UniqueUserKeys(users)
    ensures r.Some? ==> r.value in users && users[r.value].email == email
    ensures r.None? ==> forall id :: id in users ==> users[id].email != email
  {
    if exists id :: id in users && users[id].email == email then
      var id :| id in users && users[id].email == email;
      Some(id)
    else
      None
  }

  // --------------------------------------------------------------- inserts

  /**
   * Adds an account row under the fresh key `id` (the database's next
   * primary key). The commit fails when the generated number is taken.
   */
  function InsertAccount(s: BankState, id: nat, a: Account): (r: (BankState, Result<nat, Error>))
    requires WellFormed(s) && id !in s.accounts
    ensures WellFormed(r.0)
    ensures r.1.Success? <==> forall i :: i in s.accounts ==> s.accounts[i].accountNumber != a.accountNumber
    ensures r.1.Success? ==> r.1.value == id && r.0 == s.(accounts := s.accounts[id := a])
    ensures r.1.Failure? ==> r.1.error == DuplicateKey && r.0 == s
  {
    if exists i :: i in s.accounts && s.accounts[i].accountNumber == a.accountNumber then
      (s, Failure(DuplicateKey))
    else
      (s.(accounts := s.accounts[id := a]), Success(id))
  }

  /** Adds a user row under the fresh key `id`; the commit fails on a taken username or email. */
  function InsertUser(s: BankState, id: nat, u: User): (r: (BankState, Result<nat, Error>))
    requires WellFormed(s) && id !in s.users
    ensures WellFormed(r.0)
    ensures r.1.Success? <==> forall i :: i in s.users ==> s.users[i].username != u.username && s.users[i].email != u.email
    ensures r.1.Success? ==> r.1.value == id && r.0 == s.(users := s.users[id := u])
    ensures r.1.Failure? ==> r.1.error == DuplicateKey && r.0 == s
  {
    if exists i :: i in s.users && (s.users[i].username == u.username || s.users[i].email == u.email) then
      (s, Failure(DuplicateKey))
    else
      (s.(users := s.users[id := u]), Success(id))
  }

  // --------------------------------------------------------------- balances

  /** The sum of the balances of the accounts in `ids`. */
  ghost function BalanceSum(accounts: map<nat, Account>, ids: set<nat>): int
    requires ids <= accounts.Keys
    decreases ids
  {
    if ids == {} then 0
    else
      var id :| id in ids;
      accounts[id].balance + BalanceSum(accounts, ids - {id})
  }

  /** The money held by the bank: the sum of every account's balance. */
  ghost function TotalBalance(accounts: map<nat, Account>): int {
    BalanceSum(accounts, accounts.Keys)
  }

  /** The sum does not depend on which account it takes first. */
  lemma {:induction false} BalanceSumRemove(accounts: map<nat, Account>, ids: set<nat>, x: nat)
    requires ids <= accounts.Keys && x in ids
    ensures BalanceSum(accounts, ids) == accounts[x].balance + BalanceSum(accounts, ids - {x})
    decreases ids
  {
    var y :| y in ids && BalanceSum(accounts, ids) == accounts[y].balance + BalanceSum(accounts, ids - {y});
    if y != x {
      BalanceSumRemove(accounts, ids - {y}, x);
      BalanceSumRemove(accounts, ids - {x}, y);
      assert ids - {y} - {x} == ids - {x} - {y};
    }
  }

  /** Two tables whose balances agree on `ids` have the same sum over `ids`. */
  lemma {:induction false} BalanceSumAgree(a: map<nat, Account>, b: map<nat, Account>, ids: set<nat>)
    requires ids <= a.Keys && ids <= b.Keys
    requires forall id :: id in ids ==> a[id].balance == b[id].balance
    ensures BalanceSum(a, ids) == BalanceSum(b, ids)
    decreases ids
  {
    if ids != {} {
      var y :| y in ids;
      BalanceSumRemove(a, ids, y);
      BalanceSumRemove(b, ids, y);
      BalanceSumAgree(a, b, ids - {y});
    }
  }

  /** Replacing one account changes the total by exactly the change of its balance. */
  lemma TotalBalanceUpdate(accounts: map<nat, Account>, id: nat, a: Account)
    requires id in accounts
    ensures TotalBalance(accounts[id := a]) == TotalBalance(accounts) - accounts[id].balance + a.balance
  {
    var updated := accounts[id := a];
    assert updated.Keys == accounts.Keys;
    BalanceSumRemove(updated, updated.Keys, id);
    BalanceSumRemove(accounts, accounts.Keys, id);
    BalanceSumAgree(accounts, updated, accounts.Keys - {id});
  }

  /** Inserting an account adds its balance to the total. */
  lemma TotalBalanceInsert(accounts: map<nat, Account>, id: nat, a: Account)
    requires id !in accounts
    ensures TotalBalance(accounts[id := a]) == TotalBalance(accounts) + a.balance
  {
    var added := accounts[id := a];
    assert added.Keys - {id} == accounts.Keys;
    BalanceSumRemove(added, added.Keys, id);
    BalanceSumAgree(accounts, added, accounts.Keys);
  }
}
