/**
 * The three persistent records of the bank (users, accounts and ledger
 * entries), their constructors with the defaults they fill in, and
 * `deactivate`. A record is a value: the table that holds it (module Store)
 * stands for the database row, and changing a field of the loaded object is
 * replacing the record in that table.
 */
module Models {
  import opened Wrappers

  /** The `status` column of users and accounts; the code writes only these two values. */
  datatype Status = Active | Inactive

  /** The three members of the `TransactionType` enumeration. */
  datatype TransactionType = Deposit | Withdraw | Transfer {
    /** The enumeration value of each member. */
    function Value(): string {
      match this
      case Deposit => "deposit"
      case Withdraw => "withdraw"
      case Transfer => "transfer"
    }
  }

  /** Distinct members carry distinct values, so none of the three is an alias of another. */
  lemma TransactionTypeValuesDistinct(t: TransactionType, u: TransactionType)
    ensures t != u ==> t.Value() != u.Value()
  {
  }

  // ---------------------------------------------------------------- users

  /**
   * A user row. `passwordHash` is what the application stores (a werkzeug
   * hash); the row's id is the key of the users table, created_at is left out.
   */
  datatype User = User(username: string, email: string, passwordHash: string, admin: bool, status: Status) {

    /** `User.deactivate`: sets the status to Inactive and returns the new status. */
    function Deactivate(): (r: (User, Status))
      ensures r.1 == Inactive && r.0.status == r.1
      ensures r.0.username == username && r.0.email == email
      ensures r.0.passwordHash == passwordHash && r.0.admin == admin
    {
      (this.(status := Inactive), Inactive)
    }
  }

  /** `User.__init__`: every field as given, status Active; admin defaults to false. */
  function NewUser(username: string, email: string, passwordHash: string, admin: bool := false): (u: User)
    ensures u.status == Active
    ensures u.username == username && u.email == email
    ensures u.passwordHash == passwordHash && u.admin == admin
  {
    User(username, email, passwordHash, admin, Active)
  }

  lemma NewUserDefaults(username: string, email: string, passwordHash: string)
    ensures NewUser(username, email, passwordHash).admin == false
    ensures NewUser(username, email, passwordHash).status == Active
  {
  }

  lemma UserDeactivateIdempotent(u: User)
    ensures u.Deactivate().0.Deactivate() == u.Deactivate()
  {
  }

  // ------------------------------------------------------------- accounts

  /**
   * An account row. Balances are integers (cents) instead of floats; the
   * row's id is the key of the accounts table, created_at is left out.
   */
  datatype Account = Account(
    name: string,
    accountNumber: string,
    balance: int,
    currency: string,
    country: string,
    status: Status,
    userId: nat)
  {
    /** `Account.deactivate`: sets the status to Inactive and returns the new status. */
    function Deactivate(): (r: (Account, Status))
      ensures r.1 == Inactive && r.0.status == r.1
      ensures r.0.name == name && r.0.accountNumber == accountNumber && r.0.balance == balance
      ensures r.0.currency == currency && r.0.country == country && r.0.userId == userId
    {
      (this.(status := Inactive), Inactive)
    }
  }

  lemma AccountDeactivateIdempotent(a: Account)
    ensures a.Deactivate().0.Deactivate() == a.Deactivate()
  {
  }

  /** Python's `string.digits`. */
  const Digits: string := "0123456789"

  /** The length of a generated account number (`k=20`). */
  const AccountNumberLength: nat := 20

  /** Exactly twenty characters, each a decimal digit. */
  predicate IsAccountNumber(n: string) {
    |n| == AccountNumberLength && forall i :: 0 <= i < |n| ==> '0' <= n[i] <= '9'
  }

  /** What `random.choices(string.digits, k=20)` may return, as indices into `Digits`. */
  predicate IsDraw(draws: seq<nat>) {
    |draws| == AccountNumberLength && forall i :: 0 <= i < |draws| ==> draws[i] < |Digits|
  }

  /** `''.join(random.choices(string.digits, k=20))` for the given draws. */
  function AccountNumber(draws: seq<nat>): (n: string)
    requires IsDraw(draws)
    ensures IsAccountNumber(n)
  {
    seq(|draws|, i requires 0 <= i < |draws| => Digits[draws[i]])
  }

  /** The draws that produce a given number: the value of each digit. */
  function DrawsOf(n: string): (draws: seq<nat>)
    requires IsAccountNumber(n)
    ensures IsDraw(draws)
  {
    seq(|n|, i requires 0 <= i < |n| => (n[i] - '0') as nat)
  }

  /**
   * Generation reaches every twenty-digit number and distinct draws give
   * distinct numbers: `AccountNumber` is a bijection onto `IsAccountNumber`.
   */
  lemma AccountNumberRoundTrip(draws: seq<nat>, n: string)
    requires IsDraw(draws) && IsAccountNumber(n)
    ensures DrawsOf(AccountNumber(draws)) == draws
    ensures AccountNumber(DrawsOf(n)) == n
  {
    var m := AccountNumber(draws);
    forall i | 0 <= i < |draws|
      ensures DrawsOf(m)[i] == draws[i]
    {
      assert Digits[draws[i]] == ('0' as int + draws[i]) as char;
    }
    var d := DrawsOf(n);
    forall i | 0 <= i < |n|
      ensures AccountNumber(d)[i] == n[i]
    {
      assert Digits[d[i]] == ('0' as int + d[i]) as char;
    }
  }

  /**
   * `Account.__init__`: status Active, balance defaulting to 0, a generated
   * number, the other fields as given. Nothing compares the number with the
   * numbers already stored; only the table's unique column does.
   */
  function NewAccount(name: string, currency: string, country: string, userId: nat, draws: seq<nat>, balance: int := 0): (a: Account)
    requires IsDraw(draws)
    ensures a.status == Active && IsAccountNumber(a.accountNumber)
    ensures a.accountNumber == AccountNumber(draws)
    ensures a.name == name && a.currency == currency && a.country == country
    ensures a.userId == userId && a.balance == balance
  {
    Account(name, AccountNumber(draws), balance, currency, country, Active, userId)
  }

  lemma NewAccountDefaults(name: string, currency: string, country: string, userId: nat, draws: seq<nat>)
    requires IsDraw(draws)
    ensures NewAccount(name, currency, country, userId, draws).balance == 0
    ensures NewAccount(name, currency, country, userId, draws).status == Active
  {
  }

  // --------------------------------------------------------- transactions

  /**
   * A ledger entry. `sentAccountId`, `description` and `userId` are nullable
   * in the constructor; the `user_id` column is nonetheless declared NOT NULL.
   */
  datatype Transaction = Transaction(
    amount: int,
    currency: string,
    accountId: nat,
    transactionType: TransactionType,
    sentAccountId: Option<nat>,
    description: Option<string>,
    userId: Option<nat>)

  /** `Transaction.__init__`: stores the given fields; the last three default to none. */
  function NewTransaction(
    amount: int, currency: string, accountId: nat, transactionType: TransactionType,
    sentAccountId: Option<nat> := None, userId: Option<nat> := None, description: Option<string> := None): (t: Transaction)
    ensures t.amount == amount && t.currency == currency && t.accountId == accountId
    ensures t.transactionType == transactionType && t.sentAccountId == sentAccountId
    ensures t.userId == userId && t.description == description
  {
    Transaction(amount, currency, accountId, transactionType, sentAccountId, description, userId)
  }

  lemma NewTransactionDefaults(amount: int, currency: string, accountId: nat, transactionType: TransactionType)
    ensures NewTransaction(amount, currency, accountId, transactionType).sentAccountId == None
    ensures NewTransaction(amount, currency, accountId, transactionType).description == None
    ensures NewTransaction(amount, currency, accountId, transactionType).userId == None
  {
  }

  /** The NOT NULL constraints of the transaction table that a model value can break. */
  predicate SatisfiesNotNull(t: Transaction) {
    t.userId.Some?
  }
}
